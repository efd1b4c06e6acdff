/** The JavaScript string operations the core relies on, over `seq<char>`:
    relational comparison, trimming, splitting, ASCII case mapping, whitespace
    runs and substring search. */
module Strings {

  // ---------------------------------------------------------------------------
  // Relational comparison (`a < b`, `a > b` on strings)
  // ---------------------------------------------------------------------------

  /** JavaScript's `a < b` on strings: compare element by element; at the first
      difference the smaller element decides; a proper prefix is smaller. */
  predicate LexLess(a: string, b: string)
    decreases |a|
  {
    if |b| == 0 then false
    else if |a| == 0 then true
    else if a[0] != b[0] then a[0] < b[0]
    else LexLess(a[1..], b[1..])
  }

  /** JavaScript's `a > b` on strings. */
  predicate LexGreater(a: string, b: string) {
    LexLess(b, a)
  }

  /** The textbook definition of lexicographic order: either `a` is a proper
      prefix of `b`, or they first differ at an index where `a` is smaller. */
  ghost predicate LexLessSpec(a: string, b: string) {
    || (|a| < |b| && a == b[..|a|])
    || exists i :: 0 <= i < |a| && i < |b| && a[..i] == b[..i] && a[i] < b[i]
  }

  /** A proper prefix is smaller. */
  lemma {:induction false} ProperPrefixIsLess(a: string, b: string)
    requires |a| < |b| && a == b[..|a|]
    ensures LexLess(a, b)
    decreases |a|
  {
    if |a| > 0 {
      assert a[0] == b[0];
      assert a[1..] == b[1..][..|a[1..]|];
      ProperPrefixIsLess(a[1..], b[1..]);
    }
  }

  /** The first differing element decides. */
  lemma {:induction false} FirstDifferenceDecides(a: string, b: string, i: nat)
    requires i < |a| && i < |b| && a[..i] == b[..i] && a[i] < b[i]
    ensures LexLess(a, b)
    decreases i
  {
    if i > 0 {
      assert a[0] == a[..i][0] == b[..i][0] == b[0];
      assert a[1..][..i - 1] == a[..i][1..];
      assert b[1..][..i - 1] == b[..i][1..];
      FirstDifferenceDecides(a[1..], b[1..], i - 1);
    }
  }

  /** A smaller string is a proper prefix or loses at the first difference. */
  lemma {:induction false} LessHasWitness(a: string, b: string)
    requires LexLess(a, b)
    ensures LexLessSpec(a, b)
    decreases |a|
  {
    if |a| == 0 {
      assert a == b[..0];
    } else if a[0] != b[0] {
      assert a[..0] == b[..0];
    } else {
      LessHasWitness(a[1..], b[1..]);
      if |a[1..]| < |b[1..]| && a[1..] == b[1..][..|a[1..]|] {
        assert a == [a[0]] + a[1..];
        assert b[..|a|] == [b[0]] + b[1..][..|a[1..]|];
      } else {
        var i :| 0 <= i < |a[1..]| && i < |b[1..]| && a[1..][..i] == b[1..][..i] && a[1..][i] < b[1..][i];
        assert a[..i + 1] == [a[0]] + a[1..][..i];
        assert b[..i + 1] == [b[0]] + b[1..][..i];
      }
    }
  }

  /** The recursive comparison agrees with the textbook definition, both ways. */
  lemma LexLessMeetsSpec(a: string, b: string)
    ensures LexLess(a, b) <==> LexLessSpec(a, b)
  {
    if LexLess(a, b) {
      LessHasWitness(a, b);
    } else if |a| < |b| && a == b[..|a|] {
      ProperPrefixIsLess(a, b);
    } else if LexLessSpec(a, b) {
      var i :| 0 <= i < |a| && i < |b| && a[..i] == b[..i] && a[i] < b[i];
      FirstDifferenceDecides(a, b, i);
    }
  }

  lemma {:induction false} LexLessIrreflexive(a: string)
    ensures !LexLess(a, a)
    decreases |a|
  {
    if |a| > 0 {
      LexLessIrreflexive(a[1..]);
    }
  }

  lemma {:induction false} LexLessTransitive(a: string, b: string, c: string)
    requires LexLess(a, b) && LexLess(b, c)
    ensures LexLess(a, c)
    decreases |a|
  {
    if |a| > 0 && a[0] == b[0] && b[0] == c[0] {
      LexLessTransitive(a[1..], b[1..], c[1..]);
    }
  }

  /** Any two different strings are ordered one way or the other. */
  lemma {:induction false} LexLessTotal(a: string, b: string)
    ensures a == b || LexLess(a, b) || LexLess(b, a)
    decreases |a|
  {
    if |a| > 0 && |b| > 0 && a[0] == b[0] {
      LexLessTotal(a[1..], b[1..]);
      if a[1..] == b[1..] {
        assert a == [a[0]] + a[1..] && b == [b[0]] + b[1..];
      }
    }
  }

  lemma LexLessAsymmetric(a: string, b: string)
    requires LexLess(a, b)
    ensures !LexLess(b, a)
  {
    if LexLess(b, a) {
      LexLessTransitive(a, b, a);
      LexLessIrreflexive(a);
    }
  }

  /** "Not greater than" is transitive: if `a <= b` and `b <= c` then `a <= c`. */
  lemma NotGreaterTransitive(a: string, b: string, c: string)
    requires !LexLess(b, a) && !LexLess(c, b)
    ensures !LexLess(c, a)
  {
    LexLessTotal(a, b);
    LexLessTotal(b, c);
    if LexLess(c, a) {
      if a != b && b != c {
        LexLessTransitive(a, b, c);
        LexLessAsymmetric(a, c);
      }
    }
  }

  /** JavaScript's `a || b` on strings: `a` unless it is empty. */
  function Or(a: string, b: string): (r: string)
    ensures r == a || r == b
    ensures r == "" <==> a == "" && b == ""
  {
    if a != "" then a else b
  }

  // ---------------------------------------------------------------------------
  // Whitespace and trimming (`String.prototype.trim`, regex `\s`)
  // ---------------------------------------------------------------------------

  /** The white-space and line-terminator characters recognised by `trim()` and
      by the regular-expression class `\s` (the ASCII ones, no-break space,
      the line/paragraph separators and the byte-order mark). */
  predicate IsSpace(c: char) {
    || c == ' ' || c == '\t' || c == '\n' || c == '\r'
    || c == '\U{000B}' || c == '\U{000C}' || c == '\U{00A0}'
    || c == '\U{2028}' || c == '\U{2029}' || c == '\U{FEFF}'
  }

  predicate NoSpace(s: string) {
    forall i :: 0 <= i < |s| ==> !IsSpace(s[i])
  }

  /** `s` with its leading white space removed. */
  function TrimStart(s: string): (r: string)
    ensures |r| <= |s| && r == s[|s| - |r|..]
    ensures |r| > 0 ==> !IsSpace(r[0])
    ensures forall i :: 0 <= i < |s| - |r| ==> IsSpace(s[i])
  {
    if |s| > 0 && IsSpace(s[0]) then TrimStart(s[1..]) else s
  }

  /** `s` with its trailing white space removed. */
  function TrimEnd(s: string): (r: string)
    ensures |r| <= |s| && r == s[..|r|]
    ensures |r| > 0 ==> !IsSpace(r[|r| - 1])
    ensures forall i :: |r| <= i < |s| ==> IsSpace(s[i])
  {
    if |s| > 0 && IsSpace(s[|s| - 1]) then TrimEnd(s[..|s| - 1]) else s
  }

  /** `s.trim()`: `s` without the white space at either end. */
  function Trim(s: string): (r: string)
    ensures |r| <= |s|
    ensures |r| > 0 ==> !IsSpace(r[0]) && !IsSpace(r[|r| - 1])
    ensures NoSpace(s) ==> r == s
    ensures r == "" <==> forall i :: 0 <= i < |s| ==> IsSpace(s[i])
  {
    TrimOfNoSpace(s);
    TrimEmptyIffAllSpace(s);
    TrimEnd(TrimStart(s))
  }

  /** Helper: a string without white space is left as it is by both trims. */
  lemma TrimOfNoSpace(s: string)
    ensures NoSpace(s) ==> TrimEnd(TrimStart(s)) == s
  {
    if NoSpace(s) && |s| > 0 {
      assert !IsSpace(s[0]) && !IsSpace(s[|s| - 1]);
    }
  }

  /** Helper: both trims leave nothing exactly when every character is white space. */
  lemma TrimEmptyIffAllSpace(s: string)
    ensures TrimEnd(TrimStart(s)) == "" <==> forall i :: 0 <= i < |s| ==> IsSpace(s[i])
  {
    TrimStartEmptyIff(s);
    var t := TrimStart(s);
    if t != "" {
      assert !IsSpace(t[0]);
    }
  }

  /** Helper: the leading trim is empty exactly when every character is white space. */
  lemma {:induction false} TrimStartEmptyIff(s: string)
    ensures TrimStart(s) == "" <==> forall i :: 0 <= i < |s| ==> IsSpace(s[i])
    decreases |s|
  {
    if |s| > 0 && IsSpace(s[0]) {
      TrimStartEmptyIff(s[1..]);
      assert forall i :: 0 <= i < |s[1..]| ==> s[1..][i] == s[i + 1];
    }
  }

  /** `s` is empty or all white space, so that `s.trim()` is empty. */
  predicate IsBlank(s: string)
    decreases |s|
  {
    |s| == 0 || (IsSpace(s[0]) && IsBlank(s[1..]))
  }

  /** The trim of a string is empty exactly when the string is blank. */
  lemma {:induction false} TrimEmptyIffBlank(s: string)
    ensures Trim(s) == "" <==> IsBlank(s)
    decreases |s|
  {
    if |s| > 0 {
      TrimEmptyIffBlank(s[1..]);
      assert forall i :: 0 <= i < |s[1..]| ==> s[1..][i] == s[i + 1];
    }
  }

  /** Trimming only removes characters: every character of the trim is one of `s`. */
  lemma TrimChars(s: string)
    ensures forall ch :: ch in Trim(s) ==> ch in s
  {
    var t := TrimStart(s);
    assert forall i :: 0 <= i < |t| ==> t[i] == s[|s| - |t| + i];
    assert forall i :: 0 <= i < |Trim(s)| ==> Trim(s)[i] == t[i];
  }

  /** A string whose ends are not white space is its own trim. */
  lemma TrimOfTrimmed(s: string)
    requires |s| > 0 ==> !IsSpace(s[0]) && !IsSpace(s[|s| - 1])
    ensures Trim(s) == s
  {
  }

  // ---------------------------------------------------------------------------
  // Splitting and joining on one separator character
  // ---------------------------------------------------------------------------

  /** The index of the first occurrence of `c` in `s`. */
  function IndexOf(s: string, c: char): (i: nat)
    requires c in s
    ensures i < |s| && s[i] == c && c !in s[..i]
  {
    if s[0] == c then 0 else assert c in s[1..]; 1 + IndexOf(s[1..], c)
  }

  /** `s.split(c)`: the maximal pieces between occurrences of `c`, so that
      `"".split(",")` is `[""]` and there is always at least one piece. */
  function Split(s: string, c: char): (r: seq<string>)
    ensures |r| >= 1
    ensures forall k :: 0 <= k < |r| ==> c !in r[k]
    decreases |s|
  {
    if c in s then
      var i := IndexOf(s, c);
      [s[..i]] + Split(s[i + 1..], c)
    else
      [s]
  }

  /** `xs.join(c)`. */
  function Join(xs: seq<string>, c: char): string
  {
    if |xs| == 0 then ""
    else if |xs| == 1 then xs[0]
    else xs[0] + [c] + Join(xs[1..], c)
  }

  /** Joining the pieces of a split gives back the original string. */
  lemma {:induction false} JoinSplit(s: string, c: char)
    ensures Join(Split(s, c), c) == s
    decreases |s|
  {
    if c in s {
      var i := IndexOf(s, c);
      var rest := Split(s[i + 1..], c);
      JoinSplit(s[i + 1..], c);
      assert Split(s, c) == [s[..i]] + rest;
      assert ([s[..i]] + rest)[1..] == rest;
      assert s == s[..i] + [c] + s[i + 1..];
    }
  }

  /** In `a + [c] + rest` with `c` not in `a`, the first `c` is the one after `a`. */
  lemma {:induction false} IndexOfAfter(a: string, c: char, rest: string)
    requires c !in a
    ensures c in a + [c] + rest && IndexOf(a + [c] + rest, c) == |a|
    decreases |a|
  {
    var s := a + [c] + rest;
    assert s[|a|] == c;
    if |a| > 0 {
      assert s[0] == a[0];
      assert s[1..] == a[1..] + [c] + rest;
      assert forall k :: 0 <= k < |a[1..]| ==> a[1..][k] == a[k + 1];
      IndexOfAfter(a[1..], c, rest);
    }
  }

  /** Splitting after a separator-free first piece peels that piece off. */
  lemma SplitCons(a: string, c: char, rest: string)
    requires c !in a
    ensures Split(a + [c] + rest, c) == [a] + Split(rest, c)
  {
    var s := a + [c] + rest;
    IndexOfAfter(a, c, rest);
    assert s[..|a|] == a;
    assert s[|a| + 1..] == rest;
  }

  /** Splitting a join of separator-free pieces gives back the pieces. */
  lemma {:induction false} SplitJoin(xs: seq<string>, c: char)
    requires |xs| >= 1
    requires forall k :: 0 <= k < |xs| ==> c !in xs[k]
    ensures Split(Join(xs, c), c) == xs
    decreases |xs|
  {
    if |xs| > 1 {
      var rest := Join(xs[1..], c);
      assert Join(xs, c) == xs[0] + [c] + rest;
      SplitCons(xs[0], c, rest);
      assert forall k :: 0 <= k < |xs[1..]| ==> xs[1..][k] == xs[k + 1];
      SplitJoin(xs[1..], c);
      assert xs == [xs[0]] + xs[1..];
    }
  }

  /** Splitting at a separator between two strings splits each side on its own:
      the pieces of `a`, then the pieces of `b`. */
  lemma {:induction false} SplitAppend(a: string, c: char, b: string)
    ensures Split(a + [c] + b, c) == Split(a, c) + Split(b, c)
    decreases |a|
  {
    if c in a {
      var i := IndexOf(a, c);
      var tail := a[i + 1..];
      assert a == a[..i] + [c] + tail;
      assert a + [c] + b == a[..i] + [c] + (tail + [c] + b);
      SplitCons(a[..i], c, tail + [c] + b);
      SplitAppend(tail, c, b);
    } else {
      SplitCons(a, c, b);
    }
  }

  // ---------------------------------------------------------------------------
  // Case mapping (ASCII letters) and white-space runs
  // ---------------------------------------------------------------------------

  function ToLowerChar(c: char): char {
    if 'A' <= c <= 'Z' then (c as int + 32) as char else c
  }

  function ToUpperChar(c: char): char {
    if 'a' <= c <= 'z' then (c as int - 32) as char else c
  }

  /** `s.toLowerCase()` on ASCII letters. */
  function ToLower(s: string): (r: string)
    ensures |r| == |s|
    ensures forall i :: 0 <= i < |s| ==> r[i] == ToLowerChar(s[i])
  {
    seq(|s|, i requires 0 <= i < |s| => ToLowerChar(s[i]))
  }

  /** `s.toUpperCase()` on ASCII letters. */
  function ToUpper(s: string): (r: string)
    ensures |r| == |s|
    ensures forall i :: 0 <= i < |s| ==> r[i] == ToUpperChar(s[i])
  {
    seq(|s|, i requires 0 <= i < |s| => ToUpperChar(s[i]))
  }

  /** Case-insensitive equality, the meaning of the anchored regex `^t$` with the `i` flag
      when `t` holds no regex metacharacters. */
  predicate EqualsIgnoreCase(a: string, b: string) {
    ToLower(a) == ToLower(b)
  }

  /** `s.replace(/\s+/g, '_')`: every maximal run of white space becomes one `_`. */
  function ReplaceSpaceRuns(s: string): (r: string)
    ensures NoSpace(r)
    ensures |r| <= |s|
    ensures NoSpace(s) ==> r == s
    decreases |s|
  {
    if |s| == 0 then ""
    else if IsSpace(s[0]) then
      var rest := TrimStart(s);
      "_" + ReplaceSpaceRuns(rest)
    else
      [s[0]] + ReplaceSpaceRuns(s[1..])
  }

  /** Dropping the leading white space of a run followed by a non-space
      character (or nothing) leaves exactly what follows the run. */
  lemma {:induction false} TrimStartOfRun(w: string, b: string)
    requires forall i :: 0 <= i < |w| ==> IsSpace(w[i])
    requires b == "" || !IsSpace(b[0])
    ensures TrimStart(w + b) == b
    decreases |w|
  {
    if |w| > 0 {
      assert (w + b)[1..] == w[1..] + b;
      TrimStartOfRun(w[1..], b);
    }
  }

  /** A maximal white-space run becomes exactly one `_`, and the characters
      before it are kept as they are. */
  lemma {:induction false} ReplaceSpaceRunsOfRun(a: string, w: string, b: string)
    requires NoSpace(a)
    requires |w| > 0 && forall i :: 0 <= i < |w| ==> IsSpace(w[i])
    requires b == "" || !IsSpace(b[0])
    ensures ReplaceSpaceRuns(a + w + b) == a + "_" + ReplaceSpaceRuns(b)
    decreases |a|
  {
    var s := a + w + b;
    if |a| == 0 {
      assert s == w + b;
      TrimStartOfRun(w, b);
    } else {
      assert s[0] == a[0];
      assert s[1..] == a[1..] + w + b;
      ReplaceSpaceRunsOfRun(a[1..], w, b);
      assert a == [a[0]] + a[1..];
    }
  }

  // ---------------------------------------------------------------------------
  // Substring search (the unanchored regex `q` with the `i` flag)
  // ---------------------------------------------------------------------------

  predicate IsPrefix(p: string, s: string) {
    |p| <= |s| && s[..|p|] == p
  }

  /** Does `needle` occur in `hay`? */
  predicate Contains(hay: string, needle: string)
    decreases |hay|
  {
    IsPrefix(needle, hay) || (|hay| > 0 && Contains(hay[1..], needle))
  }

  /** `needle` occurs in `hay` starting at index `i`. */
  ghost predicate OccursAt(hay: string, needle: string, i: int) {
    0 <= i && i + |needle| <= |hay| && hay[i..i + |needle|] == needle
  }

  /** `Contains` holds exactly when `needle` occurs at some index of `hay`. */
  lemma {:induction false} ContainsMeansOccurs(hay: string, needle: string)
    ensures Contains(hay, needle) <==> exists i :: OccursAt(hay, needle, i)
    decreases |hay|
  {
    if IsPrefix(needle, hay) {
      assert OccursAt(hay, needle, 0);
    }
    if |hay| > 0 {
      ContainsMeansOccurs(hay[1..], needle);
      if Contains(hay[1..], needle) {
        var i :| OccursAt(hay[1..], needle, i);
        assert hay[i + 1..i + 1 + |needle|] == hay[1..][i..i + |needle|];
        assert OccursAt(hay, needle, i + 1);
      }
      if exists i :: OccursAt(hay, needle, i) {
        var i :| OccursAt(hay, needle, i);
        if i > 0 {
          assert hay[1..][i - 1..i - 1 + |needle|] == hay[i..i + |needle|];
          assert OccursAt(hay[1..], needle, i - 1);
        }
      }
    }
  }

  /** Case-insensitive substring match. */
  predicate ContainsIgnoreCase(hay: string, needle: string) {
    Contains(ToLower(hay), ToLower(needle))
  }
}
