/** The colour the product list gives a score (`score_color`): green above 80,
    amber above 50, red otherwise. */
module ScoreBanding {

  /** The three colour bands, from worst to best. */
  datatype Band = Red | Amber | Green {

    /** The CSS colour the band is drawn in. */
    function Hex(): string {
      match this
      case Green => "#A4B782"
      case Amber => "#E3C271"
      case Red => "#BE5D5D"
    }

    /** The band's position in the order red < amber < green. */
    function Rank(): nat {
      match this
      case Red => 0
      case Amber => 1
      case Green => 2
    }
  }

  /** The lowest score drawn amber and the lowest drawn green are one above these. */
  const AmberAbove := 50
  const GreenAbove := 80

  /** The band of a score: the first threshold it is strictly above. */
  function ScoreBand(score: int): (b: Band)
    ensures b == Green <==> score > GreenAbove
    ensures b == Amber <==> AmberAbove < score <= GreenAbove
    ensures b == Red <==> score <= AmberAbove
  {
    if score > GreenAbove then Green
    else if score > AmberAbove then Amber
    else Red
  }

  /** `score_color(score)`. */
  function ScoreColor(score: int): (c: string)
    ensures c == ScoreBand(score).Hex()
    ensures c in {"#A4B782", "#E3C271", "#BE5D5D"}
  {
    if score > 80 then "#A4B782"
    else if score > 50 then "#E3C271"
    else "#BE5D5D"
  }

  /** A higher score never gets a worse colour. */
  lemma BandMonotone(a: int, b: int)
    requires a <= b
    ensures ScoreBand(a).Rank() <= ScoreBand(b).Rank()
  {
  }

  /** The colours are distinct, so the colour drawn tells the band back. */
  lemma ColorDeterminesBand(a: int, b: int)
    ensures ScoreColor(a) == ScoreColor(b) <==> ScoreBand(a) == ScoreBand(b)
  {
    var ha, hb := ScoreBand(a).Hex(), ScoreBand(b).Hex();
    if ScoreBand(a) != ScoreBand(b) {
      assert ha[1] != hb[1] || ha[2] != hb[2];
    }
  }

  /** The boundaries: 80 is still amber and 81 green; 50 is still red and 51 amber. */
  lemma Boundaries()
    ensures ScoreColor(80) == "#E3C271" && ScoreColor(81) == "#A4B782"
    ensures ScoreColor(50) == "#BE5D5D" && ScoreColor(51) == "#E3C271"
  {
  }
}
