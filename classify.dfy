/** The decision taken for a compared pair (tools/compare_latest_pair.py,
    lines 11-12 and 86-87): whether the page changed, and which zone to name. */
module Classify {
  import opened Zones

  /** `SSIM_THRESHOLD` and `PHASH_THRESHOLD`, read once from the environment. */
  datatype Thresholds = Thresholds(ssim: real, phash: int)

  /** The values used when the environment sets neither variable. */
  const DefaultThresholds := Thresholds(0.985, 8)

  /** A pair is flagged when its structural similarity falls below the SSIM
      threshold or its perceptual-hash distance exceeds the hash threshold. */
  predicate Changed(t: Thresholds, score: real, pdelta: int) {
    score < t.ssim || pdelta > t.phash
  }

  /** Lower similarity and larger hash distance never clear a flag. */
  lemma ChangedMonotone(t: Thresholds, score: real, pdelta: int, score': real, pdelta': int)
    requires Changed(t, score, pdelta) && score' <= score && pdelta' >= pdelta
    ensures Changed(t, score', pdelta')
  {
  }

  /** Both comparisons are strict: a pair sitting exactly on both thresholds is
      not flagged, and neither is a pair of identical captures. */
  lemma ThresholdsAreStrict(t: Thresholds)
    ensures !Changed(t, t.ssim, t.phash)
    ensures !Changed(DefaultThresholds, 1.0, 0)
  {
  }

  /** The `likely_zone` column: empty exactly when the pair is not flagged,
      otherwise the zone `guess_zone` reports for the difference map. */
  function ZoneLabel(t: Thresholds, score: real, pdelta: int, norm: seq<seq<int>>): (col: string)
    requires IsGray(norm)
    ensures col == "" <==> !Changed(t, score, pdelta)
    ensures Changed(t, score, pdelta) ==> col == ZoneName(GuessZone(norm))
    ensures col in {"", "top", "middle", "bottom"}
  {
    if Changed(t, score, pdelta) then GuessZoneName(norm) else ""
  }
}
