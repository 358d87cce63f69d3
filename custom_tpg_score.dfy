/**
 * The regional TPG score (`custom_tpg_score`): the distance component is
 * measured against a custom "world distance", it is averaged with the
 * beaten component, there is no rank bonus and no tie step, and an optional
 * flat score replaces everything for submissions within the 5K threshold.
 */
module CustomScoring {
  import opened Wrappers
  import opened Ranking

  /** Default world distance in kilometres. */
  const DefaultWorldDistanceKm: real := 20000.0
  /** Default flat 5K score. */
  const DefaultFivekScore: real := 7500.0
  /** Default 5K threshold in kilometres. */
  const DefaultFivekThresholdKm: real := 0.1

  /** `world_distance - distances`, clipped at zero unless `allow_negative`. */
  function WorldDistanceScore(d: real, worldDistance: real, allowNegative: bool): (r: real)
    ensures !allowNegative ==> 0.0 <= r
    ensures 0.0 <= d ==> r <= worldDistance || (r == 0.0 && worldDistance < 0.0)
    ensures d <= worldDistance || allowNegative ==> r == worldDistance - d
    ensures d > worldDistance && !allowNegative ==> r == 0.0
  {
    var raw := worldDistance - d;
    if !allowNegative && raw < 0.0 then 0.0 else raw
  }

  /** `if fivek_score:` — None and 0 are falsy. */
  predicate Truthy(x: Option<real>)
  {
    x.Some? && x.value != 0.0
  }

  /** Whether the flat 5K score replaces the computed score for a distance d.
      Comparing distances with a missing threshold selects nothing. */
  predicate FivekApplies(d: real, fivekScore: Option<real>, fivekThreshold: Option<real>)
  {
    Truthy(fivekScore) && fivekThreshold.Some? && d <= fivekThreshold.value
  }

  /** The 5K band is downward-closed: whatever is closer than a 5K is a 5K too. */
  lemma FivekAppliesDownward(x: real, y: real, fivekScore: Option<real>, fivekThreshold: Option<real>)
    requires x <= y && FivekApplies(y, fivekScore, fivekThreshold)
    ensures FivekApplies(x, fivekScore, fivekThreshold)
  {
  }

  /** Score of submission i of the round. */
  function CustomScoreAt(d: seq<real>, i: nat, worldDistance: real, fivekScore: Option<real>,
                         fivekThreshold: Option<real>, allowNegative: bool): (r: real)
    requires 2 <= |d| && i < |d|
    ensures FivekApplies(d[i], fivekScore, fivekThreshold) ==> r == fivekScore.value
    ensures !FivekApplies(d[i], fivekScore, fivekThreshold) && !allowNegative ==> 0.0 <= r
    ensures !FivekApplies(d[i], fivekScore, fivekThreshold) && 0.0 <= d[i] && 0.0 <= worldDistance ==>
              r <= (worldDistance + MaxBeatenScore) / 2.0
  {
    if FivekApplies(d[i], fivekScore, fivekThreshold) then fivekScore.value
    else (WorldDistanceScore(d[i], worldDistance, allowNegative) + BeatenScore(d, i)) / 2.0
  }

  /** `custom_tpg_score(distances, world_distance, fivek_score, fivek_threshold,
      allow_negative=...)` before its final `.round(2)`. */
  function CustomTpgScore(d: seq<real>, worldDistance: real, fivekScore: Option<real>,
                          fivekThreshold: Option<real>, allowNegative: bool): (r: seq<real>)
    requires 2 <= |d|
    ensures |r| == |d|
    ensures forall i :: 0 <= i < |d| && FivekApplies(d[i], fivekScore, fivekThreshold) ==>
              r[i] == fivekScore.value
    ensures forall i :: 0 <= i < |d| && !FivekApplies(d[i], fivekScore, fivekThreshold) ==>
              2.0 * r[i] == WorldDistanceScore(d[i], worldDistance, allowNegative)
                            + MaxBeatenScore * ((CountGreater(d, d[i]) as real) / ((|d| - 1) as real))
  {
    seq(|d|, i requires 0 <= i < |d| =>
      CustomScoreAt(d, i, worldDistance, fivekScore, fivekThreshold, allowNegative))
  }

  /** `custom_tpg_score(distances, allow_negative=...)` with every other
      parameter at its default: a 20000 km world distance and a flat 7500
      for submissions within 100 m. */
  function CustomTpgScoreDefaults(d: seq<real>, allowNegative: bool): (r: seq<real>)
    requires 2 <= |d|
    ensures |r| == |d|
    ensures forall i :: 0 <= i < |d| && d[i] <= 0.1 ==> r[i] == 7500.0
    ensures forall i :: 0 <= i < |d| && d[i] > 0.1 ==>
              2.0 * r[i] == WorldDistanceScore(d[i], 20000.0, allowNegative) + BeatenScore(d, i)
    ensures forall i :: 0 <= i < |d| && d[i] > 0.1 ==> r[i] <= 12500.0
    ensures !allowNegative ==> forall i :: 0 <= i < |d| ==> 0.0 <= r[i]
  {
    CustomTpgScore(d, DefaultWorldDistanceKm, Some(DefaultFivekScore), Some(DefaultFivekThresholdKm), allowNegative)
  }

  /** With the override disabled (`fivek_score` None or 0) every score is the
      plain average of the two components. */
  lemma CustomScoreNoOverride(d: seq<real>, worldDistance: real, fivekScore: Option<real>,
                              fivekThreshold: Option<real>, allowNegative: bool, i: nat)
    requires 2 <= |d| && i < |d| && !Truthy(fivekScore)
    ensures CustomTpgScore(d, worldDistance, fivekScore, fivekThreshold, allowNegative)[i]
            == (WorldDistanceScore(d[i], worldDistance, allowNegative) + BeatenScore(d, i)) / 2.0
  {
  }

  /** Tied submissions receive equal scores. */
  lemma CustomScoreTies(d: seq<real>, worldDistance: real, fivekScore: Option<real>,
                        fivekThreshold: Option<real>, allowNegative: bool, i: nat, j: nat)
    requires 2 <= |d| && i < |d| && j < |d| && d[i] == d[j]
    ensures CustomScoreAt(d, i, worldDistance, fivekScore, fivekThreshold, allowNegative)
            == CustomScoreAt(d, j, worldDistance, fivekScore, fivekThreshold, allowNegative)
  {
    assert PlayersBeaten(d, i) == PlayersBeaten(d, j);
  }

  /** Outside the 5K band, a closer submission never scores less; a farther
      one cannot be in the band when the closer one is not. */
  lemma CustomScoreMonotone(d: seq<real>, worldDistance: real, fivekScore: Option<real>,
                            fivekThreshold: Option<real>, allowNegative: bool, i: nat, j: nat)
    requires 2 <= |d| && i < |d| && j < |d| && d[i] < d[j]
    requires !FivekApplies(d[i], fivekScore, fivekThreshold)
    ensures !FivekApplies(d[j], fivekScore, fivekThreshold)
    ensures CustomScoreAt(d, i, worldDistance, fivekScore, fivekThreshold, allowNegative)
            >= CustomScoreAt(d, j, worldDistance, fivekScore, fivekThreshold, allowNegative)
  {
    BeatenScoreAntitone(d, i, j);
  }
}
