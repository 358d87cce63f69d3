/**
 * The main TPG round score (`tpg_score`).  For each submission of a round,
 * given its distance to the target in kilometres, the score is
 *   distance component  0.25 * (20000 - d), floored at 0 unless negatives are allowed
 * + beaten component    5000 * (players strictly farther) / (N - 1)
 * + bonus               3000 / 2000 / 1000 for min-rank 1 / 2 / 3, replaced by 5000 for d <= 0.1
 * and is overwritten by a flat 5000 for an antipode (d >= 19995).  Finally
 * every group of tied distances receives the mean of the group's scores.
 */
module TpgScoring {
  import opened Ranking

  /** Kilometres treated as "the whole world" by the distance component. */
  const WorldDistanceKm: real := 20000.0
  /** A submission at most this many kilometres away is a 5K. */
  const FivekThresholdKm: real := 0.1
  /** A submission at least this many kilometres away is an antipode 5K. */
  const AntipodeThresholdKm: real := 19995.0
  /** Flat value of the 5K bonus and of the antipode override. */
  const FivekScore: real := 5000.0

  /** `0.25 * (20_000 - distances)`, clipped at zero unless `allow_negative`. */
  function DistanceScore(d: real, allowNegative: bool): (r: real)
    ensures !allowNegative ==> 0.0 <= r
    ensures 0.0 <= d ==> r <= 5000.0
    ensures d <= WorldDistanceKm || allowNegative ==> r == 0.25 * (WorldDistanceKm - d)
    ensures d > WorldDistanceKm && !allowNegative ==> r == 0.0
  {
    var raw := 0.25 * (WorldDistanceKm - d);
    if !allowNegative && raw < 0.0 then 0.0 else raw
  }

  /** Being closer never lowers the distance component. */
  lemma DistanceScoreAntitone(x: real, y: real, allowNegative: bool)
    requires x <= y
    ensures DistanceScore(x, allowNegative) >= DistanceScore(y, allowNegative)
  {
  }

  /** `distance_ranks.map({1: 3000, 2: 2000, 3: 1000})` followed by `fillna(0)`. */
  function RankBonus(rank: int): (r: real)
    ensures 0.0 <= r <= 3000.0
    ensures r > 0.0 <==> 1 <= rank <= 3
  {
    if rank == 1 then 3000.0
    else if rank == 2 then 2000.0
    else if rank == 3 then 1000.0
    else 0.0
  }

  /** A better (smaller) rank never earns a smaller bonus. */
  lemma RankBonusAntitone(a: int, b: int)
    requires 1 <= a <= b
    ensures RankBonus(a) >= RankBonus(b)
  {
  }

  /** The bonus of submission i: a 5K (d <= 0.1) replaces its rank bonus by 5000. */
  function Bonus(d: seq<real>, i: nat): (r: real)
    requires i < |d|
    ensures 0.0 <= r <= FivekScore
    ensures r == FivekScore <==> d[i] <= FivekThresholdKm
    ensures d[i] > FivekThresholdKm ==> r == RankBonus(MinRank(d, i))
  {
    if d[i] <= FivekThresholdKm then FivekScore else RankBonus(MinRank(d, i))
  }

  /** Score of submission i before ties are averaged. */
  function ComponentScore(d: seq<real>, allowNegative: bool, i: nat): (r: real)
    requires 2 <= |d| && i < |d|
    ensures d[i] >= AntipodeThresholdKm ==> r == FivekScore
    ensures !allowNegative ==> 0.0 <= r
    ensures 0.0 <= d[i] ==> r <= 15000.0
  {
    if d[i] >= AntipodeThresholdKm then FivekScore
    else DistanceScore(d[i], allowNegative) + BeatenScore(d, i) + Bonus(d, i)
  }

  /** All component scores of a round, in submission order: tied distances
      score alike, antipodes score 5000, nobody scores below 0 unless negatives
      are allowed, and below the antipode threshold closer never scores less. */
  function Components(d: seq<real>, allowNegative: bool): (c: seq<real>)
    requires 2 <= |d|
    ensures |c| == |d|
    ensures forall i :: 0 <= i < |d| ==> c[i] == ComponentScore(d, allowNegative, i)
    ensures forall i, j :: 0 <= i < |d| && 0 <= j < |d| && d[i] == d[j] ==> c[i] == c[j]
    ensures forall i :: 0 <= i < |d| && d[i] >= AntipodeThresholdKm ==> c[i] == FivekScore
    ensures forall i :: 0 <= i < |d| && !allowNegative ==> 0.0 <= c[i]
    ensures forall i, j :: 0 <= i < |d| && 0 <= j < |d| && d[i] < d[j] < AntipodeThresholdKm ==> c[i] >= c[j]
  {
    ComponentsShape(d, allowNegative);
    seq(|d|, i requires 0 <= i < |d| => ComponentScore(d, allowNegative, i))
  }

  /** Ties and order of the component scores over all pairs of submissions. */
  lemma ComponentsShape(d: seq<real>, allowNegative: bool)
    requires 2 <= |d|
    ensures forall i, j :: 0 <= i < |d| && 0 <= j < |d| && d[i] == d[j] ==>
              ComponentScore(d, allowNegative, i) == ComponentScore(d, allowNegative, j)
    ensures forall i, j :: 0 <= i < |d| && 0 <= j < |d| && d[i] < d[j] < AntipodeThresholdKm ==>
              ComponentScore(d, allowNegative, i) >= ComponentScore(d, allowNegative, j)
  {
    forall i, j | 0 <= i < |d| && 0 <= j < |d| && d[i] == d[j]
      ensures ComponentScore(d, allowNegative, i) == ComponentScore(d, allowNegative, j)
    {
      TpgScoreTies(d, allowNegative, i, j);
    }
    forall i, j | 0 <= i < |d| && 0 <= j < |d| && d[i] < d[j] < AntipodeThresholdKm
      ensures ComponentScore(d, allowNegative, i) >= ComponentScore(d, allowNegative, j)
    {
      TpgScoreMonotone(d, allowNegative, i, j);
    }
  }

  /** Sum of s[j] over the submissions j whose group key is x. */
  function GroupTotal<K(==)>(s: seq<real>, keys: seq<K>, x: K): real
    requires |s| == |keys|
  {
    if keys == [] then 0.0
    else GroupTotal(s[..|s| - 1], keys[..|keys| - 1], x) + (if keys[|keys| - 1] == x then s[|s| - 1] else 0.0)
  }

  /** Number of submissions whose group key is x. */
  function GroupSize<K(==)>(keys: seq<K>, x: K): nat
  {
    if keys == [] then 0 else GroupSize(keys[..|keys| - 1], x) + (if keys[|keys| - 1] == x then 1 else 0)
  }

  /** A key that occurs in keys forms a non-empty group. */
  lemma {:induction false} GroupSizeOfMember<K>(keys: seq<K>, x: K)
    requires x in keys
    ensures GroupSize(keys, x) >= 1
  {
    var last := |keys| - 1;
    if keys[last] != x {
      assert x in keys[..last] by {
        var k :| 0 <= k < |keys| && keys[k] == x;
        assert keys[..last][k] == x;
      }
      GroupSizeOfMember(keys[..last], x);
    }
  }

  /** `group.mean()` for the group of submission i. */
  function GroupMean<K(==)>(s: seq<real>, keys: seq<K>, i: nat): real
    requires |s| == |keys| && i < |keys|
  {
    GroupSizeOfMember(keys, keys[i]);
    GroupTotal(s, keys, keys[i]) / (GroupSize(keys, keys[i]) as real)
  }

  /** When every member of a group carries the same value v, the group total is size * v. */
  lemma {:induction false} GroupTotalUniform<K>(s: seq<real>, keys: seq<K>, x: K, v: real)
    requires |s| == |keys|
    requires forall j :: 0 <= j < |keys| && keys[j] == x ==> s[j] == v
    ensures GroupTotal(s, keys, x) == (GroupSize(keys, x) as real) * v
  {
    if keys != [] {
      GroupTotalUniform(s[..|s| - 1], keys[..|keys| - 1], x, v);
    }
  }

  /** A group whose members all carry s[i] has mean s[i]. */
  lemma MeanOfUniformGroup<K>(s: seq<real>, keys: seq<K>, i: nat)
    requires |s| == |keys| && i < |keys|
    requires forall j :: 0 <= j < |keys| && keys[j] == keys[i] ==> s[j] == s[i]
    ensures GroupMean(s, keys, i) == s[i]
  {
    GroupTotalUniform(s, keys, keys[i], s[i]);
    GroupSizeOfMember(keys, keys[i]);
    MeanOfCopies(GroupTotal(s, keys, keys[i]), GroupSize(keys, keys[i]) as real, s[i]);
  }

  /** n copies of v average to v. */
  lemma MeanOfCopies(total: real, n: real, v: real)
    requires 0.0 < n && total == n * v
    ensures total / n == v
  {
  }

  /** `distances.rank(method='min')` for the whole round: ranks run from 1 to
      N and order the submissions exactly as their distances do, ties included. */
  function MinRanks(d: seq<real>): (ranks: seq<nat>)
    ensures |ranks| == |d|
    ensures forall i :: 0 <= i < |d| ==> ranks[i] == MinRank(d, i)
    ensures forall i :: 0 <= i < |d| ==> 1 <= ranks[i] <= |d|
    ensures forall i, j :: 0 <= i < |d| && 0 <= j < |d| ==> (ranks[i] < ranks[j] <==> d[i] < d[j])
    ensures forall i, j :: 0 <= i < |d| && 0 <= j < |d| ==> (ranks[i] == ranks[j] <==> d[i] == d[j])
  {
    MinRanksOrder(d);
    seq(|d|, i requires 0 <= i < |d| => MinRank(d, i))
  }

  /** Min-ranks compare as the distances do, over all pairs of submissions. */
  lemma MinRanksOrder(d: seq<real>)
    ensures forall i, j :: 0 <= i < |d| && 0 <= j < |d| ==> (MinRank(d, i) < MinRank(d, j) <==> d[i] < d[j])
    ensures forall i, j :: 0 <= i < |d| && 0 <= j < |d| ==> (MinRank(d, i) == MinRank(d, j) <==> d[i] == d[j])
  {
    forall i, j | 0 <= i < |d| && 0 <= j < |d|
      ensures MinRank(d, i) < MinRank(d, j) <==> d[i] < d[j]
      ensures MinRank(d, i) == MinRank(d, j) <==> d[i] == d[j]
    {
      MinRankTies(d, i, j);
      if d[i] < d[j] {
        MinRankStrict(d, i, j);
      } else if d[j] < d[i] {
        MinRankStrict(d, j, i);
      }
    }
  }

  /** Tied submissions are scored identically and share their min-rank. */
  lemma TpgScoreTies(d: seq<real>, allowNegative: bool, i: nat, j: nat)
    requires 2 <= |d| && i < |d| && j < |d| && d[i] == d[j]
    ensures ComponentScore(d, allowNegative, i) == ComponentScore(d, allowNegative, j)
    ensures MinRank(d, i) == MinRank(d, j)
  {
    assert CountGreater(d, d[i]) == CountGreater(d, d[j]);
  }

  /** Component scores are constant on every group of equal min-rank. */
  lemma ComponentsUniformOnTies(d: seq<real>, allowNegative: bool, i: nat)
    requires 2 <= |d| && i < |d|
    ensures forall j :: 0 <= j < |d| && MinRanks(d)[j] == MinRanks(d)[i] ==>
              Components(d, allowNegative)[j] == Components(d, allowNegative)[i]
  {
    forall j | 0 <= j < |d| && MinRank(d, j) == MinRank(d, i)
      ensures ComponentScore(d, allowNegative, j) == ComponentScore(d, allowNegative, i)
    {
      MinRankTies(d, i, j);
      TpgScoreTies(d, allowNegative, i, j);
    }
  }

  /** The tie-averaging step changes nothing: the mean of a tie group of
      component scores is each member's own component score. */
  lemma TieMeanIsComponent(d: seq<real>, allowNegative: bool, i: nat)
    requires 2 <= |d| && i < |d|
    ensures GroupMean(Components(d, allowNegative), MinRanks(d), i) == ComponentScore(d, allowNegative, i)
  {
    ComponentsUniformOnTies(d, allowNegative, i);
    MeanOfUniformGroup(Components(d, allowNegative), MinRanks(d), i);
  }

  /** `allow_negative` never changes a score: a distance component can only be
      negative beyond 20000 km, and every such submission is an antipode that
      scores 5000 either way.  So the default `allow_negative=False` and an
      explicit `True` give the same pre-tie scores. */
  lemma AllowNegativeNoEffect(d: seq<real>)
    requires 2 <= |d|
    ensures Components(d, true) == Components(d, false)
  {
    forall i | 0 <= i < |d|
      ensures Components(d, true)[i] == Components(d, false)[i]
    {
      assert d[i] < AntipodeThresholdKm ==> DistanceScore(d[i], true) == DistanceScore(d[i], false);
    }
  }

  /** Below the antipode threshold, a closer submission never scores less. */
  lemma TpgScoreMonotone(d: seq<real>, allowNegative: bool, i: nat, j: nat)
    requires 2 <= |d| && i < |d| && j < |d|
    requires d[i] < d[j] < AntipodeThresholdKm
    ensures ComponentScore(d, allowNegative, i) >= ComponentScore(d, allowNegative, j)
  {
    DistanceScoreAntitone(d[i], d[j], allowNegative);
    BeatenScoreAntitone(d, i, j);
    if d[i] > FivekThresholdKm {
      MinRankStrict(d, i, j);
      RankBonusAntitone(MinRank(d, i), MinRank(d, j));
    }
  }

  /**
   * `for _, group in scores.groupby(keys, sort=False): scores.loc[group.index] = group.mean()`.
   * Groups are visited in order of first appearance; each is summed over the
   * scores as they stand, which are still the original ones since groups are disjoint.
   */
  method AverageTies<K(==)>(s: array<real>, keys: seq<K>)
    requires s.Length == |keys|
    modifies s
    ensures forall k :: 0 <= k < s.Length ==> s[k] == GroupMean(old(s[..]), keys, k)
  {
    ghost var pre := s[..];
    var n := s.Length;
    var g := 0;
    while g < n
      invariant 0 <= g <= n
      invariant forall k :: 0 <= k < n && keys[k] in keys[..g] ==> s[k] == GroupMean(pre, keys, k)
      invariant forall k :: 0 <= k < n && keys[k] !in keys[..g] ==> s[k] == pre[k]
    {
      assert keys[..g + 1] == keys[..g] + [keys[g]];
      if keys[g] !in keys[..g] {
        var mean := GroupMeanOf(s, keys, g, pre);
        ghost var before := s[..];
        var j := 0;
        while j < n
          invariant 0 <= j <= n
          invariant forall k :: 0 <= k < j && keys[k] == keys[g] ==> s[k] == mean
          invariant forall k :: 0 <= k < n && (j <= k || keys[k] != keys[g]) ==> s[k] == before[k]
        {
          if keys[j] == keys[g] {
            s[j] := mean;
          }
          j := j + 1;
        }
      }
      g := g + 1;
    }
    assert keys[..n] == keys;
  }

  /** `group.mean()`: sums the group of submission g in one pass over the scores. */
  method GroupMeanOf<K(==)>(s: array<real>, keys: seq<K>, g: nat, ghost pre: seq<real>) returns (mean: real)
    requires s.Length == |keys| == |pre| && g < |keys|
    requires forall k :: 0 <= k < |keys| && keys[k] == keys[g] ==> s[k] == pre[k]
    ensures mean == GroupMean(pre, keys, g)
  {
    var n := s.Length;
    var total, count := 0.0, 0;
    var j := 0;
    while j < n
      invariant 0 <= j <= n
      invariant total == GroupTotal(pre[..j], keys[..j], keys[g])
      invariant count == GroupSize(keys[..j], keys[g])
    {
      assert pre[..j + 1] == pre[..j] + [pre[j]];
      assert keys[..j + 1] == keys[..j] + [keys[j]];
      if keys[j] == keys[g] {
        total, count := total + s[j], count + 1;
      }
      j := j + 1;
    }
    assert pre[..n] == pre && keys[..n] == keys;
    GroupSizeOfMember(keys, keys[g]);
    mean := total / (count as real);
  }

  /**
   * `tpg_score(distances, allow_negative=...)` before its final `.round(2)`.
   * The vectorised pandas statements are parallel array updates; the tie
   * step groups by min-rank.
   */
  method TpgScore(distances: seq<real>, allowNegative: bool) returns (scores: seq<real>)
    requires 2 <= |distances|
    ensures |scores| == |distances|
    ensures forall i :: 0 <= i < |distances| ==>
              scores[i] == GroupMean(Components(distances, allowNegative), MinRanks(distances), i)
    ensures forall i :: 0 <= i < |distances| ==> scores[i] == ComponentScore(distances, allowNegative, i)
  {
    var s := ScoreComponents(distances, allowNegative);
    assert s[..] == Components(distances, allowNegative);
    var ranks := MinRanks(distances);
    AverageTies(s, ranks);
    scores := s[..];
    forall i | 0 <= i < |distances|
      ensures scores[i] == ComponentScore(distances, allowNegative, i)
    {
      TieMeanIsComponent(distances, allowNegative, i);
    }
  }

  /** Lines 25-37 of `tpg_score`: the score series before the tie step. */
  method ScoreComponents(distances: seq<real>, allowNegative: bool) returns (s: array<real>)
    requires 2 <= |distances|
    ensures fresh(s) && s.Length == |distances|
    ensures forall k :: 0 <= k < s.Length ==> s[k] == ComponentScore(distances, allowNegative, k)
  {
    var n := |distances|;
    s := new real[n];
    forall k | 0 <= k < n {
      s[k] := DistanceScore(distances[k], allowNegative) + BeatenScore(distances, k);
    }
    var bonus := new real[n];
    forall k | 0 <= k < n {
      bonus[k] := RankBonus(MinRank(distances, k));
    }
    forall k | 0 <= k < n && distances[k] <= FivekThresholdKm {
      bonus[k] := FivekScore;
    }
    forall k | 0 <= k < n {
      s[k] := s[k] + bonus[k];
    }
    forall k | 0 <= k < n && distances[k] >= AntipodeThresholdKm {
      s[k] := FivekScore;
    }
  }
}
