/**
 * The ranking primitives both TPG scorers are built on.  pandas'
 * `Series.rank(method='min')` and `rank(method='max')` over a round's
 * distances become counts over the sequence of distances:
 *   min-rank(i) = 1 + #{ j | d[j] <  d[i] }
 *   max-rank(i) =     #{ j | d[j] <= d[i] }
 * and the "players beaten" component is 5000 * beaten / (N - 1).
 */
module Ranking {

  /** Largest value of the "players beaten" component. */
  const MaxBeatenScore: real := 5000.0

  /** Number of distances strictly less than x. */
  function CountLess(d: seq<real>, x: real): (c: nat)
    ensures c <= |d|
  {
    if d == [] then 0 else CountLess(d[..|d| - 1], x) + (if d[|d| - 1] < x then 1 else 0)
  }

  /** Number of distances less than or equal to x. */
  function CountAtMost(d: seq<real>, x: real): (c: nat)
    ensures c <= |d|
  {
    if d == [] then 0 else CountAtMost(d[..|d| - 1], x) + (if d[|d| - 1] <= x then 1 else 0)
  }

  /** Number of distances strictly greater than x. */
  function CountGreater(d: seq<real>, x: real): (c: nat)
    ensures c <= |d|
  {
    if d == [] then 0 else CountGreater(d[..|d| - 1], x) + (if d[|d| - 1] > x then 1 else 0)
  }

  /** Every distance is either at most x or greater than x. */
  lemma {:induction false} CountAtMostPlusGreater(d: seq<real>, x: real)
    ensures CountAtMost(d, x) + CountGreater(d, x) == |d|
  {
    if d != [] {
      CountAtMostPlusGreater(d[..|d| - 1], x);
    }
  }

  /** A distance that occurs in d is counted at-most but not strictly-below itself. */
  lemma {:induction false} CountLessOfMember(d: seq<real>, i: nat)
    requires i < |d|
    ensures CountLess(d, d[i]) < CountAtMost(d, d[i])
  {
    var last := |d| - 1;
    if i < last {
      CountLessOfMember(d[..last], i);
    } else {
      CountLessAtMost(d[..last], d[i]);
    }
  }

  /** Raising the threshold never lowers the count below it. */
  lemma {:induction false} CountLessMonotone(d: seq<real>, x: real, y: real)
    requires x <= y
    ensures CountLess(d, x) <= CountLess(d, y)
  {
    if d != [] {
      CountLessMonotone(d[..|d| - 1], x, y);
    }
  }

  /** Raising the threshold never raises the count above it. */
  lemma {:induction false} CountGreaterAntitone(d: seq<real>, x: real, y: real)
    requires x <= y
    ensures CountGreater(d, x) >= CountGreater(d, y)
  {
    if d != [] {
      CountGreaterAntitone(d[..|d| - 1], x, y);
    }
  }

  /** When d[i] < y, d[i] itself is counted below y but not below d[i]. */
  lemma {:induction false} CountLessStrict(d: seq<real>, i: nat, y: real)
    requires i < |d| && d[i] < y
    ensures CountLess(d, d[i]) < CountLess(d, y)
  {
    var last := |d| - 1;
    if i < last {
      CountLessStrict(d[..last], i, y);
    } else {
      CountLessMonotone(d[..last], d[i], y);
    }
  }

  /** pandas `rank(method='min', ascending=True)`: competition ranking, 1 = closest. */
  function MinRank(d: seq<real>, i: nat): (r: nat)
    requires i < |d|
    ensures 1 <= r <= |d|
  {
    CountLessOfMember(d, i);
    1 + CountLess(d, d[i])
  }

  /** pandas `rank(method='max', ascending=True)`. */
  function MaxRank(d: seq<real>, i: nat): (r: nat)
    requires i < |d|
    ensures MinRank(d, i) <= r <= |d|
  {
    CountLessOfMember(d, i);
    CountAtMost(d, d[i])
  }

  /** Every distance below x is at most x. */
  lemma {:induction false} CountLessAtMost(d: seq<real>, x: real)
    ensures CountLess(d, x) <= CountAtMost(d, x)
  {
    if d != [] {
      CountLessAtMost(d[..|d| - 1], x);
    }
  }

  /** `distances.size - distances.rank(method='max')`. */
  function PlayersBeaten(d: seq<real>, i: nat): (b: nat)
    requires i < |d|
    ensures b == CountGreater(d, d[i])
    ensures b <= |d| - 1
  {
    CountAtMostPlusGreater(d, d[i]);
    |d| - MaxRank(d, i)
  }

  /** `5000 * (players_beaten / (distances.size - 1))`; the division needs two submissions. */
  function BeatenScore(d: seq<real>, i: nat): (r: real)
    requires 2 <= |d| && i < |d|
    ensures 0.0 <= r <= MaxBeatenScore
    ensures r == MaxBeatenScore <==> CountGreater(d, d[i]) == |d| - 1
    ensures r == 0.0 <==> CountGreater(d, d[i]) == 0
  {
    var b := PlayersBeaten(d, i) as real;
    var n1 := (|d| - 1) as real;
    FractionBounds(b, n1);
    MaxBeatenScore * (b / n1)
  }

  /** Equal distances share a min-rank, and a shared min-rank means equal distances,
      so grouping by min-rank is grouping by distance. */
  lemma MinRankTies(d: seq<real>, i: nat, j: nat)
    requires i < |d| && j < |d|
    ensures MinRank(d, i) == MinRank(d, j) <==> d[i] == d[j]
  {
    if d[i] < d[j] {
      CountLessStrict(d, i, d[j]);
    } else if d[j] < d[i] {
      CountLessStrict(d, j, d[i]);
    }
  }

  /** A strictly closer submission has a strictly better min-rank. */
  lemma MinRankStrict(d: seq<real>, i: nat, j: nat)
    requires i < |d| && j < |d| && d[i] < d[j]
    ensures MinRank(d, i) < MinRank(d, j)
  {
    CountLessStrict(d, i, d[j]);
  }

  /** A closer submission beats at least as many players, so its beaten component is no smaller. */
  lemma BeatenScoreAntitone(d: seq<real>, i: nat, j: nat)
    requires 2 <= |d| && i < |d| && j < |d| && d[i] <= d[j]
    ensures PlayersBeaten(d, i) >= PlayersBeaten(d, j)
    ensures BeatenScore(d, i) >= BeatenScore(d, j)
  {
    CountGreaterAntitone(d, d[i], d[j]);
    DivideMonotone(PlayersBeaten(d, j) as real, PlayersBeaten(d, i) as real, (|d| - 1) as real);
  }

  /** For 0 <= b <= n, the fraction b / n lies in [0, 1], touching 1 exactly at b == n. */
  lemma FractionBounds(b: real, n: real)
    requires 0.0 <= b <= n && 0.0 < n
    ensures 0.0 <= b / n <= 1.0
    ensures b / n == 1.0 <==> b == n
    ensures b / n == 0.0 <==> b == 0.0
  {
    var q := b / n;
    assert q * n == b;
  }

  /** Dividing by a positive constant keeps order. */
  lemma DivideMonotone(a: real, b: real, n: real)
    requires a <= b && 0.0 < n
    ensures a / n <= b / n
  {
    var qa, qb := a / n, b / n;
    assert qa * n == a && qb * n == b;
  }
}
