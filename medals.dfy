/**
 * Season medal tally (`Medal`, `count_medals`): every player's podium medals
 * are counted per type and weighted into a "Medal Score" (Gold 3, Silver 2,
 * Bronze 1), one row per player, sorted by Medal Score, highest first.
 */
module Medals {

  /** `Medal(IntEnum)`: a podium medal and the points it is worth. */
  datatype Medal = Gold | Silver | Bronze
  {
    function Value(): (v: nat)
      ensures this == Gold <==> v == 3
      ensures this == Silver <==> v == 2
      ensures this == Bronze <==> v == 1
    {
      match this
      case Gold => 3
      case Silver => 2
      case Bronze => 1
    }
  }

  /** How many times m occurs in ms. */
  function Count(ms: seq<Medal>, m: Medal): (c: nat)
    ensures c <= |ms|
  {
    if ms == [] then 0 else Count(ms[..|ms| - 1], m) + (if ms[|ms| - 1] == m then 1 else 0)
  }

  /** `sum(player_medals)`: the medals' values added up; every medal is worth
      between 1 and 3 points. */
  function Points(ms: seq<Medal>): (p: nat)
    ensures |ms| <= p <= 3 * |ms|
  {
    if ms == [] then 0 else Points(ms[..|ms| - 1]) + ms[|ms| - 1].Value()
  }

  /** A player's Medal Score is 3 per Gold, 2 per Silver and 1 per Bronze. */
  lemma {:induction false} PointsWeighted(ms: seq<Medal>)
    ensures Points(ms) == 3 * Count(ms, Gold) + 2 * Count(ms, Silver) + Count(ms, Bronze)
  {
    if ms != [] {
      PointsWeighted(ms[..|ms| - 1]);
    }
  }

  /** Every medal is of exactly one type, so the per-type counts add up to all medals. */
  lemma {:induction false} CountsTotal(ms: seq<Medal>)
    ensures Count(ms, Gold) + Count(ms, Silver) + Count(ms, Bronze) == |ms|
  {
    if ms != [] {
      CountsTotal(ms[..|ms| - 1]);
    }
  }

  /** One row of the medal table: the player (the index) and its columns.
      `ScoreOnly` is a row whose three medal cells are NaN. */
  datatype MedalRow =
    | MedalRow(player: string, gold: nat, silver: nat, bronze: nat, medalScore: nat)
    | ScoreOnly(player: string, medalScore: nat)

  /** The row a player's medals should produce. */
  function Tally(player: string, ms: seq<Medal>): (r: MedalRow)
    ensures r.MedalRow? && r.player == player
    ensures r.medalScore == 3 * r.gold + 2 * r.silver + r.bronze
    ensures r.gold + r.silver + r.bronze == |ms|
  {
    PointsWeighted(ms);
    CountsTotal(ms);
    MedalRow(player, Count(ms, Gold), Count(ms, Silver), Count(ms, Bronze), Points(ms))
  }

  /** `Counter(player_medals)`: the medals that occur, each with its count. */
  method CountEach(ms: seq<Medal>) returns (counter: map<Medal, nat>)
    ensures forall m :: m in counter <==> Count(ms, m) > 0
    ensures forall m :: m in counter ==> counter[m] == Count(ms, m)
  {
    counter := map[];
    var k := 0;
    while k < |ms|
      invariant 0 <= k <= |ms|
      invariant forall m :: m in counter <==> Count(ms[..k], m) > 0
      invariant forall m :: m in counter ==> counter[m] == Count(ms[..k], m)
    {
      assert ms[..k + 1][..k] == ms[..k];
      var m := ms[k];
      counter := counter[m := (if m in counter then counter[m] else 0) + 1];
      k := k + 1;
    }
    assert ms[..k] == ms;
  }

  /** `df.fillna(0)` for one cell: a player missing from a medal's column has 0 of it. */
  function CountOrZero(column: map<string, nat>, player: string): nat
  {
    if player in column then column[player] else 0
  }

  predicate NonIncreasing(rows: seq<MedalRow>)
  {
    forall i, j :: 0 <= i < j < |rows| ==> rows[i].medalScore >= rows[j].medalScore
  }

  predicate DistinctPlayers(rows: seq<MedalRow>)
  {
    forall i, j :: 0 <= i < j < |rows| ==> rows[i].player != rows[j].player
  }

  /** One medal's column once the players in `done` have been recorded: it holds
      exactly the recorded players who won m at least once, with their count. */
  predicate ColumnTallied(medals: map<string, seq<Medal>>, done: set<string>, column: map<string, nat>, m: Medal)
    requires done <= medals.Keys
  {
    && (forall p :: p in column ==> p in done && column[p] == Count(medals[p], m) > 0)
    && (forall p :: p in done && Count(medals[p], m) > 0 ==> p in column)
  }

  /** `points` once the players in `done` have been recorded: each has their medals' sum. */
  predicate PointsTallied(medals: map<string, seq<Medal>>, done: set<string>, points: map<string, nat>)
    requires done <= medals.Keys
  {
    points.Keys == done && forall p :: p in points ==> points[p] == Points(medals[p])
  }

  /** `counts` and `points` once the players in `done` have been recorded:
      every column is tallied and every recorded player has their points. */
  predicate Tallied(medals: map<string, seq<Medal>>, done: set<string>,
                    counts: map<Medal, map<string, nat>>, points: map<string, nat>)
  {
    && done <= medals.Keys
    && counts.Keys == {Gold, Silver, Bronze}
    && PointsTallied(medals, done, points)
    && ColumnTallied(medals, done, counts[Gold], Gold)
    && ColumnTallied(medals, done, counts[Silver], Silver)
    && ColumnTallied(medals, done, counts[Bronze], Bronze)
  }

  /** `counts[medal.name][player_name] = count` for every medal in the player's
      counter: the same columns, each updated for p alone. */
  function Record(counts: map<Medal, map<string, nat>>, p: string, counter: map<Medal, nat>)
    : (r: map<Medal, map<string, nat>>)
    ensures r.Keys == counts.Keys
    ensures forall m :: m in counts && m in counter ==> p in r[m] && r[m][p] == counter[m]
    ensures forall m :: m in counts && m !in counter ==> r[m] == counts[m]
    ensures forall m, q :: m in counts && q != p ==> (q in r[m] <==> q in counts[m])
    ensures forall m, q :: m in counts && q != p && q in counts[m] ==> r[m][q] == counts[m][q]
  {
    map m | m in counts :: RecordIn(counts[m], p, counter, m)
  }

  /** One column after recording p: p's cell is set when m is in the counter,
      and every other player's cell is left as it was. */
  function RecordIn(column: map<string, nat>, p: string, counter: map<Medal, nat>, m: Medal): (r: map<string, nat>)
    ensures m in counter ==> p in r && r[p] == counter[m]
    ensures m !in counter ==> r == column
    ensures forall q :: q != p ==> (q in r <==> q in column)
    ensures forall q :: q != p && q in column ==> r[q] == column[q]
  {
    if m in counter then column[p := counter[m]] else column
  }

  /** Recording one more player keeps a column exact. */
  lemma RecordColumn(medals: map<string, seq<Medal>>, done: set<string>, column: map<string, nat>,
                     m: Medal, p: string, counter: map<Medal, nat>)
    requires done <= medals.Keys && ColumnTallied(medals, done, column, m)
    requires p in medals && p !in done
    requires m in counter <==> Count(medals[p], m) > 0
    requires m in counter ==> counter[m] == Count(medals[p], m)
    ensures ColumnTallied(medals, done + {p}, RecordIn(column, p, counter, m), m)
  {
  }

  /** Recording one more player keeps the points exact. */
  lemma RecordPoints(medals: map<string, seq<Medal>>, done: set<string>, points: map<string, nat>, p: string)
    requires done <= medals.Keys && PointsTallied(medals, done, points)
    requires p in medals
    ensures PointsTallied(medals, done + {p}, points[p := Points(medals[p])])
  {
  }

  /** Recording touches each of the three columns through `RecordIn`. */
  lemma RecordColumns(counts: map<Medal, map<string, nat>>, p: string, counter: map<Medal, nat>)
    requires counts.Keys == {Gold, Silver, Bronze}
    ensures Record(counts, p, counter).Keys == {Gold, Silver, Bronze}
    ensures Record(counts, p, counter)[Gold] == RecordIn(counts[Gold], p, counter, Gold)
    ensures Record(counts, p, counter)[Silver] == RecordIn(counts[Silver], p, counter, Silver)
    ensures Record(counts, p, counter)[Bronze] == RecordIn(counts[Bronze], p, counter, Bronze)
  {
  }

  /** Recording one more player keeps the tally exact. */
  lemma RecordPlayer(medals: map<string, seq<Medal>>, done: set<string>, counts: map<Medal, map<string, nat>>,
                     points: map<string, nat>, p: string, counter: map<Medal, nat>)
    requires Tallied(medals, done, counts, points)
    requires p in medals && p !in done
    requires forall m :: m in counter <==> Count(medals[p], m) > 0
    requires forall m :: m in counter ==> counter[m] == Count(medals[p], m)
    ensures Tallied(medals, done + {p}, Record(counts, p, counter), points[p := Points(medals[p])])
  {
    RecordColumns(counts, p, counter);
    RecordPoints(medals, done, points, p);
    RecordColumn(medals, done, counts[Gold], Gold, p, counter);
    RecordColumn(medals, done, counts[Silver], Silver, p, counter);
    RecordColumn(medals, done, counts[Bronze], Bronze, p, counter);
  }

  /** The loop of `count_medals` that fills `counts` and `points`. */
  method TallyMedals(medals: map<string, seq<Medal>>) returns (counts: map<Medal, map<string, nat>>, points: map<string, nat>)
    ensures Tallied(medals, medals.Keys, counts, points)
  {
    counts := map[Gold := map[], Silver := map[], Bronze := map[]];
    points := map[];
    var todo := medals.Keys;
    ghost var done: set<string> := {};
    while todo != {}
      invariant todo <= medals.Keys && done == medals.Keys - todo
      invariant Tallied(medals, done, counts, points)
      decreases todo
    {
      var p :| p in todo;
      var counter := CountEach(medals[p]);
      RecordPlayer(medals, done, counts, points, p, counter);
      counts := Record(counts, p, counter);
      points := points[p := Points(medals[p])];
      todo := todo - {p};
      done := done + {p};
    }
  }

  /** The row a recorded player gets: one cell per medal column, missing cells 0. */
  function RowOf(counts: map<Medal, map<string, nat>>, points: map<string, nat>, p: string): (r: MedalRow)
    requires Gold in counts && Silver in counts && Bronze in counts && p in points
    ensures r.MedalRow? && r.player == p && r.medalScore == points[p]
    ensures r.gold > 0 <==> p in counts[Gold] && counts[Gold][p] > 0
    ensures r.silver > 0 <==> p in counts[Silver] && counts[Silver][p] > 0
    ensures r.bronze > 0 <==> p in counts[Bronze] && counts[Bronze][p] > 0
  {
    MedalRow(p, CountOrZero(counts[Gold], p), CountOrZero(counts[Silver], p), CountOrZero(counts[Bronze], p), points[p])
  }

  /** A tallied column gives a recorded player their count, 0 when absent. */
  lemma ColumnCount(medals: map<string, seq<Medal>>, column: map<string, nat>, m: Medal, p: string)
    requires ColumnTallied(medals, medals.Keys, column, m) && p in medals
    ensures CountOrZero(column, p) == Count(medals[p], m)
    ensures p in column <==> Count(medals[p], m) > 0
  {
  }

  /** A complete tally gives every player with medals the row their medals should produce,
      and the medal columns together list exactly those players. */
  lemma TalliedRows(medals: map<string, seq<Medal>>, counts: map<Medal, map<string, nat>>, points: map<string, nat>)
    requires Tallied(medals, medals.Keys, counts, points)
    ensures forall p :: p in counts[Gold].Keys + counts[Silver].Keys + counts[Bronze].Keys
              <==> p in medals && medals[p] != []
    ensures forall p :: p in medals ==> RowOf(counts, points, p) == Tally(p, medals[p])
  {
    forall p | p in medals
      ensures p in counts[Gold].Keys + counts[Silver].Keys + counts[Bronze].Keys <==> medals[p] != []
      ensures RowOf(counts, points, p) == Tally(p, medals[p])
    {
      ColumnCount(medals, counts[Gold], Gold, p);
      ColumnCount(medals, counts[Silver], Silver, p);
      ColumnCount(medals, counts[Bronze], Bronze, p);
      CountsTotal(medals[p]);
    }
  }

  /** Whether r is the row the player's medals should produce. */
  predicate RowOk(medals: map<string, seq<Medal>>, r: MedalRow)
  {
    r.player in medals && medals[r.player] != [] && r == Tally(r.player, medals[r.player])
  }

  /** Whether some row of the table belongs to player p. */
  predicate Listed(table: seq<MedalRow>, p: string)
  {
    exists i :: 0 <= i < |table| && table[i].player == p
  }

  /** Whether some player has won at least one medal. */
  predicate AnyMedals(medals: map<string, seq<Medal>>)
  {
    exists p :: p in medals && medals[p] != []
  }

  /** `pandas.DataFrame(counts)` with `fillna(0)` and the "Medal Score" column,
      when the frame has rows: one row per player found in some medal's column. */
  method BuildTable(medals: map<string, seq<Medal>>, counts: map<Medal, map<string, nat>>, points: map<string, nat>)
    returns (table: seq<MedalRow>)
    requires Tallied(medals, medals.Keys, counts, points)
    ensures forall i :: 0 <= i < |table| ==> RowOk(medals, table[i])
    ensures forall p :: p in medals && medals[p] != [] ==> Listed(table, p)
    ensures DistinctPlayers(table)
  {
    var players := counts[Gold].Keys + counts[Silver].Keys + counts[Bronze].Keys;
    TalliedRows(medals, counts, points);
    table := [];
    var left := players;
    ghost var done: set<string> := {};
    while left != {}
      invariant done + left == players && done !! left
      invariant forall i :: 0 <= i < |table| ==> table[i].player in done && RowOk(medals, table[i])
      invariant forall p :: p in done ==> Listed(table, p)
      invariant DistinctPlayers(table)
      decreases left
    {
      var p :| p in left;
      var row := RowOf(counts, points, p);
      assert RowOk(medals, row);
      AppendListed(table, done, row);
      AppendKeeps(table, row, medals);
      table, done := table + [row], done + {p};
      left := left - {p};
    }
    forall p | p in medals && medals[p] != []
      ensures Listed(table, p)
    {
      assert p in done;
    }
  }

  /** Appending a correct row keeps every row correct. */
  lemma AppendKeeps(table: seq<MedalRow>, row: MedalRow, medals: map<string, seq<Medal>>)
    requires forall i :: 0 <= i < |table| ==> RowOk(medals, table[i])
    requires RowOk(medals, row)
    ensures forall i :: 0 <= i < |table + [row]| ==> RowOk(medals, (table + [row])[i])
  {
  }

  /** `df['Medal Score'] = points` on a frame without rows: the frame takes the
      keys of `points` as its index, every medal cell is NaN, and each row
      carries its player's points. */
  method ScoreOnlyTable(points: map<string, nat>) returns (table: seq<MedalRow>)
    ensures forall i :: 0 <= i < |table| ==>
              table[i].player in points && table[i] == ScoreOnly(table[i].player, points[table[i].player])
    ensures forall p :: p in points ==> Listed(table, p)
    ensures DistinctPlayers(table)
  {
    table := [];
    var left := points.Keys;
    ghost var done: set<string> := {};
    while left != {}
      invariant done + left == points.Keys && done !! left
      invariant forall i :: 0 <= i < |table| ==>
                  table[i].player in done && table[i] == ScoreOnly(table[i].player, points[table[i].player])
      invariant forall p :: p in done ==> Listed(table, p)
      invariant DistinctPlayers(table)
      decreases left
    {
      var p :| p in left;
      var row := ScoreOnly(p, points[p]);
      AppendListed(table, done, row);
      table, done := table + [row], done + {p};
      left := left - {p};
    }
  }

  /** Appending the row of a player not yet listed keeps every listed player
      listed, adds the new one, and keeps players distinct. */
  lemma AppendListed(table: seq<MedalRow>, done: set<string>, row: MedalRow)
    requires forall i :: 0 <= i < |table| ==> table[i].player in done
    requires forall p :: p in done ==> Listed(table, p)
    requires DistinctPlayers(table)
    requires row.player !in done
    ensures forall i :: 0 <= i < |table + [row]| ==> (table + [row])[i].player in done + {row.player}
    ensures forall p :: p in done + {row.player} ==> Listed(table + [row], p)
    ensures DistinctPlayers(table + [row])
  {
    var table' := table + [row];
    forall q | q in done + {row.player}
      ensures Listed(table', q)
    {
      if q == row.player {
        assert table'[|table|].player == q;
      } else {
        var i :| 0 <= i < |table| && table[i].player == q;
        assert table'[i].player == q;
      }
    }
  }

  /** The table before sorting, in both of the cases `count_medals` meets. */
  predicate MedalTable(medals: map<string, seq<Medal>>, table: seq<MedalRow>)
  {
    && (AnyMedals(medals) ==> forall i :: 0 <= i < |table| ==> RowOk(medals, table[i]))
    && (AnyMedals(medals) ==> forall p :: p in medals && medals[p] != [] ==> Listed(table, p))
    && (!AnyMedals(medals) ==> forall i :: 0 <= i < |table| ==>
          table[i].player in medals && table[i] == ScoreOnly(table[i].player, 0))
    && (!AnyMedals(medals) ==> forall p :: p in medals ==> Listed(table, p))
    && DistinctPlayers(table)
  }

  /**
   * `count_medals(medals)`: the medal table sorted by Medal Score, highest first.
   * When some player has a medal, there is one row per such player: a player
   * whose collection is empty never enters `counts`, so the frame has no row
   * for them, and assigning `points` aligns on the existing index.  When no
   * player has a medal, the frame built from `counts` has no rows, and
   * assigning `points` gives it one row per player, with NaN medal cells and
   * a Medal Score of 0.
   */
  method CountMedals(medals: map<string, seq<Medal>>) returns (rows: seq<MedalRow>)
    ensures AnyMedals(medals) ==> forall i :: 0 <= i < |rows| ==>
              rows[i].player in medals && medals[rows[i].player] != []
              && rows[i] == Tally(rows[i].player, medals[rows[i].player])
    ensures AnyMedals(medals) ==> forall p :: p in medals && medals[p] != [] ==> Listed(rows, p)
    ensures !AnyMedals(medals) ==> forall i :: 0 <= i < |rows| ==>
              rows[i].player in medals && rows[i] == ScoreOnly(rows[i].player, 0)
    ensures !AnyMedals(medals) ==> forall p :: p in medals ==> Listed(rows, p)
    ensures DistinctPlayers(rows)
    ensures NonIncreasing(rows)
  {
    var counts, points := TallyMedals(medals);
    var table := BuildTable(medals, counts, points);
    if table == [] {
      NoRowsNoMedals(medals, table);
      table := ScoreOnlyTable(points);
      ScoreOnlyMedalTable(medals, points, table);
    } else {
      TallyMedalTable(medals, table);
    }
    rows := SortByMedalScore(table);
    PermutationKeepsTable(medals, table, rows);
  }

  /** A table listing every player with medals is empty only when nobody has a medal. */
  lemma NoRowsNoMedals(medals: map<string, seq<Medal>>, table: seq<MedalRow>)
    requires forall p :: p in medals && medals[p] != [] ==> Listed(table, p)
    requires table == []
    ensures !AnyMedals(medals)
  {
  }

  /** A non-empty tally table is the medal table: somebody has a medal. */
  lemma TallyMedalTable(medals: map<string, seq<Medal>>, table: seq<MedalRow>)
    requires forall i :: 0 <= i < |table| ==> RowOk(medals, table[i])
    requires forall p :: p in medals && medals[p] != [] ==> Listed(table, p)
    requires DistinctPlayers(table)
    requires table != []
    ensures MedalTable(medals, table)
  {
    assert RowOk(medals, table[0]);
  }

  /** With nobody holding a medal, the score-only table is the medal table:
      every player's points are 0. */
  lemma ScoreOnlyMedalTable(medals: map<string, seq<Medal>>, points: map<string, nat>, table: seq<MedalRow>)
    requires !AnyMedals(medals)
    requires PointsTallied(medals, medals.Keys, points)
    requires forall i :: 0 <= i < |table| ==>
               table[i].player in points && table[i] == ScoreOnly(table[i].player, points[table[i].player])
    requires forall p :: p in points ==> Listed(table, p)
    requires DistinctPlayers(table)
    ensures MedalTable(medals, table)
  {
    forall i | 0 <= i < |table|
      ensures table[i] == ScoreOnly(table[i].player, 0)
    {
      assert medals[table[i].player] == [];
    }
  }

  /** Reordering the table keeps every property of `MedalTable`. */
  lemma PermutationKeepsTable(medals: map<string, seq<Medal>>, a: seq<MedalRow>, b: seq<MedalRow>)
    requires MedalTable(medals, a) && multiset(a) == multiset(b)
    ensures MedalTable(medals, b)
  {
    PermutationKeepsDistinct(a, b);
    forall p | Listed(a, p)
      ensures Listed(b, p)
    {
      var k :| 0 <= k < |a| && a[k].player == p;
      assert a[k] in multiset(b);
      var i :| 0 <= i < |b| && b[i] == a[k];
    }
    forall i | 0 <= i < |b|
      ensures b[i] in a
    {
      assert b[i] in multiset(a);
    }
  }

  /** `sort_values('Medal Score', ascending=False)`, as an insertion sort. */
  function SortByMedalScore(rows: seq<MedalRow>): (sorted: seq<MedalRow>)
    ensures multiset(sorted) == multiset(rows)
    ensures NonIncreasing(sorted)
  {
    if rows == [] then []
    else
      assert rows == [rows[0]] + rows[1..];
      var rest := SortByMedalScore(rows[1..]);
      InsertKeepsOrder(rest, rows[0]);
      InsertByMedalScore(rest, rows[0])
  }

  /** Places x after every leading row scoring at least as much. */
  function InsertByMedalScore(sorted: seq<MedalRow>, x: MedalRow): (r: seq<MedalRow>)
    ensures multiset(r) == multiset(sorted) + multiset{x}
  {
    if sorted == [] || sorted[0].medalScore <= x.medalScore then [x] + sorted
    else
      assert sorted == [sorted[0]] + sorted[1..];
      [sorted[0]] + InsertByMedalScore(sorted[1..], x)
  }

  /** Inserting into an ordered table keeps it ordered. */
  lemma {:induction false} InsertKeepsOrder(sorted: seq<MedalRow>, x: MedalRow)
    requires NonIncreasing(sorted)
    ensures NonIncreasing(InsertByMedalScore(sorted, x))
    ensures InsertByMedalScore(sorted, x)[0] == x || InsertByMedalScore(sorted, x)[0] == sorted[0]
  {
    if sorted == [] || sorted[0].medalScore <= x.medalScore {
      ConsNonIncreasing(x, sorted);
    } else {
      var rest := InsertByMedalScore(sorted[1..], x);
      InsertKeepsOrder(sorted[1..], x);
      ConsNonIncreasing(sorted[0], rest);
    }
  }

  /** The rows with Medal Score v, in table order. */
  function WithScore(rows: seq<MedalRow>, v: nat): (r: seq<MedalRow>)
    ensures |r| <= |rows|
    ensures forall k :: 0 <= k < |r| ==> r[k].medalScore == v
  {
    if rows == [] then []
    else (if rows[0].medalScore == v then [rows[0]] else []) + WithScore(rows[1..], v)
  }

  /** Inserting x puts it ahead of every row with its own score and leaves the
      other rows of each score in their order. */
  lemma {:induction false} InsertWithScore(sorted: seq<MedalRow>, x: MedalRow, v: nat)
    ensures WithScore(InsertByMedalScore(sorted, x), v)
            == (if x.medalScore == v then [x] else []) + WithScore(sorted, v)
  {
    if sorted == [] || sorted[0].medalScore <= x.medalScore {
      assert ([x] + sorted)[1..] == sorted;
    } else {
      var rest := InsertByMedalScore(sorted[1..], x);
      InsertWithScore(sorted[1..], x, v);
      assert ([sorted[0]] + rest)[1..] == rest;
    }
  }

  /** The sort is stable: rows with equal Medal Score keep their relative order. */
  lemma {:induction false} SortByMedalScoreStable(rows: seq<MedalRow>, v: nat)
    ensures WithScore(SortByMedalScore(rows), v) == WithScore(rows, v)
  {
    if rows != [] {
      var rest := SortByMedalScore(rows[1..]);
      SortByMedalScoreStable(rows[1..], v);
      InsertWithScore(rest, rows[0], v);
    }
  }

  /** A row scoring at least as much as the head of an ordered table can go in front. */
  lemma ConsNonIncreasing(h: MedalRow, t: seq<MedalRow>)
    requires NonIncreasing(t)
    requires t != [] ==> h.medalScore >= t[0].medalScore
    ensures NonIncreasing([h] + t)
  {
    forall i, j | 0 <= i < j < |[h] + t|
      ensures ([h] + t)[i].medalScore >= ([h] + t)[j].medalScore
    {
      if i == 0 && j > 1 {
        assert t[0].medalScore >= t[j - 1].medalScore;
      }
    }
  }

  /** Two equal entries at different positions occur at least twice. */
  lemma TwiceInMultiset(b: seq<MedalRow>, i: nat, j: nat)
    requires i < j < |b| && b[i] == b[j]
    ensures multiset(b)[b[i]] >= 2
  {
    assert b == b[..j] + [b[j]] + b[j + 1..];
    assert b[..j][i] == b[i];
  }

  /** Rows with distinct players are distinct, so each occurs at most once. */
  lemma {:induction false} DistinctAtMostOnce(a: seq<MedalRow>, x: MedalRow)
    requires DistinctPlayers(a)
    ensures multiset(a)[x] <= 1
  {
    if a != [] {
      var init := a[..|a| - 1];
      assert a == init + [a[|a| - 1]];
      DistinctAtMostOnce(init, x);
      if a[|a| - 1] == x {
        assert x !in init;
      }
    }
  }

  /** Reordering rows whose players are distinct keeps them distinct. */
  lemma PermutationKeepsDistinct(a: seq<MedalRow>, b: seq<MedalRow>)
    requires multiset(a) == multiset(b) && DistinctPlayers(a)
    ensures DistinctPlayers(b)
  {
    forall i, j | 0 <= i < j < |b|
      ensures b[i].player != b[j].player
    {
      if b[i].player == b[j].player {
        assert b[i] in multiset(a) && b[j] in multiset(a);
        var ia :| 0 <= ia < |a| && a[ia] == b[i];
        var ja :| 0 <= ja < |a| && a[ja] == b[j];
        assert ia == ja;
        TwiceInMultiset(b, i, j);
        DistinctAtMostOnce(a, b[i]);
      }
    }
  }
}
