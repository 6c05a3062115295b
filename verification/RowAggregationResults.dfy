/** What the aggregation means: it is a GROUP BY over the row keys. */
module RowAggregationResults {
  import opened Wrappers
  import opened RowAggregation

  /** A metric counts as its number, and as nothing when it is not one. */
  function NumberAt(row: Row, c: nat): (x: real)
    requires c < |row|
    ensures row[c] == Number(x) || (!row[c].Number? && x == 0.0)
  {
    if row[c].Number? then row[c].x else 0.0
  }

  predicate Metric(s: Shape, c: nat) {
    s.cols <= c < s.cols + s.metrics
  }

  predicate InRange(rows: seq<Row>, group: seq<nat>) {
    forall j | 0 <= j < |group| :: group[j] < |rows|
  }

  function GroupSum(rows: seq<Row>, s: Shape, group: seq<nat>, c: nat): real
    requires AllFit(rows, s) && InRange(rows, group) && Metric(s, c)
  {
    if group == [] then 0.0
    else
      var last := group[|group| - 1];
      assert rows[last] in rows;
      GroupSum(rows, s, group[..|group| - 1], c) + NumberAt(rows[last], c)
  }

  /** All metrics of a row are numbers. */
  ghost predicate NumericRow(row: Row, s: Shape)
    requires Fits(row, s)
  {
    forall c: nat | Metric(s, c) :: row[c].Number?
  }

  ghost predicate Numeric(rows: seq<Row>, s: Shape, group: seq<nat>)
    requires AllFit(rows, s) && InRange(rows, group)
  {
    forall j | 0 <= j < |group| :: Fits(rows[group[j]], s) && NumericRow(rows[group[j]], s)
  }

  /** Adding up a group: it succeeds exactly when the group is a single row or all numeric;
      every metric becomes the sum over the group, and nothing else of the first row changes. */
  lemma {:induction false} FoldedSums(rows: seq<Row>, s: Shape, group: seq<nat>)
    requires AllFit(rows, s) && InRange(rows, group) && |group| > 0
    ensures Folded(rows, s, group).Ok? <==> |group| == 1 || Numeric(rows, s, group)
    ensures Folded(rows, s, group).Ok? ==>
              var r, first := Folded(rows, s, group).value, rows[group[0]];
              && |r| == |first|
              && (forall c: nat | c < |r| && !Metric(s, c) :: r[c] == first[c])
              && (forall c: nat | Metric(s, c) :: NumberAt(r, c) == GroupSum(rows, s, group, c))
              && (forall c: nat | Metric(s, c) && |group| > 1 :: r[c].Number?)
  {
    var n := |group| - 1;
    var last := group[n];
    assert rows[last] in rows && rows[group[0]] in rows;
    var before := group[..n];
    if n == 0 {
      assert forall c: nat | Metric(s, c) :: GroupSum(rows, s, before, c) == 0.0;
    } else {
      FoldedSums(rows, s, before);
      assert before[0] == group[0];
      NumericStep(rows, s, group);
      var f := Folded(rows, s, before);
      if f.Ok? {
        AddMetricsAt(f.value, rows[last], s, s.metrics);
        assert NumericRow(f.value, s) <==> Numeric(rows, s, before);
        assert AddMetrics(f.value, rows[last], s, s.metrics).Ok? <==>
            NumericRow(f.value, s) && NumericRow(rows[last], s) by {
          assert forall c: nat :: Metric(s, c) <==> s.cols <= c < s.cols + s.metrics;
        }
      }
    }
  }

  lemma NumericStep(rows: seq<Row>, s: Shape, group: seq<nat>)
    requires AllFit(rows, s) && InRange(rows, group) && |group| > 1
    requires rows[group[|group| - 1]] in rows
    ensures var before := group[..|group| - 1];
            Numeric(rows, s, group) <==> Numeric(rows, s, before) && NumericRow(rows[group[|group| - 1]], s)
    ensures |group| == 2 ==> (Numeric(rows, s, group[..1]) <==> NumericRow(rows[group[0]], s))
  {
    var before := group[..|group| - 1];
    assert rows[group[0]] in rows;
    forall j | 0 <= j < |before| ensures before[j] == group[j] {}
    assert forall j | 0 <= j < |before| :: rows[group[j]] in rows;
    if Numeric(rows, s, before) && NumericRow(rows[group[|group| - 1]], s) {
      forall j | 0 <= j < |group| ensures Fits(rows[group[j]], s) && NumericRow(rows[group[j]], s) {
        if j < |before| {
          assert before[j] == group[j];
        }
      }
    }
  }

  // ----- Keys and first occurrences -----

  /** The row that row j is summed into: itself without a key, else the first with its key. */
  function Representative(rows: seq<Row>, s: Shape, j: nat): (i: nat)
    requires AllFit(rows, s) && j < |rows|
    ensures i <= j && KeyAt(rows, s, i) == KeyAt(rows, s, j)
  {
    match KeyAt(rows, s, j)
    case None => j
    case Some(k) =>
      MembersComplete(rows, s, k, |rows|, j);
      FirstMember(rows, s, k, j);
      Group(rows, s, k)[0]
  }

  lemma FirstMember(rows: seq<Row>, s: Shape, k: string, j: nat)
    requires AllFit(rows, s) && j < |rows| && KeyAt(rows, s, j) == Some(k)
    ensures Group(rows, s, k) != [] && Group(rows, s, k)[0] <= j
  {
    MembersComplete(rows, s, k, |rows|, j);
    var at :| 0 <= at < |Group(rows, s, k)| && Group(rows, s, k)[at] == j;
    assert at > 0 ==> Group(rows, s, k)[0] < Group(rows, s, k)[at];
  }

  lemma RepresentativeOfSame(rows: seq<Row>, s: Shape, i: nat, j: nat)
    requires AllFit(rows, s) && i < |rows| && j < |rows|
    ensures KeyAt(rows, s, i).Some? && KeyAt(rows, s, i) == KeyAt(rows, s, j) ==>
              Representative(rows, s, i) == Representative(rows, s, j)
    ensures Representative(rows, s, Representative(rows, s, i)) == Representative(rows, s, i)
  {
  }

  /** A row is left exactly when it is its own representative: without a key, or the first row
      with its key.  So every key is left once, in the order of first occurrence. */
  lemma LeftIfFirst(rows: seq<Row>, s: Shape, i: nat)
    requires AllFit(rows, s) && Summable(rows, s) && i < |rows|
    ensures Aggregated(rows, s, i).value.Some? <==> Representative(rows, s, i) == i
    ensures Representative(rows, s, i) == i <==>
              KeyAt(rows, s, i).None? || forall j | 0 <= j < i :: KeyAt(rows, s, j) != KeyAt(rows, s, i)
  {
    if KeyAt(rows, s, i).Some? {
      var k := KeyAt(rows, s, i).value;
      FirstMember(rows, s, k, i);
      if j :| 0 <= j < i && KeyAt(rows, s, j) == KeyAt(rows, s, i) {
        FirstMember(rows, s, k, j);
      }
    }
  }

  lemma {:induction false} SameColumnsSameKey(a: Row, b: Row, n: nat)
    requires n <= |a| && n <= |b| && a[..n] == b[..n]
    ensures RowKey(a, n) == RowKey(b, n)
  {
    if n > 0 {
      assert a[..n][..n - 1] == a[..n - 1] && b[..n][..n - 1] == b[..n - 1];
      assert a[n - 1] == a[..n][n - 1] && b[n - 1] == b[..n][n - 1];
      SameColumnsSameKey(a, b, n - 1);
    }
  }

  /** What a row that is left holds: its own columns, and every metric summed over its group;
      without a key, or alone with it, it is unchanged. */
  lemma LeftRowHolds(rows: seq<Row>, s: Shape, i: nat)
    requires AllFit(rows, s) && Summable(rows, s) && i < |rows|
    requires Aggregated(rows, s, i).value.Some?
    ensures var r := Aggregated(rows, s, i).value.value;
            && |r| == |rows[i]| && (forall c: nat | c < |r| && !Metric(s, c) :: r[c] == rows[i][c])
            && (KeyAt(rows, s, i).None? || |Group(rows, s, KeyAt(rows, s, i).value)| == 1 ==> r == rows[i])
            && (KeyAt(rows, s, i).Some? ==>
                  forall c: nat | Metric(s, c) ::
                    NumberAt(r, c) == GroupSum(rows, s, Group(rows, s, KeyAt(rows, s, i).value), c))
  {
    assert rows[i] in rows;
    if KeyAt(rows, s, i).Some? {
      var k := KeyAt(rows, s, i).value;
      FirstMember(rows, s, k, i);
      FoldedSums(rows, s, Group(rows, s, k));
    }
  }

  /** The aggregation fails exactly when some row that shares its key with another has a metric
      that is not a number. */
  lemma SummableExactly(rows: seq<Row>, s: Shape)
    requires AllFit(rows, s)
    ensures Summable(rows, s) <==>
              forall i | 0 <= i < |rows| && KeyAt(rows, s, i).Some? ::
                var group := Group(rows, s, KeyAt(rows, s, i).value);
                |group| == 1 || Numeric(rows, s, group)
  {
    forall i | 0 <= i < |rows|
      ensures Aggregated(rows, s, i).Ok? <==>
                (KeyAt(rows, s, i).Some? ==>
                  var group := Group(rows, s, KeyAt(rows, s, i).value);
                  |group| == 1 || Numeric(rows, s, group))
    {
      if KeyAt(rows, s, i).Some? {
        var k := KeyAt(rows, s, i).value;
        FirstMember(rows, s, k, i);
        FoldedSums(rows, s, Group(rows, s, k));
      }
    }
  }

  // ----- Column totals -----

  function ColumnTotal(rows: seq<Row>, c: nat): real
    requires forall r | r in rows :: c < |r|
  {
    if rows == [] then 0.0
    else
      assert forall r | r in rows[..|rows| - 1] :: r in rows;
      ColumnTotal(rows[..|rows| - 1], c) + NumberAt(rows[|rows| - 1], c)
  }

  /** The metrics of the first n rows that are represented by row i. */
  function RepresentedTo(rows: seq<Row>, s: Shape, c: nat, i: nat, n: nat): real
    requires AllFit(rows, s) && n <= |rows| && Metric(s, c)
  {
    if n == 0 then 0.0
    else
      assert rows[n - 1] in rows;
      RepresentedTo(rows, s, c, i, n - 1)
      + if Representative(rows, s, n - 1) == i then NumberAt(rows[n - 1], c) else 0.0
  }

  /** The sum of that over the rows below m. */
  function RepresentedBelow(rows: seq<Row>, s: Shape, c: nat, m: nat, n: nat): real
    requires AllFit(rows, s) && n <= |rows| && Metric(s, c)
  {
    if m == 0 then 0.0 else RepresentedBelow(rows, s, c, m - 1, n) + RepresentedTo(rows, s, c, m - 1, n)
  }

  lemma {:induction false} RepresentedOnce(rows: seq<Row>, s: Shape, c: nat, m: nat, n: nat)
    requires AllFit(rows, s) && n < |rows| && Metric(s, c) && c < |rows[n]|
    ensures RepresentedBelow(rows, s, c, m, n + 1)
         == RepresentedBelow(rows, s, c, m, n) + if Representative(rows, s, n) < m then NumberAt(rows[n], c) else 0.0
  {
    if m > 0 {
      RepresentedOnce(rows, s, c, m - 1, n);
    }
  }

  lemma {:induction false} RepresentedAll(rows: seq<Row>, s: Shape, c: nat, n: nat)
    requires AllFit(rows, s) && n <= |rows| && Metric(s, c)
    requires forall r | r in rows[..n] :: c < |r|
    ensures RepresentedBelow(rows, s, c, |rows|, n) == ColumnTotal(rows[..n], c)
  {
    if n == 0 {
      RepresentedNone(rows, s, c, |rows|);
    } else {
      assert rows[..n][..n - 1] == rows[..n - 1];
      assert rows[n - 1] in rows;
      assert forall r | r in rows[..n - 1] :: r in rows[..n];
      RepresentedAll(rows, s, c, n - 1);
      RepresentedOnce(rows, s, c, |rows|, n - 1);
    }
  }

  lemma {:induction false} RepresentedNone(rows: seq<Row>, s: Shape, c: nat, m: nat)
    requires AllFit(rows, s) && Metric(s, c)
    ensures RepresentedBelow(rows, s, c, m, 0) == 0.0
  {
    if m > 0 {
      RepresentedNone(rows, s, c, m - 1);
    }
  }

  lemma {:induction false} GroupRepresented(rows: seq<Row>, s: Shape, c: nat, k: string, n: nat)
    requires AllFit(rows, s) && n <= |rows| && Metric(s, c) && Group(rows, s, k) != []
    ensures RepresentedTo(rows, s, c, Group(rows, s, k)[0], n) == GroupSum(rows, s, Members(rows, s, k, n), c)
  {
    for i := 0 to n
      invariant RepresentedTo(rows, s, c, Group(rows, s, k)[0], i) == GroupSum(rows, s, Members(rows, s, k, i), c)
    {
      GroupRepresentedStep(rows, s, c, k, i);
    }
  }

  lemma GroupRepresentedStep(rows: seq<Row>, s: Shape, c: nat, k: string, n: nat)
    requires AllFit(rows, s) && n < |rows| && Metric(s, c) && Group(rows, s, k) != []
    requires RepresentedTo(rows, s, c, Group(rows, s, k)[0], n) == GroupSum(rows, s, Members(rows, s, k, n), c)
    ensures RepresentedTo(rows, s, c, Group(rows, s, k)[0], n + 1) == GroupSum(rows, s, Members(rows, s, k, n + 1), c)
  {
    RepresentedByFirst(rows, s, k, n);
    if KeyAt(rows, s, n) == Some(k) {
      GroupSumPush(rows, s, Members(rows, s, k, n), n, c);
    }
  }

  lemma RepresentedByFirst(rows: seq<Row>, s: Shape, k: string, j: nat)
    requires AllFit(rows, s) && j < |rows| && Group(rows, s, k) != []
    ensures Representative(rows, s, j) == Group(rows, s, k)[0] <==> KeyAt(rows, s, j) == Some(k)
  {
    assert KeyAt(rows, s, Group(rows, s, k)[0]) == Some(k);
  }

  lemma GroupSumPush(rows: seq<Row>, s: Shape, group: seq<nat>, i: nat, c: nat)
    requires AllFit(rows, s) && InRange(rows, group) && i < |rows| && Metric(s, c)
    ensures rows[i] in rows && InRange(rows, group + [i])
    ensures GroupSum(rows, s, group + [i], c) == GroupSum(rows, s, group, c) + NumberAt(rows[i], c)
  {
    assert rows[i] in rows && (group + [i])[..|group|] == group;
  }

  lemma {:induction false} KeylessRepresented(rows: seq<Row>, s: Shape, c: nat, i: nat, n: nat)
    requires AllFit(rows, s) && n <= |rows| && Metric(s, c) && i < |rows| && c < |rows[i]|
    requires KeyAt(rows, s, i).None? || Representative(rows, s, i) != i
    ensures RepresentedTo(rows, s, c, i, n) == if KeyAt(rows, s, i).None? && i < n then NumberAt(rows[i], c) else 0.0
  {
    if n > 0 {
      KeylessRepresented(rows, s, c, i, n - 1);
      if Representative(rows, s, n - 1) == i {
        RepresentativeOfSame(rows, s, n - 1, i);
      }
    }
  }

  /** What is left of row i is what row i represents. */
  lemma LeftIsRepresented(rows: seq<Row>, s: Shape, c: nat, i: nat)
    requires AllFit(rows, s) && Summable(rows, s) && Metric(s, c) && i < |rows|
    ensures var left := Aggregated(rows, s, i).value;
            && (left.Some? ==> c < |left.value| && NumberAt(left.value, c) == RepresentedTo(rows, s, c, i, |rows|))
            && (left.None? ==> RepresentedTo(rows, s, c, i, |rows|) == 0.0)
  {
    assert rows[i] in rows;
    LeftIfFirst(rows, s, i);
    if KeyAt(rows, s, i).None? || Representative(rows, s, i) != i {
      KeylessRepresented(rows, s, c, i, |rows|);
    } else {
      LeftRowHolds(rows, s, i);
      FirstMember(rows, s, KeyAt(rows, s, i).value, i);
      GroupRepresented(rows, s, c, KeyAt(rows, s, i).value, |rows|);
    }
  }

  lemma TotalAppend(rows: seq<Row>, r: Row, c: nat)
    requires (forall x | x in rows :: c < |x|) && c < |r|
    ensures forall x | x in rows + [r] :: c < |x|
    ensures ColumnTotal(rows + [r], c) == ColumnTotal(rows, c) + NumberAt(r, c)
  {
    assert (rows + [r])[..|rows|] == rows;
  }

  lemma KeptStep(rows: seq<Option<Row>>, m: nat)
    requires 0 < m <= |rows|
    ensures Kept(rows[..m]) == Kept(rows[..m - 1]) + if rows[m - 1].Some? then [rows[m - 1].value] else []
  {
    assert rows[..m][..m - 1] == rows[..m - 1];
  }

  predicate Reach(rows: seq<Option<Row>>, c: nat) {
    forall i | 0 <= i < |rows| && rows[i].Some? :: c < |rows[i].value|
  }

  /** The total of the rows that are not nil among the first m. */
  function LeftTotal(rows: seq<Option<Row>>, c: nat, m: nat): real
    requires Reach(rows, c) && m <= |rows|
  {
    if m == 0 then 0.0
    else LeftTotal(rows, c, m - 1) + if rows[m - 1].Some? then NumberAt(rows[m - 1].value, c) else 0.0
  }

  lemma {:induction false} KeptTotal(rows: seq<Option<Row>>, c: nat, m: nat)
    requires Reach(rows, c) && m <= |rows|
    ensures forall r | r in Kept(rows[..m]) :: c < |r|
    ensures ColumnTotal(Kept(rows[..m]), c) == LeftTotal(rows, c, m)
  {
    if m > 0 {
      KeptTotal(rows, c, m - 1);
      KeptTotalStep(rows, c, m - 1);
    }
  }

  lemma KeptTotalStep(rows: seq<Option<Row>>, c: nat, m: nat)
    requires Reach(rows, c) && m < |rows| && forall r | r in Kept(rows[..m]) :: c < |r|
    requires ColumnTotal(Kept(rows[..m]), c) == LeftTotal(rows, c, m)
    ensures forall r | r in Kept(rows[..m + 1]) :: c < |r|
    ensures ColumnTotal(Kept(rows[..m + 1]), c) == LeftTotal(rows, c, m + 1)
  {
    KeptStep(rows, m + 1);
    if rows[m].Some? {
      TotalAppend(Kept(rows[..m]), rows[m].value, c);
    } else {
      assert Kept(rows[..m + 1]) == Kept(rows[..m]);
    }
  }

  lemma LeftReach(rows: seq<Row>, s: Shape, c: nat)
    requires AllFit(rows, s) && Summable(rows, s) && Metric(s, c)
    ensures Reach(AggregatedAll(rows, s), c)
  {
    forall i | 0 <= i < |rows| && Aggregated(rows, s, i).value.Some?
      ensures c < |Aggregated(rows, s, i).value.value|
    {
      LeftIsRepresented(rows, s, c, i);
    }
  }

  lemma {:induction false} LeftTotalRepresented(rows: seq<Row>, s: Shape, c: nat, m: nat)
    requires AllFit(rows, s) && Summable(rows, s) && Metric(s, c) && m <= |rows|
    requires Reach(AggregatedAll(rows, s), c)
    ensures LeftTotal(AggregatedAll(rows, s), c, m) == RepresentedBelow(rows, s, c, m, |rows|)
  {
    if m > 0 {
      LeftTotalRepresented(rows, s, c, m - 1);
      LeftIsRepresented(rows, s, c, m - 1);
    }
  }

  /** Aggregation conserves the total of every metric. */
  lemma TotalsConserved(rows: seq<Row>, s: Shape, c: nat)
    requires AllFit(rows, s) && Summable(rows, s) && Metric(s, c)
    ensures forall r | r in rows + Aggregate(rows, s) :: c < |r|
    ensures ColumnTotal(Aggregate(rows, s), c) == ColumnTotal(rows, c)
  {
    var n := |rows|;
    assert rows[..n] == rows && AggregatedAll(rows, s)[..n] == AggregatedAll(rows, s);
    LeftReach(rows, s, c);
    KeptTotal(AggregatedAll(rows, s), c, n);
    LeftTotalRepresented(rows, s, c, n);
    RepresentedAll(rows, s, c, n);
  }

  // ----- Keys and columns -----

  /** A key is its columns' texts run together, so different columns can share one: then their
      rows are summed although a GROUP BY of the columns keeps them apart. */
  lemma KeysCollide()
    ensures var s := Shape(2, 1);
            var rows := [[Text("a"), Text("bc"), Number(1.0)], [Text("ab"), Text("c"), Number(2.0)]];
            && AllFit(rows, s) && rows[0][..2] != rows[1][..2]
            && KeyAt(rows, s, 0) == KeyAt(rows, s, 1) == Some("abc")
  {
    var s := Shape(2, 1);
    var a, b := [Text("a"), Text("bc"), Number(1.0)], [Text("ab"), Text("c"), Number(2.0)];
    assert RowKey(a, 0) == Some("") && RowKey(b, 0) == Some("");
    assert "" + "a" == "a" && "" + "ab" == "ab";
    assert RowKey(a, 1) == Some("a") && RowKey(b, 1) == Some("ab");
    assert "a" + "bc" == "abc" && "ab" + "c" == "abc";
    assert a[..2] == [Text("a"), Text("bc")] && b[..2] == [Text("ab"), Text("c")];
    assert a[..2][0] != b[..2][0];
  }

  predicate SameColumns(rows: seq<Row>, s: Shape, i: nat, j: nat)
    requires AllFit(rows, s) && i < |rows| && j < |rows|
  {
    assert rows[i] in rows && rows[j] in rows;
    rows[i][..s.cols] == rows[j][..s.cols]
  }

  /** What a GROUP BY of the key columns would leave: the first row of every combination, and
      the rows without a key. */
  predicate FirstOfColumns(rows: seq<Row>, s: Shape, i: nat)
    requires AllFit(rows, s) && i < |rows|
  {
    KeyAt(rows, s, i).None? || forall j | 0 <= j < i :: !SameColumns(rows, s, j, i)
  }

  lemma SameColumnsKey(rows: seq<Row>, s: Shape, i: nat, j: nat)
    requires AllFit(rows, s) && i < |rows| && j < |rows| && SameColumns(rows, s, i, j)
    ensures KeyAt(rows, s, i) == KeyAt(rows, s, j)
  {
    assert rows[i] in rows && rows[j] in rows;
    SameColumnsSameKey(rows[i], rows[j], s.cols);
  }

  predicate LeftAsByColumns(rows: seq<Row>, s: Shape, i: nat)
    requires AllFit(rows, s) && Summable(rows, s) && i < |rows|
  {
    Aggregated(rows, s, i).value.Some? <==> FirstOfColumns(rows, s, i)
  }

  predicate Collide(rows: seq<Row>, s: Shape, i: nat, j: nat)
    requires AllFit(rows, s) && i < |rows| && j < |rows|
  {
    KeyAt(rows, s, i).Some? && KeyAt(rows, s, i) == KeyAt(rows, s, j) && !SameColumns(rows, s, i, j)
  }

  /** The rows left are those of a GROUP BY of the columns exactly when no two rows with
      different columns share a key. */
  lemma GroupsByColumnsIff(rows: seq<Row>, s: Shape)
    requires AllFit(rows, s) && Summable(rows, s)
    ensures (forall i | 0 <= i < |rows| :: LeftAsByColumns(rows, s, i))
       <==> forall i, j | 0 <= i < j < |rows| :: !Collide(rows, s, i, j)
  {
    if i, j :| 0 <= i < j < |rows| && Collide(rows, s, i, j) {
      var f := CollisionLosesRow(rows, s, i, j);
      assert !LeftAsByColumns(rows, s, f);
    } else {
      forall i | 0 <= i < |rows| ensures LeftAsByColumns(rows, s, i) {
        NoCollisionKeepsRow(rows, s, i);
      }
    }
  }

  lemma NoCollisionKeepsRow(rows: seq<Row>, s: Shape, i: nat)
    requires AllFit(rows, s) && Summable(rows, s) && i < |rows|
    requires forall j | 0 <= j < i :: !Collide(rows, s, j, i)
    ensures LeftAsByColumns(rows, s, i)
  {
    LeftIfFirst(rows, s, i);
    forall j | 0 <= j < i && SameColumns(rows, s, j, i) ensures KeyAt(rows, s, j) == KeyAt(rows, s, i) {
      SameColumnsKey(rows, s, j, i);
    }
    forall j | 0 <= j < i && KeyAt(rows, s, i).Some? && KeyAt(rows, s, j) == KeyAt(rows, s, i)
      ensures SameColumns(rows, s, j, i)
    {
      assert !Collide(rows, s, j, i);
    }
  }

  /** Of the first rows with i's and with j's columns, one is summed into another row. */
  lemma CollisionLosesRow(rows: seq<Row>, s: Shape, i: nat, j: nat) returns (f: nat)
    requires AllFit(rows, s) && Summable(rows, s) && i < |rows| && j < |rows| && Collide(rows, s, i, j)
    ensures f < |rows| && FirstOfColumns(rows, s, f) && Aggregated(rows, s, f).value.None?
  {
    var a, b := FirstWithColumns(rows, s, i), FirstWithColumns(rows, s, j);
    SameColumnsKey(rows, s, a, i);
    SameColumnsKey(rows, s, b, j);
    assert a != b;
    RepresentativeOfSame(rows, s, a, b);
    f := if Representative(rows, s, a) == a then b else a;
    LeftIfFirst(rows, s, f);
  }

  ghost function FirstWithColumns(rows: seq<Row>, s: Shape, i: nat): (f: nat)
    requires AllFit(rows, s) && i < |rows|
    ensures f <= i && SameColumns(rows, s, f, i) && forall j | 0 <= j < f :: !SameColumns(rows, s, j, f)
  {
    if j :| 0 <= j < i && SameColumns(rows, s, j, i) then FirstWithColumns(rows, s, j) else i
  }
}
