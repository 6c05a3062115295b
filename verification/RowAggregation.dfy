/** aggregateRows: rows with equal keys are summed into the first of them, in place. */
module RowAggregation {
  import opened GoMaps
  import opened Wrappers

  /** A result value; Other is any type that is neither text, truth value nor number. */
  datatype Value = Nil | Text(s: string) | Bool(b: bool) | Number(x: real) | Other

  type Row = seq<Value>

  /** The number of key columns, and of metric columns after them. */
  datatype Shape = Shape(cols: nat, metrics: nat)

  predicate Fits(row: Row, s: Shape) {
    |row| >= s.cols + s.metrics
  }

  // ----- Keys -----

  function ValueText(v: Value): Option<string> {
    match v
    case Nil => Some("<nil>")
    case Text(t) => Some(t)
    case Bool(b) => Some(if b then "true" else "false")
    case _ => None
  }

  /** GetRowKey: the texts of the first n columns run together; None when one has no text. */
  function RowKey(row: Row, n: nat): Option<string>
    requires n <= |row|
  {
    if n == 0 then Some("")
    else
      var before :- RowKey(row, n - 1);
      var t :- ValueText(row[n - 1]);
      Some(before + t)
  }

  /** A row has a key exactly when its key columns hold nothing but text, truth values and nil. */
  lemma {:induction false} RowHasKey(row: Row, n: nat)
    requires n <= |row|
    ensures RowKey(row, n).Some? <==> forall c | 0 <= c < n :: row[c].Nil? || row[c].Text? || row[c].Bool?
  {
    if n > 0 {
      RowHasKey(row, n - 1);
    }
  }

  /** What one more column adds to the key. */
  lemma KeyGrows(row: Row, n: nat)
    requires n < |row| && RowKey(row, n + 1).Some?
    ensures RowKey(row, 0) == Some("") && RowKey(row, n).Some?
    ensures var before, after := RowKey(row, n).value, RowKey(row, n + 1).value;
            && (row[n].Nil? ==> after == before + "<nil>")
            && (row[n].Text? ==> after == before + row[n].s)
            && (row[n] == Bool(true) ==> after == before + "true")
            && (row[n] == Bool(false) ==> after == before + "false")
  {
  }

  predicate AllFit(rows: seq<Row>, s: Shape) {
    forall r | r in rows :: Fits(r, s)
  }

  function KeyAt(rows: seq<Row>, s: Shape, i: nat): Option<string>
    requires i < |rows| && AllFit(rows, s)
  {
    assert rows[i] in rows;
    RowKey(rows[i], s.cols)
  }

  /** The indices below n of the rows with key k, in order. */
  function Members(rows: seq<Row>, s: Shape, k: string, n: nat): (members: seq<nat>)
    requires n <= |rows| && AllFit(rows, s)
    ensures forall j | 0 <= j < |members| :: members[j] < n && KeyAt(rows, s, members[j]) == Some(k)
    ensures forall i, j | 0 <= i < j < |members| :: members[i] < members[j]
  {
    if n == 0 then []
    else
      var before := Members(rows, s, k, n - 1);
      if KeyAt(rows, s, n - 1) == Some(k) then before + [n - 1] else before
  }

  lemma {:induction false} MembersComplete(rows: seq<Row>, s: Shape, k: string, n: nat, i: nat)
    requires i < n <= |rows| && AllFit(rows, s) && KeyAt(rows, s, i) == Some(k)
    ensures i in Members(rows, s, k, n)
  {
    if i == n - 1 {
      assert Members(rows, s, k, n)[|Members(rows, s, k, n - 1)|] == i;
    } else {
      MembersComplete(rows, s, k, n - 1, i);
      var before := Members(rows, s, k, n - 1);
      var at :| 0 <= at < |before| && before[at] == i;
      assert Members(rows, s, k, n)[at] == i;
    }
  }

  function Group(rows: seq<Row>, s: Shape, k: string): (group: seq<nat>)
    requires AllFit(rows, s)
  {
    Members(rows, s, k, |rows|)
  }

  // ----- Sums -----

  /** a with the first m metrics of b added; an error when one of them is not a number. */
  function AddMetrics(a: Row, b: Row, s: Shape, m: nat): (r: Result<Row>)
    requires Fits(a, s) && Fits(b, s) && m <= s.metrics
    ensures r.Ok? ==> |r.value| == |a| && Fits(r.value, s)
  {
    if m == 0 then Ok(a)
    else
      var before :- AddMetrics(a, b, s, m - 1);
      var c := s.cols + m - 1;
      if a[c].Number? && b[c].Number? then Ok(before[c := Number(a[c].x + b[c].x)])
      else Err("value is not float or int")
  }

  lemma {:induction false} AddMetricsAt(a: Row, b: Row, s: Shape, m: nat)
    requires Fits(a, s) && Fits(b, s) && m <= s.metrics
    ensures AddMetrics(a, b, s, m).Ok? <==>
              forall c | s.cols <= c < s.cols + m :: a[c].Number? && b[c].Number?
    ensures AddMetrics(a, b, s, m).Ok? ==>
              var r := AddMetrics(a, b, s, m).value;
              && (forall c | s.cols <= c < s.cols + m :: r[c] == Number(a[c].x + b[c].x))
              && (forall c | 0 <= c < |a| && !(s.cols <= c < s.cols + m) :: r[c] == a[c])
  {
    if m > 0 {
      AddMetricsAt(a, b, s, m - 1);
    }
  }

  /** The rows of a group added up, left to right. */
  function Folded(rows: seq<Row>, s: Shape, group: seq<nat>): (r: Result<Row>)
    requires AllFit(rows, s) && |group| > 0 && forall j | 0 <= j < |group| :: group[j] < |rows|
    ensures r.Ok? ==> Fits(r.value, s)
  {
    var last := group[|group| - 1];
    assert rows[last] in rows;
    if |group| == 1 then Ok(rows[last])
    else
      var before :- Folded(rows, s, group[..|group| - 1]);
      AddMetrics(before, rows[last], s, s.metrics)
  }

  /** What is left of row i: itself when it has no key or is alone with it, the sum of its group
      when it is the first of several, and nothing otherwise. */
  function Aggregated(rows: seq<Row>, s: Shape, i: nat): Result<Option<Row>>
    requires AllFit(rows, s) && i < |rows|
  {
    match KeyAt(rows, s, i)
    case None => Ok(Some(rows[i]))
    case Some(k) =>
      var group := Group(rows, s, k);
      MembersComplete(rows, s, k, |rows|, i);
      var sum :- Folded(rows, s, group);
      Ok(if group[0] == i then Some(sum) else None)
  }

  /** All groups can be added up. */
  predicate Summable(rows: seq<Row>, s: Shape)
    requires AllFit(rows, s)
  {
    forall i | 0 <= i < |rows| :: Aggregated(rows, s, i).Ok?
  }

  function Kept(rows: seq<Option<Row>>): seq<Row> {
    if rows == [] then []
    else Kept(rows[..|rows| - 1]) + (if rows[|rows| - 1].Some? then [rows[|rows| - 1].value] else [])
  }

  function AggregatedAll(rows: seq<Row>, s: Shape): seq<Option<Row>>
    requires AllFit(rows, s) && Summable(rows, s)
  {
    seq(|rows|, i requires 0 <= i < |rows| => Aggregated(rows, s, i).value)
  }

  /** The result of the aggregation. */
  function Aggregate(rows: seq<Row>, s: Shape): seq<Row>
    requires AllFit(rows, s) && Summable(rows, s)
  {
    Kept(AggregatedAll(rows, s))
  }

  // ----- The program -----

  /** The rows of the slice; nil entries only appear as the aggregation goes on. */
  ghost predicate Full(rows: seq<Option<Row>>, s: Shape) {
    forall i | 0 <= i < |rows| :: rows[i].Some? && Fits(rows[i].value, s)
  }

  function Values(rows: seq<Option<Row>>): seq<Row>
    requires forall i | 0 <= i < |rows| :: rows[i].Some?
  {
    seq(|rows|, i requires 0 <= i < |rows| => rows[i].value)
  }

  /** m is the index of the first n rows: every key with the rows that have it. */
  ghost predicate Indexed(m: map<string, seq<nat>>, rows: seq<Row>, s: Shape, n: nat)
    requires n <= |rows| && AllFit(rows, s)
  {
    && (forall k | k in m :: m[k] == Members(rows, s, k, n) != [])
    && forall k | k !in m :: Members(rows, s, k, n) == []
  }

  /** The index with row n added under its key. */
  function IndexWith(m: map<string, seq<nat>>, k: string, n: nat): map<string, seq<nat>> {
    m[k := (if k in m then m[k] else []) + [n]]
  }

  lemma IndexedStep(m: map<string, seq<nat>>, rows: seq<Row>, s: Shape, n: nat)
    requires AllFit(rows, s) && n < |rows| && Indexed(m, rows, s, n)
    ensures var key := KeyAt(rows, s, n);
            Indexed(if key.Some? then IndexWith(m, key.value, n) else m, rows, s, n + 1)
  {
    var key := KeyAt(rows, s, n);
    forall k ensures Members(rows, s, k, n + 1) == Members(rows, s, k, n) + if key == Some(k) then [n] else [] {
      assert Members(rows, s, k, n) + [] == Members(rows, s, k, n);
    }
  }

  /** The first loop: rowsMap. */
  method IndexRows(rows: seq<Row>, s: Shape) returns (rowsMap: map<string, seq<nat>>)
    requires AllFit(rows, s)
    ensures Indexed(rowsMap, rows, s, |rows|)
  {
    rowsMap := map[];
    for n := 0 to |rows|
      invariant Indexed(rowsMap, rows, s, n)
    {
      assert rows[n] in rows;
      IndexedStep(rowsMap, rows, s, n);
      var key := RowKey(rows[n], s.cols);
      if key.Some? {
        rowsMap := IndexWith(rowsMap, key.value, n);
      }
    }
  }

  lemma EveryKeyIndexed(m: map<string, seq<nat>>, rows: seq<Row>, s: Shape)
    requires AllFit(rows, s) && Indexed(m, rows, s, |rows|)
    ensures forall i | 0 <= i < |rows| && KeyAt(rows, s, i).Some? :: KeyAt(rows, s, i).value in m
  {
    forall i | 0 <= i < |rows| && KeyAt(rows, s, i).Some? ensures KeyAt(rows, s, i).value in m {
      MembersComplete(rows, s, KeyAt(rows, s, i).value, |rows|, i);
    }
  }

  /** The loop over the metrics of two rows, in place. */
  method AddRow(rows: array<Option<Row>>, s: Shape, first: nat, other: nat) returns (ok: bool)
    requires first < rows.Length && other < rows.Length && first != other
    requires rows[first].Some? && Fits(rows[first].value, s) && rows[other].Some? && Fits(rows[other].value, s)
    modifies rows
    ensures ok <==> AddMetrics(old(rows[first].value), old(rows[other].value), s, s.metrics).Ok?
    ensures ok ==> rows[first] == Some(AddMetrics(old(rows[first].value), old(rows[other].value), s, s.metrics).value)
    ensures forall i | 0 <= i < rows.Length && i != first :: rows[i] == old(rows[i])
  {
    ghost var a, b := rows[first].value, rows[other].value;
    for m := 0 to s.metrics
      invariant forall i | 0 <= i < rows.Length && i != first :: rows[i] == old(rows[i])
      invariant AddMetrics(a, b, s, m).Ok? && rows[first] == Some(AddMetrics(a, b, s, m).value)
    {
      var c := s.cols + m;
      AddMetricsAt(a, b, s, m);
      AddMetricsAt(a, b, s, s.metrics);
      var row1, row2 := rows[first].value[c], rows[other].value[c];
      if !row1.Number? || !row2.Number? {
        return false;
      }
      rows[first] := Some(rows[first].value[c := Number(row1.x + row2.x)]);
    }
    return true;
  }

  /** One row of a group: added into the first, and set to nil. */
  method SumRow(rows: array<Option<Row>>, s: Shape, group: seq<nat>, n: nat, ghost given: seq<Row>) returns (ok: bool)
    requires AllFit(given, s) && |given| == rows.Length && 1 <= n < |group|
    requires (forall j | 0 <= j < |group| :: group[j] < rows.Length) && group[0] != group[n]
    requires Folded(given, s, group[..n]).Ok? && rows[group[0]] == Some(Folded(given, s, group[..n]).value)
    requires rows[group[n]] == Some(given[group[n]])
    modifies rows
    ensures ok <==> Folded(given, s, group[..n + 1]).Ok?
    ensures ok ==> rows[group[0]] == Some(Folded(given, s, group[..n + 1]).value) && rows[group[n]] == None
    ensures forall i | 0 <= i < rows.Length && i != group[0] && i != group[n] :: rows[i] == old(rows[i])
  {
    FoldStep(given, s, group, n);
    ok := AddRow(rows, s, group[0], group[n]);
    if ok {
      rows[group[n]] := None;
    }
  }

  /** One group: its rows are added into the first and set to nil. */
  method SumGroup(rows: array<Option<Row>>, s: Shape, group: seq<nat>, ghost given: seq<Row>) returns (ok: bool)
    requires AllFit(given, s) && |given| == rows.Length && |group| > 0
    requires forall j | 0 <= j < |group| :: group[j] < rows.Length && rows[group[j]] == Some(given[group[j]])
    requires forall i, j | 0 <= i < j < |group| :: group[i] < group[j]
    modifies rows
    ensures ok <==> Folded(given, s, group).Ok?
    ensures ok ==> rows[group[0]] == Some(Folded(given, s, group).value)
    ensures ok ==> forall j | 1 <= j < |group| :: rows[group[j]] == None
    ensures forall i | 0 <= i < rows.Length && i !in group :: rows[i] == old(rows[i])
  {
    assert group[..1] == [group[0]];
    for n := 1 to |group|
      invariant Folded(given, s, group[..n]).Ok? && rows[group[0]] == Some(Folded(given, s, group[..n]).value)
      invariant forall j | 1 <= j < n :: rows[group[j]] == None
      invariant forall j | n <= j < |group| :: rows[group[j]] == Some(given[group[j]])
      invariant forall i | 0 <= i < rows.Length && i !in group :: rows[i] == old(rows[i])
    {
      ok := SumRow(rows, s, group, n, given);
      if !ok {
        FoldFails(given, s, group, n + 1);
        return;
      }
    }
    assert group[..|group|] == group;
    return true;
  }

  lemma FoldStep(rows: seq<Row>, s: Shape, group: seq<nat>, n: nat)
    requires AllFit(rows, s) && 1 <= n < |group| && forall j | 0 <= j < |group| :: group[j] < |rows|
    requires Folded(rows, s, group[..n]).Ok?
    ensures rows[group[n]] in rows
    ensures Folded(rows, s, group[..n + 1])
         == AddMetrics(Folded(rows, s, group[..n]).value, rows[group[n]], s, s.metrics)
  {
    assert group[..n + 1][..n] == group[..n];
  }

  lemma {:induction false} FoldFails(rows: seq<Row>, s: Shape, group: seq<nat>, n: nat)
    requires AllFit(rows, s) && 1 <= n <= |group| && forall j | 0 <= j < |group| :: group[j] < |rows|
    requires Folded(rows, s, group[..n]).Err?
    ensures Folded(rows, s, group).Err?
    decreases |group| - n
  {
    if n < |group| {
      assert group[..n + 1][..n] == group[..n];
      FoldFails(rows, s, group, n + 1);
    } else {
      assert group[..n] == group;
    }
  }

  /** While groups are summed: those whose key is still to come are as given. */
  ghost predicate Underway(rows: seq<Option<Row>>, given: seq<Row>, s: Shape, todo: set<string>)
    requires AllFit(given, s)
  {
    && |rows| == |given|
    && forall i | 0 <= i < |rows| ::
         if KeyAt(given, s, i).Some? && KeyAt(given, s, i).value in todo then rows[i] == Some(given[i])
         else Aggregated(given, s, i) == Ok(rows[i])
  }

  lemma GroupDone(before: seq<Option<Row>>, after: seq<Option<Row>>, given: seq<Row>, s: Shape, todo: set<string>,
                  k: string)
    requires AllFit(given, s) && k in todo && Underway(before, given, s, todo) && |after| == |before|
    requires Group(given, s, k) != [] && Folded(given, s, Group(given, s, k)).Ok?
    requires var group := Group(given, s, k);
             && after[group[0]] == Some(Folded(given, s, group).value)
             && (forall j | 1 <= j < |group| :: after[group[j]] == None)
             && forall i | 0 <= i < |after| && i !in group :: after[i] == before[i]
    ensures Underway(after, given, s, todo - {k})
  {
    var group := Group(given, s, k);
    forall i | 0 <= i < |after|
      ensures if KeyAt(given, s, i).Some? && KeyAt(given, s, i).value in todo - {k} then after[i] == Some(given[i])
              else Aggregated(given, s, i) == Ok(after[i])
    {
      if KeyAt(given, s, i) == Some(k) {
        MembersComplete(given, s, k, |given|, i);
        var j :| 0 <= j < |group| && group[j] == i;
        assert j > 0 ==> group[0] < group[j];
      } else {
        assert i !in group;
      }
    }
  }

  /** The second loop: group after group, in any order. */
  method SumGroups(rows: array<Option<Row>>, s: Shape, rowsMap: map<string, seq<nat>>, ghost given: seq<Row>)
    returns (ok: bool)
    requires AllFit(given, s) && Indexed(rowsMap, given, s, |given|)
    requires Underway(rows[..], given, s, rowsMap.Keys)
    modifies rows
    ensures ok <==> Summable(given, s)
    ensures ok ==> Underway(rows[..], given, s, {})
  {
    var todo := rowsMap.Keys;
    while todo != {}
      invariant todo <= rowsMap.Keys
      invariant Underway(rows[..], given, s, todo)
    {
      var key := Next(todo);
      var group := rowsMap[key];
      ghost var before := rows[..];
      if |group| > 1 {
        ok := SumGroup(rows, s, group, given);
        if !ok {
          assert Aggregated(given, s, group[0]).Err?;
          return;
        }
      }
      GroupDone(before, rows[..], given, s, todo, key);
      todo := todo - {key};
    }
    return true;
  }

  /** The last loop: the rows that are not nil. */
  method Filter(rows: array<Option<Row>>) returns (filtered: seq<Row>)
    ensures filtered == Kept(rows[..])
  {
    filtered := [];
    for n := 0 to rows.Length
      invariant filtered == Kept(rows[..n])
    {
      assert rows[..n + 1][..n] == rows[..n];
      if rows[n].Some? {
        filtered := filtered + [rows[n].value];
      }
    }
    assert rows[..rows.Length] == rows[..];
  }

  lemma AllDone(rows: seq<Option<Row>>, given: seq<Row>, s: Shape)
    requires AllFit(given, s) && Summable(given, s) && Underway(rows, given, s, {})
    ensures rows == AggregatedAll(given, s)
  {
  }

  /** aggregateRows.  It fails exactly when a group of several rows has a metric that is not a
      number; otherwise its result is Aggregate of the rows given, whatever the order in which
      the keys are taken. */
  method AggregateRows(rows: array<Option<Row>>, s: Shape) returns (result: Result<seq<Row>>)
    requires Full(rows[..], s)
    modifies rows
    ensures var given := Values(old(rows[..]));
            && AllFit(given, s)
            && (result.Ok? <==> Summable(given, s))
            && (result.Ok? ==> result.value == Aggregate(given, s))
  {
    var given := Values(rows[..]);
    var rowsMap := IndexRows(given, s);
    EveryKeyIndexed(rowsMap, given, s);
    var ok := SumGroups(rows, s, rowsMap, given);
    if !ok {
      return Err("value is not float or int");
    }
    AllDone(rows[..], given, s);
    var filtered := Filter(rows);
    return Ok(filtered);
  }
}
