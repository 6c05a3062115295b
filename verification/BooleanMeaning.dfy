/** What solveFormula computes for formulas whose groups are not nested. */
module BooleanMeaning {
  import opened BooleanFormula

  /** A group: words joined by operators. */
  datatype Flat = One(w: string) | More(w: string, isAnd: bool, rest: Flat)

  datatype Item = Plain(w: string) | Group(g: Flat)

  /** A formula: words and groups joined by operators. */
  datatype Formula = Last(item: Item) | Then(item: Item, isAnd: bool, rest: Formula)

  function OpToken(isAnd: bool): string {
    if isAnd then "AND" else "OR"
  }

  /** A word that names a variable. */
  predicate IsVar(w: string) {
    w != "AND" && w != "OR" && !Opens(w) && !Closes(w)
  }

  predicate FlatVars(g: Flat) {
    IsVar(g.w) && (g.More? ==> FlatVars(g.rest))
  }

  predicate ItemVars(t: Item) {
    match t
    case Plain(w) => IsVar(w)
    case Group(g) => FlatVars(g)
  }

  predicate FormulaVars(f: Formula) {
    ItemVars(f.item) && (f.Then? ==> FormulaVars(f.rest))
  }

  /** The tokens of a group after its opening bracket; the closing one is part of the last. */
  function FlatTokens(g: Flat): (t: seq<string>)
    ensures t != []
  {
    match g
    case One(w) => [w + ")"]
    case More(w, op, rest) => [w, OpToken(op)] + FlatTokens(rest)
  }

  function ItemTokens(t: Item): seq<string> {
    match t
    case Plain(w) => [w]
    case Group(g) => ["(" + FlatTokens(g)[0]] + FlatTokens(g)[1..]
  }

  function FormulaTokens(f: Formula): seq<string> {
    match f
    case Last(t) => ItemTokens(t)
    case Then(t, op, rest) => ItemTokens(t) + [OpToken(op)] + FormulaTokens(rest)
  }

  // ----- Values: operators associate to the right -----

  function Join(isAnd: bool, a: bool, b: bool): bool {
    if isAnd then a && b else a || b
  }

  /** A variable that is not there is false. */
  predicate IsTrue(w: string, vars: Vars) {
    w in vars && vars[w]
  }

  function FlatValue(g: Flat, vars: Vars): bool {
    match g
    case One(w) => IsTrue(w, vars)
    case More(w, op, rest) => Join(op, IsTrue(w, vars), FlatValue(rest, vars))
  }

  function ItemValue(t: Item, vars: Vars): bool {
    match t
    case Plain(w) => IsTrue(w, vars)
    case Group(g) => FlatValue(g, vars)
  }

  function FormulaValue(f: Formula, vars: Vars): bool {
    match f
    case Last(t) => ItemValue(t, vars)
    case Then(t, op, rest) => Join(op, ItemValue(t, vars), FormulaValue(rest, vars))
  }

  // ----- Skip counts -----

  predicate Quiet(v: string) {
    !Opens(v) && !Closes(v)
  }

  /** A block ends with the first token that closes it. */
  lemma {:induction false} BlockEndsAt(f: seq<string>, i: nat, j: nat)
    requires i <= j < |f| && forall k | i <= k < j :: Quiet(f[k])
    requires CountClosing(f[j]) == 1 && CountOpening(StripClosing(f[j])) == 0
    ensures BlockEnd(f, i, 1) == j
    decreases j - i
  {
    if i < j {
      BlockEndsAt(f, i + 1, j);
    }
  }

  lemma ClosingToken(w: string)
    requires IsVar(w)
    ensures Closes(w + ")") && !Opens(w + ")") && StripClosing(w + ")") == w
    ensures CountClosing(w + ")") == 1 && CountOpening(w) == 0
    ensures w + ")" != "AND" && w + ")" != "OR"
  {
    var t := w + ")";
    assert t[..|t| - 1] == w;
    assert t[|t| - 1] == ')';
  }

  /** Only the last token closes anything. */
  ghost predicate ClosesAtEnd(t: seq<string>) {
    && t != []
    && (forall k | 0 <= k < |t| - 1 :: Quiet(t[k]))
    && CountClosing(t[|t| - 1]) == 1 && CountOpening(StripClosing(t[|t| - 1])) == 0
  }

  lemma ClosesAtEndLonger(a: string, b: string, t: seq<string>)
    requires ClosesAtEnd(t) && Quiet(a) && Quiet(b)
    ensures ClosesAtEnd([a, b] + t)
  {
  }

  lemma {:induction false} FlatTokensEnd(g: Flat)
    requires FlatVars(g)
    ensures ClosesAtEnd(FlatTokens(g))
  {
    match g
    case One(w) => ClosingToken(w);
    case More(w, op, rest) =>
      FlatTokensEnd(rest);
      ClosesAtEndLonger(w, OpToken(op), FlatTokens(rest));
  }

  lemma BlockLengthOf(pre: seq<string>, g: Flat, rest: seq<string>)
    requires FlatVars(g) && forall k | 0 <= k < |pre| :: Quiet(pre[k])
    ensures CurrentBlockLength(pre + FlatTokens(g) + rest) == |pre| + |FlatTokens(g)| - 1
  {
    FlatTokensEnd(g);
    BlockEndsAt(pre + FlatTokens(g) + rest, 0, |pre| + |FlatTokens(g)| - 1);
  }

  /** Inside a group: the value is the group's, and the skip count is the index of the group's
      last token, whether that was reached or the evaluation stopped before it. */
  lemma {:induction false} SolveFlat(pre: seq<string>, g: Flat, rest: seq<string>, val: bool, vars: Vars)
    requires FlatVars(g) && forall k | 0 <= k < |pre| :: Quiet(pre[k])
    ensures var n := |pre| + |FlatTokens(g)|;
            var r := SolveFrom(pre + FlatTokens(g) + rest, |pre|, val, 0, vars);
            r.val == FlatValue(g, vars) && r.skip == n - 1 && r.left[n..] == rest
    decreases g
  {
    var f := pre + FlatTokens(g) + rest;
    match g
    case One(w) =>
      ClosingToken(w);
      assert f[|pre|] == w + ")";
      assert f[|pre| := w][|pre| + 1..] == rest;
    case More(w, op, more) =>
      var pre' := pre + [w, OpToken(op)];
      assert f == pre' + FlatTokens(more) + rest;
      assert f[|pre|] == w && f[|pre| + 1] == OpToken(op);
      assert SolveFrom(f, |pre|, val, 0, vars) == SolveFrom(f, |pre| + 1, Look(vars, w), 0, vars);
      if op == Look(vars, w) {
        SolveFlat(pre', more, rest, Look(vars, w), vars);
      } else {
        BlockLengthOf(pre, g, rest);
        assert f[|pre| + |FlatTokens(g)|..] == rest;
      }
  }

  lemma {:induction false} SkipTokens(f: seq<string>, i: nat, val: bool, skip: nat, vars: Vars)
    requires i + skip <= |f|
    ensures SolveFrom(f, i, val, skip, vars) == SolveFrom(f, i + skip, val, 0, vars)
    decreases skip
  {
    if skip > 0 {
      SkipTokens(f, i + 1, val, skip - 1, vars);
    }
  }

  /** The step at an opening bracket. */
  lemma GroupStep(pre: seq<string>, v: string, tail: seq<string>, val: bool, vars: Vars)
    requires Opens(v)
    ensures var inner := Solve([v[1..]] + tail, vars);
            SolveFrom(pre + inner.left, |pre| + 1, inner.val, inner.skip, vars)
            == SolveFrom(pre + [v] + tail, |pre|, val, 0, vars)
  {
    var f := pre + [v] + tail;
    assert f[|pre|] == v && f[..|pre|] == pre && f[|pre| + 1..] == tail;
    assert v != "AND" && v != "OR";
  }

  /** A group solved: its value, and the slice behind it untouched. */
  lemma SolveGroup(g: Flat, rest: seq<string>, vars: Vars) returns (inner: Solved, done: seq<string>)
    requires FlatVars(g)
    ensures inner == Solve(FlatTokens(g) + rest, vars)
    ensures inner.val == FlatValue(g, vars) && inner.skip == |FlatTokens(g)| - 1
    ensures inner.left == done + rest && |done| == |FlatTokens(g)|
  {
    assert [] + FlatTokens(g) + rest == FlatTokens(g) + rest;
    SolveFlat([], g, rest, false, vars);
    inner := Solve(FlatTokens(g) + rest, vars);
    done := inner.left[..|FlatTokens(g)|];
  }

  lemma GroupTokens(pre: seq<string>, g: Flat, rest: seq<string>)
    ensures var v, tail := "(" + FlatTokens(g)[0], FlatTokens(g)[1..] + rest;
            && Opens(v) && [v[1..]] + tail == FlatTokens(g) + rest
            && pre + ItemTokens(Group(g)) + rest == pre + [v] + tail
  {
    var t := FlatTokens(g);
    var v, tail := "(" + t[0], t[1..] + rest;
    assert v[1..] == t[0];
    assert [t[0]] + tail == t + rest;
    assert pre + ([v] + t[1..]) + rest == pre + [v] + tail;
  }

  /** After a group the loop goes on behind the tokens it skips. */
  lemma GroupLeaves(pre: seq<string>, v: string, tail: seq<string>, done: seq<string>, rest: seq<string>, val: bool,
                    vars: Vars)
    requires Opens(v)
    requires var inner := Solve([v[1..]] + tail, vars);
             inner.left == done + rest && inner.skip == |done| - 1 >= 0
    ensures SolveFrom(pre + [v] + tail, |pre|, val, 0, vars)
         == SolveFrom(pre + done + rest, |pre + done|, Solve([v[1..]] + tail, vars).val, 0, vars)
  {
    var inner := Solve([v[1..]] + tail, vars);
    GroupStep(pre, v, tail, val, vars);
    Reassociate(pre, done, rest);
    SkipTokens(pre + done + rest, |pre| + 1, inner.val, inner.skip, vars);
  }

  lemma SolveGroupItem(pre: seq<string>, g: Flat, rest: seq<string>, val: bool, vars: Vars) returns (pre': seq<string>)
    requires FlatVars(g)
    ensures |pre'| == |pre| + |FlatTokens(g)|
    ensures SolveFrom(pre + ItemTokens(Group(g)) + rest, |pre|, val, 0, vars)
         == SolveFrom(pre' + rest, |pre'|, FlatValue(g, vars), 0, vars)
  {
    var inner, done := SolveGroup(g, rest, vars);
    pre' := pre + done;
    GroupTokens(pre, g, rest);
    GroupLeaves(pre, "(" + FlatTokens(g)[0], FlatTokens(g)[1..] + rest, done, rest, val, vars);
  }

  lemma Reassociate(a: seq<string>, b: seq<string>, c: seq<string>)
    ensures a + (b + c) == a + b + c
  {
  }

  /** After an item the loop goes on right behind it with the item's value; what follows has
      not been touched. */
  lemma SolveItem(pre: seq<string>, t: Item, rest: seq<string>, val: bool, vars: Vars) returns (pre': seq<string>)
    requires ItemVars(t)
    ensures |pre'| == |pre| + |ItemTokens(t)|
    ensures SolveFrom(pre + ItemTokens(t) + rest, |pre|, val, 0, vars)
         == SolveFrom(pre' + rest, |pre'|, ItemValue(t, vars), 0, vars)
  {
    match t
    case Plain(w) =>
      pre' := pre + [w];
      assert (pre' + rest)[|pre|] == w;
    case Group(g) =>
      pre' := SolveGroupItem(pre, g, rest, val, vars);
  }

  /** The step at an operator: on, or out with the value so far. */
  lemma OperatorStep(pre: seq<string>, op: bool, rest: seq<string>, val: bool, vars: Vars)
    ensures var r := SolveFrom(pre + ([OpToken(op)] + rest), |pre|, val, 0, vars);
            if op == val then r == SolveFrom(pre + [OpToken(op)] + rest, |pre| + 1, val, 0, vars) else r.val == val
  {
    var f := pre + ([OpToken(op)] + rest);
    assert f[|pre|] == OpToken(op) && f == pre + [OpToken(op)] + rest;
  }

  lemma OperatorAfter(pre: seq<string>, item: seq<string>, op: string, rest: seq<string>)
    ensures pre + (item + [op] + rest) == pre + item + ([op] + rest)
  {
  }

  /** An item and the operator after it. */
  lemma SolveItemAndOperator(pre: seq<string>, t: Item, op: bool, rest: seq<string>, val: bool, vars: Vars)
    returns (pre': seq<string>)
    requires ItemVars(t)
    ensures var r := SolveFrom(pre + (ItemTokens(t) + [OpToken(op)] + rest), |pre|, val, 0, vars);
            if op == ItemValue(t, vars) then r == SolveFrom(pre' + rest, |pre'|, ItemValue(t, vars), 0, vars)
            else r.val == ItemValue(t, vars)
  {
    var after := [OpToken(op)] + rest;
    OperatorAfter(pre, ItemTokens(t), OpToken(op), rest);
    var p := SolveItem(pre, t, after, val, vars);
    OperatorStep(p, op, rest, ItemValue(t, vars), vars);
    pre' := p + [OpToken(op)];
  }

  lemma {:induction false} SolveFormulaFrom(pre: seq<string>, f: Formula, val: bool, vars: Vars)
    requires FormulaVars(f)
    ensures SolveFrom(pre + FormulaTokens(f), |pre|, val, 0, vars).val == FormulaValue(f, vars)
    decreases f
  {
    match f
    case Last(t) =>
      var pre' := SolveItem(pre, t, [], val, vars);
      assert pre + ItemTokens(t) + [] == pre + FormulaTokens(f);
    case Then(t, op, rest) =>
      var pre' := SolveItemAndOperator(pre, t, op, FormulaTokens(rest), val, vars);
      if op == ItemValue(t, vars) {
        SolveFormulaFrom(pre', rest, ItemValue(t, vars), vars);
      }
  }

  /** The evaluator returns the right-associated value of every formula whose groups are not
      nested. */
  lemma SolveIsValue(f: Formula, vars: Vars)
    requires FormulaVars(f)
    ensures Solve(FormulaTokens(f), vars).val == FormulaValue(f, vars)
  {
    assert [] + FormulaTokens(f) == FormulaTokens(f);
    SolveFormulaFrom([], f, false, vars);
  }

  // ----- When that is the usual value -----

  function Items(f: Formula): seq<Item> {
    match f
    case Last(t) => [t]
    case Then(t, _, rest) => [t] + Items(rest)
  }

  predicate OnlyOperator(f: Formula, isAnd: bool) {
    f.Then? ==> f.isAnd == isAnd && OnlyOperator(f.rest, isAnd)
  }

  /** A formula with one kind of operator between its items is their conjunction or
      disjunction, so the association does not matter. */
  lemma {:induction false} OneOperatorValue(f: Formula, isAnd: bool, vars: Vars)
    requires OnlyOperator(f, isAnd)
    ensures FormulaValue(f, vars) ==
              if isAnd then forall t | t in Items(f) :: ItemValue(t, vars)
              else exists t | t in Items(f) :: ItemValue(t, vars)
  {
    match f
    case Last(t) => assert t in Items(f);
    case Then(t, _, rest) =>
      OneOperatorValue(rest, isAnd, vars);
      assert forall x :: x in Items(f) <==> x == t || x in Items(rest);
  }

  function Words(g: Flat): seq<string> {
    match g
    case One(w) => [w]
    case More(w, _, rest) => [w] + Words(rest)
  }

  predicate OnlyOperatorIn(g: Flat, isAnd: bool) {
    g.More? ==> g.isAnd == isAnd && OnlyOperatorIn(g.rest, isAnd)
  }

  /** The same inside a group. */
  lemma {:induction false} OneOperatorGroup(g: Flat, isAnd: bool, vars: Vars)
    requires OnlyOperatorIn(g, isAnd)
    ensures FlatValue(g, vars) ==
              if isAnd then forall w | w in Words(g) :: IsTrue(w, vars) else exists w | w in Words(g) :: IsTrue(w, vars)
  {
    match g
    case One(w) => assert w in Words(g);
    case More(w, _, rest) =>
      OneOperatorGroup(rest, isAnd, vars);
      assert forall x :: x in Words(g) <==> x == w || x in Words(rest);
  }

  /** With nested groups the value can be lost: ((A AND B)) OR C is false for a false A and a
      true C, because the group that is left early takes the rest of the formula with it. */
  lemma NestedGroupIsLost(vars: Vars)
    requires !Look(vars, "A") && Look(vars, "C")
    ensures !Solve(["((A", "AND", "B))", "OR", "C"], vars).val
  {
    var tail := ["AND", "B))", "OR", "C"];
    LeftEarly(vars);
    NestedBlockLength();
    assert ["A"] + tail == ["A", "AND", "B))", "OR", "C"];
    OneBracketMore("A", tail, vars);
    OneBracketMore("(A", tail, vars);
    assert ["((A"] + tail == ["((A", "AND", "B))", "OR", "C"];
    assert "(" + "(A" == "((A" && "(" + "A" == "(A";
  }

  /** Left at the first operator, with a skip count to the end of the formula. */
  lemma LeftEarly(vars: Vars)
    requires !Look(vars, "A")
    ensures var f := ["A"] + ["AND", "B))", "OR", "C"];
            Solve(f, vars) == Solved(false, 4, f)
  {
    var f := ["A", "AND", "B))", "OR", "C"];
    NestedBlockLength();
    assert f == ["A"] + ["AND", "B))", "OR", "C"];
    assert Solve(f, vars) == SolveFrom(f, 1, false, 0, vars);
  }

  /** A bracket before a formula whose skip count reaches its end changes nothing. */
  lemma OneBracketMore(v: string, tail: seq<string>, vars: Vars)
    requires Solve([v] + tail, vars).skip == |tail|
    requires Solve([v] + tail, vars) == Solved(false, |tail|, ["A"] + tail)
    requires CurrentBlockLength(["A"] + tail) == |tail|
    ensures Solve(["(" + v] + tail, vars) == Solved(false, |tail|, ["A"] + tail)
  {
    var w, f := "(" + v, ["A"] + tail;
    assert w[1..] == v && [] + [w] + tail == [w] + tail && [] + f == f;
    GroupStep([], w, tail, false, vars);
    SkipTokens(f, 1, false, |tail|, vars);
  }

  lemma NestedBlockLength()
    ensures CurrentBlockLength(["A", "AND", "B))", "OR", "C"]) == 4
  {
    var f := ["A", "AND", "B))", "OR", "C"];
    assert "B))"[..2] == "B)" && "B)"[..1] == "B";
    assert CountClosing("B") == 0 && CountClosing("B)") == 1 && CountClosing("B))") == 2;
    assert StripClosing("B") == "B" && StripClosing("B)") == "B" && StripClosing("B))") == "B";
    assert BlockEnd(f, 5, -1) == 4 && BlockEnd(f, 4, -1) == 4 && BlockEnd(f, 3, -1) == 4;
    assert BlockEnd(f, 2, 1) == 4 && BlockEnd(f, 1, 1) == 4;
  }
}
