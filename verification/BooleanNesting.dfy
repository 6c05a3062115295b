/** solveFormula on nested groups: with one kind of operator throughout, its value is right
    however the groups are nested, although its skip counts need not be. */
module BooleanNesting {
  import opened BooleanFormula
  import opened BooleanMeaning

  // ----- Tokens -----

  /** The word of a token, without its brackets. */
  function Name(v: string): string {
    if Opens(v) then Name(v[1..]) else StripClosing(v)
  }

  /** By how much a token changes the depth of the evaluator's recursion: every opening bracket
      enters a call, and a token with closing brackets leaves one, however many it has. */
  function Level(v: string): int {
    if Opens(v) then 1 + Level(v[1..]) else if Closes(v) then -1 else 0
  }

  /** The k-th token of a formula with one kind of operator. */
  predicate IsToken(v: string, k: int, isAnd: bool) {
    if k % 2 == 0 then IsVar(Name(v)) else v == OpToken(isAnd)
  }

  predicate Alternates(f: seq<string>, isAnd: bool) {
    |f| % 2 == 1 && forall k | 0 <= k < |f| :: IsToken(f[k], k, isAnd)
  }

  function Levels(f: seq<string>, i: nat, j: nat): int
    requires i <= j <= |f|
  {
    if i == j then 0 else Levels(f, i, j - 1) + Level(f[j - 1])
  }

  /** All words from i on, up to but not including j, have that value. */
  predicate AllLook(f: seq<string>, i: nat, j: nat, b: bool, vars: Vars)
    requires j <= |f|
  {
    forall k | i <= k < j && k % 2 == 0 :: Look(vars, Name(f[k])) == b
  }

  predicate AllQuiet(f: seq<string>, n: nat)
    requires n <= |f|
  {
    forall k | 0 <= k < n :: Quiet(f[k])
  }

  /** The same tokens but for brackets. */
  predicate SameNames(f: seq<string>, g: seq<string>) {
    |f| == |g| && forall k | 0 <= k < |f| :: if k % 2 == 0 then Name(f[k]) == Name(g[k]) else f[k] == g[k]
  }

  lemma SameAlternates(f: seq<string>, g: seq<string>, isAnd: bool)
    requires Alternates(f, isAnd) && SameNames(f, g)
    ensures Alternates(g, isAnd)
  {
    forall k | 0 <= k < |g| ensures IsToken(g[k], k, isAnd) {
      assert IsToken(f[k], k, isAnd);
    }
  }

  lemma OperatorQuiet(isAnd: bool)
    ensures var v := OpToken(isAnd);
            Quiet(v) && CountClosing(v) == 0 && StripClosing(v) == v && CountOpening(v) == 0 && Level(v) == 0
  {
  }

  lemma WordQuiet(v: string)
    requires IsVar(Name(v)) && Quiet(v)
    ensures Name(v) == v && v != "AND" && v != "OR" && Level(v) == 0
  {
  }

  // ----- Skip counts -----

  /** A skip count after an early exit always stops at a word. */
  lemma {:induction false} BlockEndAtWord(f: seq<string>, i: nat, n: int, isAnd: bool)
    requires Alternates(f, isAnd) && i <= |f| && (n == 0 ==> i % 2 == 1)
    ensures 0 <= BlockEnd(f, i, n) < |f| && BlockEnd(f, i, n) % 2 == 0
    decreases |f| - i
  {
    if i < |f| && n != 0 {
      assert IsToken(f[i], i, isAnd);
      OperatorQuiet(isAnd);
      BlockEndAtWord(f, i + 1, n - CountClosing(f[i]) + CountOpening(StripClosing(f[i])), isAnd);
    }
  }

  lemma {:induction false} QuietBlock(f: seq<string>, i: nat)
    requires i <= |f| && AllQuiet(f, |f|)
    ensures BlockEnd(f, i, 1) == |f| - 1
    decreases |f| - i
  {
    if i < |f| {
      assert Quiet(f[i]);
      QuietBlock(f, i + 1);
    }
  }

  /** With the value that no operator continues with, the loop leaves at the next operator. */
  lemma Exits(f: seq<string>, i: nat, skip: nat, isAnd: bool, vars: Vars)
    requires Alternates(f, isAnd) && i + skip <= |f| && (i + skip) % 2 == 1
    ensures SolveFrom(f, i, !isAnd, skip, vars) == Solved(!isAnd, CurrentBlockLength(f), f)
  {
    SkipTokens(f, i, !isAnd, skip, vars);
    if i + skip < |f| {
      assert IsToken(f[i + skip], i + skip, isAnd);
    }
  }

  // ----- The loop from a word on -----

  /** A word has the value that decides the formula. */
  ghost predicate SomeLook(f: seq<string>, i: nat, b: bool, vars: Vars) {
    exists k | i <= k < |f| && k % 2 == 0 :: Look(vars, Name(f[k])) == b
  }

  /** What the loop from word i on leaves.  With the deciding value, some word has it.  With the
      other value, all words up to the skip count have that one, no bracket is left among them,
      and either the slice has been used up or the recursion has come back by one level. */
  ghost predicate Leaves(f: seq<string>, i: nat, r: Solved, isAnd: bool, vars: Vars) {
    && SameNames(f, r.left) && 0 <= r.skip < |f| && r.skip % 2 == 0
    && (r.val == !isAnd ==> SomeLook(f, i, !isAnd, vars))
    && (r.val == isAnd ==>
          && i <= r.skip && AllLook(f, i, r.skip + 1, isAnd, vars) && AllQuiet(r.left, r.skip + 1)
          && r.left[r.skip + 1..] == f[r.skip + 1..]
          && (r.skip == |f| - 1 || Levels(f, i, r.skip + 1) == -1))
  }

  lemma {:induction false} SolveLeaves(f: seq<string>, i: nat, val: bool, isAnd: bool, vars: Vars) returns (r: Solved)
    requires Alternates(f, isAnd) && i < |f| && i % 2 == 0 && AllQuiet(f, i)
    ensures r == SolveFrom(f, i, val, 0, vars) && Leaves(f, i, r, isAnd, vars)
    decreases Size(f[i..]) + |f| - i, 2
  {
    assert IsToken(f[i], i, isAnd);
    if Opens(f[i]) {
      r := SolveGroupLeaves(f, i, val, isAnd, vars);
    } else if Closes(f[i]) {
      r := ClosingLeaves(f, i, val, isAnd, vars);
    } else {
      r := WordLeaves(f, i, val, isAnd, vars);
    }
  }

  lemma ClosingLeaves(f: seq<string>, i: nat, val: bool, isAnd: bool, vars: Vars) returns (r: Solved)
    requires Alternates(f, isAnd) && i < |f| && i % 2 == 0 && AllQuiet(f, i)
    requires !Opens(f[i]) && Closes(f[i])
    ensures r == SolveFrom(f, i, val, 0, vars) && Leaves(f, i, r, isAnd, vars)
  {
    var v := f[i];
    var left := StripClosing(v);
    assert IsToken(v, i, isAnd) && Name(v) == left && IsVar(left);
    r := Solved(Look(vars, left), i, f[i := left]);
    assert r == SolveFrom(f, i, val, 0, vars);
    StripTwice(v);
    assert f[i := left][i + 1..] == f[i + 1..];
    assert Levels(f, i, i + 1) == Levels(f, i, i) + Level(v) == -1;
  }

  lemma {:induction false} StripTwice(v: string)
    ensures StripClosing(StripClosing(v)) == StripClosing(v)
    decreases |v|
  {
    if Closes(v) {
      StripTwice(v[..|v| - 1]);
    }
  }

  lemma OperatorContinues(f: seq<string>, pos: nat, isAnd: bool, vars: Vars)
    requires Alternates(f, isAnd) && pos < |f| && pos % 2 == 1
    ensures Quiet(f[pos]) && SolveFrom(f, pos, isAnd, 0, vars) == SolveFrom(f, pos + 1, isAnd, 0, vars)
  {
    assert IsToken(f[pos], pos, isAnd);
    OperatorQuiet(isAnd);
  }

  /** From word i up to the operator at pos, or the end, everything has the value that continues,
      and the slice that is left is as it was from there on. */
  ghost predicate DoneTo(f: seq<string>, i: nat, after: seq<string>, pos: nat, isAnd: bool, vars: Vars) {
    && SameNames(f, after) && i < pos <= |f| && pos % 2 == 1
    && AllQuiet(after, pos) && after[pos..] == f[pos..] && AllLook(f, i, pos, isAnd, vars)
    && (pos < |f| ==> Levels(f, i, pos) == 0)
  }

  /** The loop at an operator that continues, or at the end: everything up to there is done. */
  lemma {:induction false} RestLeaves(f: seq<string>, i: nat, after: seq<string>, pos: nat, isAnd: bool, vars: Vars)
    returns (r: Solved)
    requires Alternates(f, isAnd) && DoneTo(f, i, after, pos, isAnd, vars)
    ensures r == SolveFrom(after, pos, isAnd, 0, vars) && Leaves(f, i, r, isAnd, vars)
    decreases Size(f[i..]) + |f| - i, 0
  {
    if pos == |f| {
      r := EndLeaves(f, i, after, isAnd, vars);
    } else {
      RestStart(f, i, after, pos, isAnd, vars);
      r := SolveLeaves(after, pos + 1, isAnd, isAnd, vars);
      RestLeavesFrom(f, i, after, pos, r, isAnd, vars);
    }
  }

  lemma RestStart(f: seq<string>, i: nat, after: seq<string>, pos: nat, isAnd: bool, vars: Vars)
    requires Alternates(f, isAnd) && DoneTo(f, i, after, pos, isAnd, vars) && pos < |f|
    ensures Alternates(after, isAnd) && AllQuiet(after, pos + 1) && pos + 1 < |after| == |f|
    ensures SolveFrom(after, pos, isAnd, 0, vars) == SolveFrom(after, pos + 1, isAnd, 0, vars)
    ensures Size(after[pos + 1..]) <= Size(f[i..])
  {
    SameAlternates(f, after, isAnd);
    OperatorContinues(after, pos, isAnd, vars);
    SuffixSame(f, after, pos);
    SuffixSize(f, i, pos + 1);
  }

  lemma EndLeaves(f: seq<string>, i: nat, after: seq<string>, isAnd: bool, vars: Vars) returns (r: Solved)
    requires Alternates(f, isAnd) && DoneTo(f, i, after, |f|, isAnd, vars)
    ensures r == SolveFrom(after, |f|, isAnd, 0, vars) && Leaves(f, i, r, isAnd, vars)
  {
    QuietBlock(after, 0);
    r := Solved(isAnd, |f| - 1, after);
  }

  lemma SuffixSame(f: seq<string>, after: seq<string>, pos: nat)
    requires pos < |f| == |after| && after[pos..] == f[pos..]
    ensures after[pos + 1..] == f[pos + 1..] && forall k | pos <= k < |f| :: after[k] == f[k]
  {
    assert after[pos + 1..] == after[pos..][1..] && f[pos + 1..] == f[pos..][1..];
    assert forall k | pos <= k < |f| :: after[k] == after[pos..][k - pos] && f[k] == f[pos..][k - pos];
  }

  lemma RestLeavesFrom(f: seq<string>, i: nat, after: seq<string>, pos: nat, r: Solved, isAnd: bool, vars: Vars)
    requires Alternates(f, isAnd) && DoneTo(f, i, after, pos, isAnd, vars) && pos < |f|
    requires Leaves(after, pos + 1, r, isAnd, vars)
    ensures Leaves(f, i, r, isAnd, vars)
  {
    if r.val == isAnd {
      var n := r.skip + 1;
      SuffixSame(f, after, pos);
      assert AllLook(f, i, n, isAnd, vars);
      assert r.left[n..] == after[n..] == f[n..];
      LevelsSame(after, f, pos + 1, n);
      LevelsOver(f, i, pos, n, isAnd);
    } else {
      var k :| pos + 1 <= k < |f| && k % 2 == 0 && Look(vars, Name(after[k])) == !isAnd;
      assert Look(vars, Name(f[k])) == !isAnd;
    }
  }

  lemma LevelsOver(f: seq<string>, i: nat, pos: nat, n: nat, isAnd: bool)
    requires Alternates(f, isAnd) && i < pos < n <= |f| && pos % 2 == 1 && Levels(f, i, pos) == 0
    ensures Levels(f, i, n) == Levels(f, pos + 1, n)
  {
    LevelsJoin(f, i, pos, n);
    LevelsJoin(f, pos, pos + 1, n);
    assert IsToken(f[pos], pos, isAnd);
    OperatorQuiet(isAnd);
    assert Levels(f, pos, pos + 1) == Levels(f, pos, pos) + Level(f[pos]);
  }

  lemma {:induction false} LevelsSame(f: seq<string>, g: seq<string>, i: nat, j: nat)
    requires i <= j <= |f| == |g| && forall k | i <= k < j :: f[k] == g[k]
    ensures Levels(f, i, j) == Levels(g, i, j)
  {
    if i < j {
      LevelsSame(f, g, i, j - 1);
    }
  }

  lemma {:induction false} WordLeaves(f: seq<string>, i: nat, val: bool, isAnd: bool, vars: Vars) returns (r: Solved)
    requires Alternates(f, isAnd) && i < |f| && i % 2 == 0 && AllQuiet(f, i)
    requires Quiet(f[i])
    ensures r == SolveFrom(f, i, val, 0, vars) && Leaves(f, i, r, isAnd, vars)
    decreases Size(f[i..]) + |f| - i, 1
  {
    var v := f[i];
    assert IsToken(v, i, isAnd);
    WordQuiet(v);
    var now := Look(vars, v);
    assert SolveFrom(f, i, val, 0, vars) == SolveFrom(f, i + 1, now, 0, vars);
    if now != isAnd {
      Exits(f, i + 1, 0, isAnd, vars);
      BlockEndAtWord(f, 0, 1, isAnd);
      r := Solved(!isAnd, CurrentBlockLength(f), f);
    } else {
      assert Levels(f, i, i + 1) == Levels(f, i, i) + Level(v);
      r := RestLeaves(f, i, f, i + 1, isAnd, vars);
    }
  }

  lemma SubAlternates(f: seq<string>, i: nat, isAnd: bool)
    requires Alternates(f, isAnd) && i < |f| && i % 2 == 0 && Opens(f[i])
    ensures Alternates(SubSlice(f, i), isAnd)
  {
    var sub := SubSlice(f, i);
    forall k | 0 <= k < |sub| ensures IsToken(sub[k], k, isAnd) {
      assert IsToken(f[i + k], i + k, isAnd);
      assert k > 0 ==> sub[k] == f[i + k];
    }
  }

  lemma SubSize(f: seq<string>, i: nat)
    requires i < |f| && Opens(f[i])
    ensures Size(SubSlice(f, i)) + 1 == Size(f[i..])
  {
    assert f[i..][1..] == f[i + 1..] && (SubSlice(f, i))[1..] == f[i + 1..];
  }

  /** The slice that a call for the group at i works on. */
  function SubSlice(f: seq<string>, i: nat): seq<string>
    requires i < |f| && Opens(f[i])
  {
    [f[i][1..]] + f[i + 1..]
  }

  lemma GroupStepAt(f: seq<string>, i: nat, inner: Solved, val: bool, vars: Vars)
    requires i < |f| && Opens(f[i]) && inner == Solve(SubSlice(f, i), vars)
    ensures SolveFrom(f, i, val, 0, vars) == SolveFrom(f[..i] + inner.left, i + 1, inner.val, inner.skip, vars)
  {
    GroupStep(f[..i], f[i], f[i + 1..], val, vars);
    assert f == f[..i] + [f[i]] + f[i + 1..];
  }

  lemma GroupGoesOn(f: seq<string>, i: nat, inner: Solved, after: seq<string>, pos: nat, val: bool, vars: Vars)
    requires i < |f| && Opens(f[i]) && inner == Solve(SubSlice(f, i), vars)
    requires after == f[..i] + inner.left && inner.skip >= 0 && pos == i + 1 + inner.skip <= |f|
    ensures SolveFrom(f, i, val, 0, vars) == SolveFrom(after, pos, inner.val, 0, vars)
  {
    GroupStepAt(f, i, inner, val, vars);
    SkipTokens(after, i + 1, inner.val, inner.skip, vars);
  }

  lemma {:induction false} SolveGroupLeaves(f: seq<string>, i: nat, val: bool, isAnd: bool, vars: Vars)
    returns (r: Solved)
    requires Alternates(f, isAnd) && i < |f| && i % 2 == 0 && AllQuiet(f, i)
    requires Opens(f[i])
    ensures r == SolveFrom(f, i, val, 0, vars) && Leaves(f, i, r, isAnd, vars)
    decreases Size(f[i..]) + |f| - i, 1
  {
    var sub := SubSlice(f, i);
    SubAlternates(f, i, isAnd);
    SubSize(f, i);
    assert sub[0..] == sub;
    var inner := SolveLeaves(sub, 0, false, isAnd, vars);
    assert inner == Solve(sub, vars);
    if inner.val != isAnd {
      GroupStepAt(f, i, inner, val, vars);
      r := GroupExits(f, i, inner, isAnd, vars);
    } else {
      var after, pos := AfterGroup(f, i, inner, isAnd, vars);
      GroupGoesOn(f, i, inner, after, pos, val, vars);
      r := RestLeaves(f, i, after, pos, isAnd, vars);
    }
  }

  lemma GroupExits(f: seq<string>, i: nat, inner: Solved, isAnd: bool, vars: Vars) returns (r: Solved)
    requires Alternates(f, isAnd) && i < |f| && i % 2 == 0 && Opens(f[i]) && inner.val != isAnd
    requires Leaves(SubSlice(f, i), 0, inner, isAnd, vars)
    ensures r == SolveFrom(f[..i] + inner.left, i + 1, inner.val, inner.skip, vars) && Leaves(f, i, r, isAnd, vars)
  {
    var after := f[..i] + inner.left;
    AfterNames(f, i, inner.left);
    SameAlternates(f, after, isAnd);
    Exits(after, i + 1, inner.skip, isAnd, vars);
    BlockEndAtWord(after, 0, 1, isAnd);
    SubSomeLook(f, i, !isAnd, vars);
    r := Solved(!isAnd, CurrentBlockLength(after), after);
  }

  lemma SubSomeLook(f: seq<string>, i: nat, b: bool, vars: Vars)
    requires i < |f| && i % 2 == 0 && Opens(f[i]) && SomeLook(SubSlice(f, i), 0, b, vars)
    ensures SomeLook(f, i, b, vars)
  {
    var sub := SubSlice(f, i);
    var k :| 0 <= k < |sub| && k % 2 == 0 && Look(vars, Name(sub[k])) == b;
    assert Name(sub[k]) == Name(f[i + k]) && (i + k) % 2 == 0;
  }

  lemma AfterNames(f: seq<string>, i: nat, left: seq<string>)
    requires i < |f| && i % 2 == 0 && Opens(f[i]) && SameNames(SubSlice(f, i), left)
    ensures SameNames(f, f[..i] + left)
  {
    var sub, after := SubSlice(f, i), f[..i] + left;
    forall k | 0 <= k < |f|
      ensures if k % 2 == 0 then Name(f[k]) == Name(after[k]) else f[k] == after[k]
    {
      if k >= i {
        assert after[k] == left[k - i] && (k - i) % 2 == k % 2;
        assert k > i ==> sub[k - i] == f[k];
      }
    }
  }

  /** A group that has the value that continues: all is done up to the token it skips to. */
  lemma AfterGroup(f: seq<string>, i: nat, inner: Solved, isAnd: bool, vars: Vars)
    returns (after: seq<string>, pos: nat)
    requires i < |f| && i % 2 == 0 && AllQuiet(f, i) && Opens(f[i]) && inner.val == isAnd
    requires Leaves(SubSlice(f, i), 0, inner, isAnd, vars)
    ensures after == f[..i] + inner.left && pos == i + 1 + inner.skip && DoneTo(f, i, after, pos, isAnd, vars)
  {
    var sub, n := SubSlice(f, i), inner.skip + 1;
    after, pos := f[..i] + inner.left, i + n;
    AfterNames(f, i, inner.left);
    AfterRest(f, i, inner.left, n);
    AfterQuiet(f, i, inner.left, n);
    SubLook(f, i, n, isAnd, vars);
    if pos < |f| {
      SubLevels(f, i, n);
    }
  }

  lemma SubLook(f: seq<string>, i: nat, n: nat, b: bool, vars: Vars)
    requires i < |f| && i % 2 == 0 && Opens(f[i]) && n <= |f| - i && AllLook(SubSlice(f, i), 0, n, b, vars)
    ensures AllLook(f, i, i + n, b, vars)
  {
    var sub := SubSlice(f, i);
    forall k | i <= k < i + n && k % 2 == 0 ensures Look(vars, Name(f[k])) == b {
      assert Name(sub[k - i]) == Name(f[k]) && (k - i) % 2 == 0;
    }
  }

  lemma AfterQuiet(f: seq<string>, i: nat, left: seq<string>, n: nat)
    requires i < |f| && AllQuiet(f, i) && n <= |left| == |f| - i && AllQuiet(left, n)
    ensures AllQuiet(f[..i] + left, i + n)
  {
    var after := f[..i] + left;
    forall k | 0 <= k < i + n ensures Quiet(after[k]) {
      assert after[k] == if k < i then f[k] else left[k - i];
    }
  }

  lemma AfterRest(f: seq<string>, i: nat, left: seq<string>, n: nat)
    requires i < |f| && Opens(f[i]) && 1 <= n <= |left| == |f| - i && left[n..] == SubSlice(f, i)[n..]
    ensures (f[..i] + left)[i + n..] == f[i + n..]
  {
    assert (f[..i] + left)[i + n..] == left[n..];
    assert SubSlice(f, i)[n..] == f[i + n..];
  }

  lemma {:induction false} SubLevels(f: seq<string>, i: nat, n: nat)
    requires i < |f| && Opens(f[i]) && 1 <= n <= |f| - i
    ensures Levels(f, i, i + n) == 1 + Levels(SubSlice(f, i), 0, n)
  {
    var sub := SubSlice(f, i);
    if n == 1 {
      assert Levels(f, i, i + 1) == Levels(f, i, i) + Level(f[i]);
      assert Levels(sub, 0, 1) == Levels(sub, 0, 0) + Level(f[i][1..]);
    } else {
      SubLevels(f, i, n - 1);
      assert sub[n - 1] == f[i + n - 1];
      assert Levels(f, i, i + n) == Levels(f, i, i + n - 1) + Level(f[i + n - 1]);
    }
  }

  lemma SuffixSize(f: seq<string>, i: nat, j: nat)
    requires i <= j <= |f|
    ensures Size(f[j..]) <= Size(f[i..])
  {
    assert f[i..] == f[i..j] + f[j..];
    SizeAppend(f[i..j], f[j..]);
  }

  lemma {:induction false} LevelsJoin(f: seq<string>, i: nat, j: nat, k: nat)
    requires i <= j && j <= |f| && k <= |f|
    ensures j <= k ==> Levels(f, i, k) == Levels(f, i, j) + Levels(f, j, k)
    decreases k
  {
    if j < k {
      LevelsJoin(f, i, j, k - 1);
    }
  }

  // ----- Whole formulas -----

  /** No more calls are left than entered. */
  predicate NeverBelow(f: seq<string>) {
    forall k | 0 <= k <= |f| :: Levels(f, 0, k) >= 0
  }

  lemma SolveAlternating(f: seq<string>, isAnd: bool, vars: Vars)
    requires Alternates(f, isAnd) && NeverBelow(f)
    ensures Solve(f, vars).val == isAnd <==> AllLook(f, 0, |f|, isAnd, vars)
  {
    var r := SolveLeaves(f, 0, false, isAnd, vars);
    if r.val == isAnd {
      assert Levels(f, 0, r.skip + 1) >= 0;
    }
  }

  // ----- Formulas -----

  /** A formula with groups nested to any depth. */
  datatype Tree = Ends(node: Node) | Joins(node: Node, isAnd: bool, rest: Tree)
  datatype Node = Leaf(w: string) | Bracket(inner: Tree)

  function Bracketed(s: seq<string>): (t: seq<string>)
    requires s != []
    ensures |t| == |s|
  {
    var front := s[0 := "(" + s[0]];
    front[|s| - 1 := front[|s| - 1] + ")"]
  }

  function Tokens(t: Tree): (s: seq<string>)
    ensures s != []
  {
    match t
    case Ends(n) => NodeTokens(n)
    case Joins(n, op, rest) => NodeTokens(n) + [OpToken(op)] + Tokens(rest)
  }

  function NodeTokens(n: Node): (s: seq<string>)
    ensures s != []
  {
    match n
    case Leaf(w) => [w]
    case Bracket(t) => Bracketed(Tokens(t))
  }

  function TreeValue(t: Tree, vars: Vars): bool {
    match t
    case Ends(n) => NodeValue(n, vars)
    case Joins(n, op, rest) => Join(op, NodeValue(n, vars), TreeValue(rest, vars))
  }

  function NodeValue(n: Node, vars: Vars): bool {
    match n
    case Leaf(w) => Look(vars, w)
    case Bracket(t) => TreeValue(t, vars)
  }

  /** Its words name variables, and all its operators are of that kind. */
  predicate OneKind(t: Tree, isAnd: bool) {
    match t
    case Ends(n) => OneKindNode(n, isAnd)
    case Joins(n, op, rest) => op == isAnd && OneKindNode(n, isAnd) && OneKind(rest, isAnd)
  }

  predicate OneKindNode(n: Node, isAnd: bool) {
    match n
    case Leaf(w) => IsVar(w)
    case Bracket(t) => OneKind(t, isAnd)
  }

  /** What the tokens of such a formula amount to. */
  ghost predicate Reads(s: seq<string>, isAnd: bool, value: bool, vars: Vars) {
    && Alternates(s, isAnd) && NeverBelow(s)
    && (AllLook(s, 0, |s|, isAnd, vars) <==> value == isAnd)
  }

  lemma {:induction false} NameOfOpened(v: string)
    ensures Name("(" + v) == Name(v) && Level("(" + v) == 1 + Level(v)
  {
    assert ("(" + v)[1..] == v;
  }

  lemma {:induction false} NameOfClosed(v: string)
    ensures Name(v + ")") == Name(v) && Level(v + ")") >= Level(v) - 1
    decreases |v|
  {
    if Opens(v) {
      assert (v + ")")[1..] == v[1..] + ")";
      NameOfClosed(v[1..]);
    } else {
      assert (v + ")")[..|v|] == v;
    }
  }

  lemma BracketedReads(s: seq<string>, isAnd: bool, value: bool, vars: Vars)
    requires Reads(s, isAnd, value, vars)
    ensures Reads(Bracketed(s), isAnd, value, vars)
  {
    var front, b := s[0 := "(" + s[0]], Bracketed(s);
    NameOfOpened(s[0]);
    NameOfClosed(front[|s| - 1]);
    assert SameNames(s, b);
    SameAlternates(s, b, isAnd);
    assert forall k | 0 <= k < |s| && k % 2 == 0 :: Name(b[k]) == Name(s[k]);
    forall k | 0 <= k <= |b| ensures Levels(b, 0, k) >= 0 {
      BracketedLevels(s, k);
      assert Levels(s, 0, k) >= 0;
    }
  }

  lemma {:induction false} BracketedLevels(s: seq<string>, k: nat)
    requires s != [] && k <= |s|
    ensures Levels(Bracketed(s), 0, k) >= Levels(s, 0, k) + if 0 < k < |s| then 1 else 0
  {
    if k > 0 {
      var b, front := Bracketed(s), s[0 := "(" + s[0]];
      BracketedLevels(s, k - 1);
      NameOfOpened(s[0]);
      NameOfClosed(front[k - 1]);
      assert b[k - 1] == if k == |s| then front[k - 1] + ")" else front[k - 1];
      assert Levels(b, 0, k) == Levels(b, 0, k - 1) + Level(b[k - 1]);
      assert Levels(s, 0, k) == Levels(s, 0, k - 1) + Level(s[k - 1]);
    }
  }

  lemma JoinedReads(a: seq<string>, b: seq<string>, isAnd: bool, x: bool, y: bool, vars: Vars)
    requires Reads(a, isAnd, x, vars) && Reads(b, isAnd, y, vars)
    ensures Reads(a + [OpToken(isAnd)] + b, isAnd, Join(isAnd, x, y), vars)
  {
    var s, n := a + [OpToken(isAnd)] + b, |a| + 1;
    forall k | 0 <= k < |s| ensures IsToken(s[k], k, isAnd) {
      if k < |a| {
        assert IsToken(a[k], k, isAnd);
      } else if k >= n {
        assert IsToken(b[k - n], k - n, isAnd) && (k - n) % 2 == k % 2;
      }
    }
    JoinedLook(a, b, isAnd, vars);
    forall k | 0 <= k <= |s| ensures Levels(s, 0, k) >= 0 {
      JoinedLevels(a, b, isAnd, k);
      assert Levels(a, 0, if k < |a| then k else |a|) >= 0;
      assert k >= n ==> Levels(b, 0, k - n) >= 0;
    }
  }

  lemma JoinedLook(a: seq<string>, b: seq<string>, isAnd: bool, vars: Vars)
    requires |a| % 2 == 1
    ensures var s := a + [OpToken(isAnd)] + b;
            AllLook(s, 0, |s|, isAnd, vars) <==> AllLook(a, 0, |a|, isAnd, vars) && AllLook(b, 0, |b|, isAnd, vars)
  {
    var s, n := a + [OpToken(isAnd)] + b, |a| + 1;
    assert forall k | 0 <= k < |a| :: s[k] == a[k];
    assert forall k | 0 <= k < |b| :: s[n + k] == b[k] && (n + k) % 2 == k % 2;
    if AllLook(s, 0, |s|, isAnd, vars) {
      forall k | 0 <= k < |b| && k % 2 == 0 ensures Look(vars, Name(b[k])) == isAnd {
        assert s[n + k] == b[k];
      }
    }
    if AllLook(a, 0, |a|, isAnd, vars) && AllLook(b, 0, |b|, isAnd, vars) {
      forall k | 0 <= k < |s| && k % 2 == 0 ensures Look(vars, Name(s[k])) == isAnd {
        if k >= n {
          assert s[n + (k - n)] == b[k - n];
        }
      }
    }
  }

  lemma {:induction false} JoinedLevels(a: seq<string>, b: seq<string>, isAnd: bool, k: nat)
    requires k <= |a| + 1 + |b|
    ensures var n := |a| + 1;
            Levels(a + [OpToken(isAnd)] + b, 0, k)
            == if k <= |a| then Levels(a, 0, k) else Levels(a, 0, |a|) + Levels(b, 0, k - n)
  {
    var s, n := a + [OpToken(isAnd)] + b, |a| + 1;
    if k > 0 {
      JoinedLevels(a, b, isAnd, k - 1);
      OperatorQuiet(isAnd);
      assert s[k - 1] == if k <= |a| then a[k - 1] else if k == n then OpToken(isAnd) else b[k - 1 - n];
    }
  }

  lemma {:induction false} TreeReads(t: Tree, isAnd: bool, vars: Vars)
    requires OneKind(t, isAnd)
    ensures Reads(Tokens(t), isAnd, TreeValue(t, vars), vars)
  {
    match t
    case Ends(n) => NodeReads(n, isAnd, vars);
    case Joins(n, op, rest) =>
      NodeReads(n, isAnd, vars);
      TreeReads(rest, isAnd, vars);
      JoinedReads(NodeTokens(n), Tokens(rest), isAnd, NodeValue(n, vars), TreeValue(rest, vars), vars);
  }

  lemma {:induction false} NodeReads(n: Node, isAnd: bool, vars: Vars)
    requires OneKindNode(n, isAnd)
    ensures Reads(NodeTokens(n), isAnd, NodeValue(n, vars), vars)
  {
    match n
    case Leaf(w) =>
      assert Name(w) == w;
      assert Levels([w], 0, 1) == Levels([w], 0, 0) + Level(w);
    case Bracket(t) =>
      TreeReads(t, isAnd, vars);
      BracketedReads(Tokens(t), isAnd, TreeValue(t, vars), vars);
  }

  /** With one kind of operator throughout, the evaluator returns the value of the formula,
      however its groups are nested: a value that an operator does not continue with is the
      value of the whole, so a skip count that is off can do no harm. */
  lemma SolveOneKind(t: Tree, isAnd: bool, vars: Vars)
    requires OneKind(t, isAnd)
    ensures Solve(Tokens(t), vars).val == TreeValue(t, vars)
  {
    TreeReads(t, isAnd, vars);
    SolveAlternating(Tokens(t), isAnd, vars);
  }
}
