/** solveFormula: evaluates a Boolean formula left to right over its tokens, with a count of
    tokens to skip after each bracket group.

    Tokens carry their brackets, as in "(B" and "C)"; the evaluator strips them from the slice
    it shares with its recursive calls, so its model returns the slice too. */
module BooleanFormula {

  type Vars = map<string, bool>

  function Look(vars: Vars, w: string): bool {
    w in vars && vars[w]
  }

  predicate Opens(v: string) {
    v != "" && v[0] == '('
  }

  predicate Closes(v: string) {
    v != "" && v[|v| - 1] == ')'
  }

  function StripClosing(v: string): (r: string)
    ensures |r| <= |v|
  {
    if Closes(v) then StripClosing(v[..|v| - 1]) else v
  }

  // ----- currentBlockLength -----

  function CountClosing(v: string): nat {
    if Closes(v) then 1 + CountClosing(v[..|v| - 1]) else 0
  }

  function CountOpening(v: string): nat {
    if Opens(v) then 1 + CountOpening(v[1..]) else 0
  }

  function BlockEnd(f: seq<string>, i: nat, n: int): int
    requires i <= |f|
    decreases |f| - i
  {
    if i == |f| then |f| - 1
    else if n == 0 then i - 1
    else BlockEnd(f, i + 1, n - CountClosing(f[i]) + CountOpening(StripClosing(f[i])))
  }

  function CurrentBlockLength(f: seq<string>): int {
    BlockEnd(f, 0, 1)
  }

  /** By how much the first n tokens open more brackets than they close. */
  function Opened(f: seq<string>, n: nat): int
    requires n <= |f|
  {
    if n == 0 then 0 else Opened(f, n - 1) + CountOpening(StripClosing(f[n - 1])) - CountClosing(f[n - 1])
  }

  /** A block that is open already ends with the first token after which no bracket of it is open
      any more, or with the last one. */
  lemma {:induction false} BlockEndIs(f: seq<string>, i: nat, n: int)
    requires i <= |f| && n == 1 + Opened(f, i) && forall k | 0 <= k < i :: 1 + Opened(f, k) != 0
    ensures var end := BlockEnd(f, i, n);
            && -1 <= end < |f| && i - 1 <= end
            && (forall k | 0 <= k <= end :: 1 + Opened(f, k) != 0)
            && (end < |f| - 1 ==> 1 + Opened(f, end + 1) == 0)
    decreases |f| - i
  {
    if i < |f| && n != 0 {
      BlockEndIs(f, i + 1, n - CountClosing(f[i]) + CountOpening(StripClosing(f[i])));
    }
  }

  /** One bracket more at either side of a token counts as one more. */
  lemma OneBracketCounts(v: string)
    ensures CountOpening("(" + v) == CountOpening(v) + 1 && (!Opens(v) ==> CountOpening(v) == 0)
    ensures CountClosing(v + ")") == CountClosing(v) + 1 && (!Closes(v) ==> CountClosing(v) == 0)
    ensures StripClosing(v + ")") == StripClosing(v) && (!Closes(v) ==> StripClosing(v) == v)
  {
    var a, b := "(" + v, v + ")";
    assert a[1..] == v && b[..|b| - 1] == v;
  }

  /** currentBlockLength. */
  method ComputeBlockLength(formula: seq<string>) returns (length: int)
    ensures length == CurrentBlockLength(formula)
  {
    var n := 1;
    for i := 0 to |formula|
      invariant CurrentBlockLength(formula) == BlockEnd(formula, i, n)
    {
      if n == 0 {
        return i - 1;
      }
      var v := formula[i];
      ghost var before := n;
      while Closes(v)
        invariant n - CountClosing(v) == before - CountClosing(formula[i])
        invariant StripClosing(v) == StripClosing(formula[i])
        decreases |v|
      {
        n := n - 1;
        v := v[..|v| - 1];
      }
      while Opens(v)
        invariant n + CountOpening(v) == before - CountClosing(formula[i]) + CountOpening(StripClosing(formula[i]))
        decreases |v|
      {
        n := n + 1;
        v := v[1..];
      }
    }
    return |formula| - 1;
  }

  // ----- solveFormula -----

  function Size(f: seq<string>): nat {
    if f == [] then 0 else |f[0]| + Size(f[1..])
  }

  lemma {:induction false} SizeAppend(a: seq<string>, b: seq<string>)
    ensures Size(a + b) == Size(a) + Size(b)
  {
    if a == [] {
      assert a + b == b;
    } else {
      assert (a + b)[1..] == a[1..] + b;
      SizeAppend(a[1..], b);
    }
  }

  /** The value, the skip count, and the slice as it is left. */
  datatype Solved = Solved(val: bool, skip: int, left: seq<string>)

  /** The loop from token i on. */
  function SolveFrom(f: seq<string>, i: nat, val: bool, skip: int, vars: Vars): (r: Solved)
    requires i <= |f|
    ensures |r.left| == |f| && Size(r.left) <= Size(f)
    decreases Size(f[i..]) + |f| - i
  {
    if i == |f| then Solved(val, CurrentBlockLength(f), f)
    else
      var v := f[i];
      assert f[i..][1..] == f[i + 1..];
      if skip > 0 then SolveFrom(f, i + 1, val, skip - 1, vars)
      else if v == "OR" then
        if val then Solved(val, CurrentBlockLength(f), f) else SolveFrom(f, i + 1, val, 0, vars)
      else if v == "AND" then
        if val then SolveFrom(f, i + 1, val, 0, vars) else Solved(val, CurrentBlockLength(f), f)
      else if Opens(v) then
        var sub := [v[1..]] + f[i + 1..];
        var inner := SolveFrom(sub, 0, false, 0, vars);
        var after := f[..i] + inner.left;
        GroupSizes(f, i, inner.left);
        SolveFrom(after, i + 1, inner.val, inner.skip, vars)
      else if Closes(v) then
        var left := StripClosing(v);
        ReplaceSize(f, i, left);
        Solved(Look(vars, left), i, f[i := left])
      else SolveFrom(f, i + 1, Look(vars, v), 0, vars)
  }

  lemma GroupSizes(f: seq<string>, i: nat, g: seq<string>)
    requires i < |f| && |g| == |f| - i
    ensures var after := f[..i] + g;
            && Size(f) == Size(f[..i]) + Size(f[i..]) && Size(after) == Size(f[..i]) + Size(g)
            && Size(after[i + 1..]) <= Size(g)
            && Size(f[i + 1..]) + |f[i]| == Size(f[i..])
  {
    var after := f[..i] + g;
    assert f == f[..i] + f[i..];
    SizeAppend(f[..i], f[i..]);
    SizeAppend(f[..i], g);
    assert after[i + 1..] == g[1..];
    assert f[i..][1..] == f[i + 1..];
  }

  lemma ReplaceSize(f: seq<string>, i: nat, t: string)
    requires i < |f| && |t| <= |f[i]|
    ensures Size(f[i := t]) <= Size(f)
  {
    GroupSizes(f, i, [t] + f[i + 1..]);
    assert f[i := t] == f[..i] + ([t] + f[i + 1..]);
  }

  function Solve(f: seq<string>, vars: Vars): Solved {
    SolveFrom(f, 0, false, 0, vars)
  }

  /** The case of an opening bracket at index i of the slice that starts at lo. */
  method SolveGroup(a: array<string>, lo: nat, i: nat, vars: Vars) returns (val: bool, skip: int)
    requires lo <= i < a.Length && Opens(a[i])
    modifies a
    ensures var f, k := old(a[lo..]), i - lo;
            var inner := Solve([f[k][1..]] + f[k + 1..], vars);
            val == inner.val && skip == inner.skip && a[lo..] == f[..k] + inner.left
    ensures a[..lo] == old(a[..lo])
    decreases Size(a[i..]) + a.Length - i, 0
  {
    ghost var f, k := a[lo..], i - lo;
    assert a[i..][1..] == a[i + 1..];
    assert f[k + 1..] == a[i + 1..];
    a[i] := a[i][1..];
    assert a[i..] == [f[k][1..]] + f[k + 1..];
    assert a[i..][1..] == f[k + 1..];
    ghost var head := a[..i];
    val, skip := SolveFormula(a, i, vars);
    assert a[lo..] == a[..i][lo..] + a[i..];
    assert head[lo..] == f[..k];
    assert a[..lo] == head[..lo];
  }

  /** The loop that takes the closing brackets off a token. */
  method StripAt(a: array<string>, lo: nat, i: nat)
    requires lo <= i < a.Length
    modifies a
    ensures a[i] == StripClosing(old(a[i])) && a[lo..] == old(a[lo..])[i - lo := a[i]] && a[..lo] == old(a[..lo])
  {
    while Closes(a[i])
      invariant StripClosing(a[i]) == StripClosing(old(a[i]))
      invariant a[lo..] == old(a[lo..])[i - lo := a[i]] && a[..lo] == old(a[..lo])
      decreases |a[i]|
    {
      a[i] := a[i][..|a[i]| - 1];
    }
  }

  lemma GroupShrinks(f: seq<string>, k: nat, vars: Vars)
    requires k < |f| && Opens(f[k])
    ensures Size(f[..k] + Solve([f[k][1..]] + f[k + 1..], vars).left) <= Size(f)
  {
    GroupSizes(f, k, Solve([f[k][1..]] + f[k + 1..], vars).left);
  }

  datatype Next = Continue | Break | Return

  /** One pass of the loop over the tokens, at index i of the slice that starts at lo. */
  method SolveToken(a: array<string>, lo: nat, i: nat, val: bool, skip: int, vars: Vars)
    returns (newVal: bool, newSkip: int, next: Next)
    requires lo <= i < a.Length
    modifies a
    ensures var before := SolveFrom(old(a[lo..]), i - lo, val, skip, vars);
            before == match next
                      case Continue => SolveFrom(a[lo..], i + 1 - lo, newVal, newSkip, vars)
                      case Break => Solved(newVal, CurrentBlockLength(a[lo..]), a[lo..])
                      case Return => Solved(newVal, newSkip, a[lo..])
    ensures Size(a[lo..]) <= Size(old(a[lo..])) && a[..lo] == old(a[..lo])
    decreases Size(a[i..]) + a.Length - i, 1
  {
    ghost var f := a[lo..];
    assert a[i] == f[i - lo] && a[i..] == f[i - lo..];
    var v := a[i];
    if skip > 0 {
      return val, skip - 1, Continue;
    }
    if v == "OR" {
      return val, 0, if val then Break else Continue;
    }
    if v == "AND" {
      return val, 0, if val then Continue else Break;
    }
    if Opens(v) {
      GroupShrinks(f, i - lo, vars);
      newVal, newSkip := SolveGroup(a, lo, i, vars);
      return newVal, newSkip, Continue;
    }
    if Closes(v) {
      ReplaceSize(f, i - lo, StripClosing(v));
      StripAt(a, lo, i);
      return Look(vars, a[i]), i - lo, Return;
    }
    return Look(vars, v), 0, Continue;
  }

  /** solveFormula on the slice of a that starts at lo. */
  method SolveFormula(a: array<string>, lo: nat, vars: Vars) returns (val: bool, skip: int)
    requires lo <= a.Length
    modifies a
    ensures Solved(val, skip, a[lo..]) == Solve(old(a[lo..]), vars)
    ensures a[..lo] == old(a[..lo])
    decreases Size(a[lo..]) + a.Length - lo, 2
  {
    val, skip := false, 0;
    for i := lo to a.Length
      invariant Size(a[lo..]) <= Size(old(a[lo..])) && a[..lo] == old(a[..lo])
      invariant Solve(old(a[lo..]), vars) == SolveFrom(a[lo..], i - lo, val, skip, vars)
    {
      SizeOfRest(a[lo..], i - lo);
      assert a[lo..][i - lo..] == a[i..];
      var next;
      val, skip, next := SolveToken(a, lo, i, val, skip, vars);
      if next.Break? {
        break;
      } else if next.Return? {
        return;
      }
    }
    skip := ComputeBlockLength(a[lo..]);
  }

  lemma SizeOfRest(f: seq<string>, i: nat)
    requires i <= |f|
    ensures Size(f[i..]) <= Size(f)
  {
    assert f == f[..i] + f[i..];
    SizeAppend(f[..i], f[i..]);
  }
}
