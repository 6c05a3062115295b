/** The tree behind the compiler's output.

    Translate is the SQL tree the compiler produces without ever building it: a division
    takes only the last factor before the slash as its dividend.  The compiler's output is
    shown to be that tree's text, so it can be read back, evaluated and un-compiled. */
module FormulaTranslation {
  import opened Wrappers
  import opened FormulaSyntax
  import opened SqlReader
  import opened FormulaCompiler

  type Vars = map<string, string>

  // ----- The tree behind the output -----

  function Translate(e: Expr, vars: Vars): SqlExpr {
    match e
    case Single(t) => SSingle(TranslateTerm(t, vars))
    case Sum(l, op, r) => SSum(Translate(l, vars), op, TranslateTerm(r, vars))
  }

  function TranslateTerm(t: Term, vars: Vars): SqlTerm {
    match t
    case Fac(f) => SFac(TranslateFactor(f, vars))
    case Prod(l, Mul, r) => SProd(TranslateTerm(l, vars), TranslateFactor(r, vars))
    case Prod(l, Div, r) => DivideLast(TranslateTerm(l, vars), TranslateFactor(r, vars))
  }

  function TranslateFactor(f: Factor, vars: Vars): SqlFactor {
    SFactor(f.sign, TranslatePrim(f.prim, vars))
  }

  function TranslatePrim(p: Prim, vars: Vars): SqlPrim {
    match p
    case Word(w) => SText(WordSql(w, vars))
    case Group(e) => SGroup(Translate(e, vars))
  }

  function LastPrim(t: SqlTerm): SqlPrim {
    match t
    case SFac(f) => f.prim
    case SProd(_, f) => f.prim
  }

  function WithLast(t: SqlTerm, p: SqlPrim): SqlTerm {
    match t
    case SFac(f) => SFac(f.(prim := p))
    case SProd(l, f) => SProd(l, f.(prim := p))
  }

  function PrimExpr(p: SqlPrim): SqlExpr {
    SSingle(SFac(SFactor(NoSign, p)))
  }

  /** t with its last primary divided by d. */
  function DivideLast(t: SqlTerm, d: SqlFactor): SqlTerm {
    WithLast(t, SSafeDivide(PrimExpr(LastPrim(t)), SSingle(SFac(d))))
  }

  // ----- The elements the compiler keeps for a tree -----

  function SignElems(s: Sign): seq<Str> {
    match s
    case NoSign => []
    case Pos => [[PlusSign]]
    case Neg => [[MinusSign]]
  }

  function ExprElems(e: SqlExpr): seq<Str> {
    match e
    case SSingle(t) => TermElems(t)
    case SSum(l, op, r) => ExprElems(l) + [[AddSym(op)]] + TermElems(r)
  }

  function TermElems(t: SqlTerm): seq<Str> {
    match t
    case SFac(f) => FactorElems(f)
    case SProd(l, r) => TermElems(l) + [[TimesSign]] + FactorElems(r)
  }

  function FactorElems(f: SqlFactor): seq<Str> {
    SignElems(f.sign) + PrimElems(f.prim)
  }

  function PrimElems(p: SqlPrim): seq<Str> {
    match p
    case SText(s) => [[Text(s)]]
    case SGroup(e) => [[Open], ExprSyms(e), [Close]]
    case SSafeDivide(n, d) => [[SafeDiv]] + ExprElems(n) + [[Comma]] + ExprElems(d) + [[Close]]
  }

  /** The elements of a term before its last primary. */
  function TermHead(t: SqlTerm): seq<Str> {
    match t
    case SFac(f) => SignElems(f.sign)
    case SProd(l, f) => TermElems(l) + [[TimesSign]] + SignElems(f.sign)
  }

  lemma TermSplit(t: SqlTerm)
    ensures TermElems(t) == TermHead(t) + PrimElems(LastPrim(t))
  {
  }

  lemma {:induction false} FlattenAppend(a: seq<Str>, b: seq<Str>)
    ensures Flatten(a + b) == Flatten(a) + Flatten(b)
  {
    if a == [] {
      assert a + b == b;
    } else {
      assert (a + b)[1..] == a[1..] + b;
      FlattenAppend(a[1..], b);
    }
  }

  lemma {:induction false} FlattenExpr(e: SqlExpr)
    ensures Flatten(ExprElems(e)) == ExprSyms(e)
  {
    match e
    case SSingle(t) => FlattenTerm(t);
    case SSum(l, op, r) =>
      FlattenExpr(l);
      FlattenTerm(r);
      FlattenAppend(ExprElems(l) + [[AddSym(op)]], TermElems(r));
      FlattenAppend(ExprElems(l), [[AddSym(op)]]);
  }

  lemma {:induction false} FlattenTerm(t: SqlTerm)
    ensures Flatten(TermElems(t)) == TermSyms(t)
  {
    match t
    case SFac(f) => FlattenFactor(f);
    case SProd(l, r) =>
      FlattenTerm(l);
      FlattenFactor(r);
      FlattenAppend(TermElems(l) + [[TimesSign]], FactorElems(r));
      FlattenAppend(TermElems(l), [[TimesSign]]);
  }

  lemma {:induction false} FlattenFactor(f: SqlFactor)
    ensures Flatten(FactorElems(f)) == FactorSyms(f)
  {
    FlattenAppend(SignElems(f.sign), PrimElems(f.prim));
    FlattenPrim(f.prim);
  }

  lemma {:induction false} FlattenPrim(p: SqlPrim)
    ensures Flatten(PrimElems(p)) == PrimSyms(p)
  {
    match p
    case SText(s) =>
    case SGroup(e) =>
      FlattenThree([Open], ExprSyms(e), [Close]);
    case SSafeDivide(n, d) =>
      FlattenExpr(n);
      FlattenExpr(d);
      FlattenCall(ExprElems(n), ExprElems(d));
  }

  lemma FlattenOne(a: Str)
    ensures Flatten([a]) == a
  {
    assert [a][1..] == [];
  }

  lemma FlattenThree(a: Str, b: Str, c: Str)
    ensures Flatten([a, b, c]) == a + b + c
  {
    assert [a, b, c] == [a] + [b] + [c];
    FlattenAppend([a] + [b], [c]);
    FlattenAppend([a], [b]);
    FlattenOne(a);
    FlattenOne(b);
    FlattenOne(c);
  }

  lemma FlattenCall(n: seq<Str>, d: seq<Str>)
    ensures Flatten([[SafeDiv]] + n + [[Comma]] + d + [[Close]])
         == [SafeDiv] + Flatten(n) + [Comma] + Flatten(d) + [Close]
  {
    FlattenAppend([[SafeDiv]] + n + [[Comma]] + d, [[Close]]);
    FlattenAppend([[SafeDiv]] + n + [[Comma]], d);
    FlattenAppend([[SafeDiv]] + n, [[Comma]]);
    FlattenAppend([[SafeDiv]], n);
    FlattenOne([SafeDiv]);
    FlattenOne([Comma]);
    FlattenOne([Close]);
  }

  // ----- The backward walk -----

  /** No text of a tree is a lone bracket, so a joined element is never taken for one. */
  lemma {:induction false} ExprSymsNoBracket(e: SqlExpr)
    ensures |ExprSyms(e)| > 0
    ensures |ExprSyms(e)| == 1 ==> ExprSyms(e)[0].Text?
  {
    match e
    case SSingle(t) => TermSymsNoBracket(t);
    case SSum(l, _, r) => ExprSymsNoBracket(l); TermSymsNoBracket(r);
  }

  lemma {:induction false} TermSymsNoBracket(t: SqlTerm)
    ensures |TermSyms(t)| > 0
    ensures |TermSyms(t)| == 1 ==> TermSyms(t)[0].Text?
  {
    match t
    case SFac(f) => assert |PrimSyms(f.prim)| > 0;
    case SProd(l, _) => TermSymsNoBracket(l);
  }

  /** Walking back over one element. */
  lemma BackOver(out: seq<Str>, s: Str, depth: int)
    ensures BackIndex(out + [s], depth)
         == if s == [Close] then BackIndex(out, depth + 1)
            else
              var d := if s == [Open] || s == [SafeDiv] then depth - 1 else depth;
              if d == 0 then |out| else BackIndex(out, d)
  {
    assert (out + [s])[..|out|] == out;
  }

  /** Walking back at positive depth, a whole tree is skipped. */
  lemma {:induction false} BackOverExpr(e: SqlExpr, out: seq<Str>, depth: int)
    requires depth > 0
    ensures BackIndex(out + ExprElems(e), depth) == BackIndex(out, depth)
  {
    match e
    case SSingle(t) => BackOverTerm(t, out, depth);
    case SSum(l, op, r) =>
      var out' := out + ExprElems(l);
      assert out + ExprElems(e) == (out' + [[AddSym(op)]]) + TermElems(r);
      BackOverTerm(r, out' + [[AddSym(op)]], depth);
      BackOver(out', [AddSym(op)], depth);
      BackOverExpr(l, out, depth);
  }

  lemma {:induction false} BackOverTerm(t: SqlTerm, out: seq<Str>, depth: int)
    requires depth > 0
    ensures BackIndex(out + TermElems(t), depth) == BackIndex(out, depth)
  {
    match t
    case SFac(f) => BackOverFactor(f, out, depth);
    case SProd(l, r) =>
      var out' := out + TermElems(l);
      assert out + TermElems(t) == (out' + [[TimesSign]]) + FactorElems(r);
      BackOverFactor(r, out' + [[TimesSign]], depth);
      BackOver(out', [TimesSign], depth);
      BackOverTerm(l, out, depth);
  }

  lemma {:induction false} BackOverFactor(f: SqlFactor, out: seq<Str>, depth: int)
    requires depth > 0
    ensures BackIndex(out + FactorElems(f), depth) == BackIndex(out, depth)
  {
    assert out + FactorElems(f) == (out + SignElems(f.sign)) + PrimElems(f.prim);
    BackOverPrim(f.prim, out + SignElems(f.sign), depth);
    if f.sign.NoSign? {
      assert out + SignElems(f.sign) == out;
    } else {
      assert out + SignElems(f.sign) == out + [SignElems(f.sign)[0]];
      BackOver(out, SignElems(f.sign)[0], depth);
    }
  }

  /** The same for a primary; and at depth zero, where the walk of a division starts, it
      stops exactly at the primary's first element. */
  lemma {:induction false} BackOverPrim(p: SqlPrim, out: seq<Str>, depth: int)
    requires depth >= 0
    ensures BackIndex(out + PrimElems(p), depth) == if depth == 0 then |out| else BackIndex(out, depth)
  {
    match p
    case SText(s) =>
      BackOver(out, [Text(s)], depth);
    case SGroup(e) =>
      var s := ExprSyms(e);
      assert out + PrimElems(p) == out + [[Open]] + [s] + [[Close]];
      BackOver(out + [[Open]] + [s], [Close], depth);
      ExprSymsNoBracket(e);
      BackOver(out + [[Open]], s, depth + 1);
      BackOver(out, [Open], depth + 1);
    case SSafeDivide(a, d) =>
      var out' := out + [[SafeDiv]] + ExprElems(a);
      assert out + PrimElems(p) == out' + [[Comma]] + ExprElems(d) + [[Close]];
      BackOver(out' + [[Comma]] + ExprElems(d), [Close], depth);
      BackOverExpr(d, out' + [[Comma]], depth + 1);
      BackOver(out', [Comma], depth + 1);
      BackOverExpr(a, out + [[SafeDiv]], depth + 1);
      BackOver(out, [SafeDiv], depth + 1);
  }

  /** The invariant behind the compiler: whatever was emitted before, the backward walk after
      a term stops at the start of its last complete factor, be that a word, a bracket group
      or a whole SAFE_DIVIDE call. */
  lemma WalkStopsAtLastFactor(t: SqlTerm, out: seq<Str>)
    ensures BackIndex(out + TermElems(t), 0) == |out + TermHead(t)|
  {
    TermSplit(t);
    assert out + TermElems(t) == (out + TermHead(t)) + PrimElems(LastPrim(t));
    BackOverPrim(LastPrim(t), out + TermHead(t), 0);
  }

  // ----- Brackets of the source -----

  lemma {:induction false} ClosingSkipsExpr(e: Expr, rest: seq<string>, depth: nat)
    requires depth > 0 && ExprWords(e, w => w !in OPERATORS)
    ensures ClosingIndex(ExprTokens(e) + rest, depth) == |ExprTokens(e)| + ClosingIndex(rest, depth)
  {
    match e
    case Single(t) => ClosingSkipsTerm(t, rest, depth);
    case Sum(l, op, r) =>
      assert ExprTokens(e) + rest == ExprTokens(l) + ([AddToken(op)] + TermTokens(r) + rest);
      ClosingSkipsExpr(l, [AddToken(op)] + TermTokens(r) + rest, depth);
      assert ([AddToken(op)] + TermTokens(r) + rest)[1..] == TermTokens(r) + rest;
      ClosingSkipsTerm(r, rest, depth);
  }

  lemma {:induction false} ClosingSkipsTerm(t: Term, rest: seq<string>, depth: nat)
    requires depth > 0 && TermWords(t, w => w !in OPERATORS)
    ensures ClosingIndex(TermTokens(t) + rest, depth) == |TermTokens(t)| + ClosingIndex(rest, depth)
  {
    match t
    case Fac(f) => ClosingSkipsFactor(f, rest, depth);
    case Prod(l, op, r) =>
      assert TermTokens(t) + rest == TermTokens(l) + ([MulToken(op)] + FactorTokens(r) + rest);
      ClosingSkipsTerm(l, [MulToken(op)] + FactorTokens(r) + rest, depth);
      assert ([MulToken(op)] + FactorTokens(r) + rest)[1..] == FactorTokens(r) + rest;
      ClosingSkipsFactor(r, rest, depth);
  }

  lemma {:induction false} ClosingSkipsFactor(f: Factor, rest: seq<string>, depth: nat)
    requires depth > 0 && FactorWords(f, w => w !in OPERATORS)
    ensures ClosingIndex(FactorTokens(f) + rest, depth) == |FactorTokens(f)| + ClosingIndex(rest, depth)
  {
    var s := PrimTokens(f.prim) + rest;
    ClosingSkipsPrim(f.prim, rest, depth);
    if f.sign.NoSign? {
      assert FactorTokens(f) + rest == s;
    } else {
      ClosingOther(SignTokens(f.sign)[0], s, depth);
      assert FactorTokens(f) + rest == [SignTokens(f.sign)[0]] + s;
    }
  }

  lemma {:induction false} ClosingSkipsPrim(p: Prim, rest: seq<string>, depth: nat)
    requires depth > 0 && PrimWords(p, w => w !in OPERATORS)
    ensures ClosingIndex(PrimTokens(p) + rest, depth) == |PrimTokens(p)| + ClosingIndex(rest, depth)
  {
    match p
    case Word(w) =>
      assert w !in OPERATORS;
      ClosingOther(w, rest, depth);
    case Group(e) =>
      var inside := ExprTokens(e) + ([")"] + rest);
      assert PrimTokens(p) + rest == ["("] + inside;
      ClosingOpen(inside, depth);
      ClosingSkipsExpr(e, [")"] + rest, depth + 1);
      ClosingClose(rest, depth + 1);
  }

  lemma ClosingOther(token: string, rest: seq<string>, depth: nat)
    requires depth > 0 && token != "(" && token != ")"
    ensures ClosingIndex([token] + rest, depth) == 1 + ClosingIndex(rest, depth)
  {
    assert ([token] + rest)[1..] == rest;
  }

  lemma ClosingOpen(rest: seq<string>, depth: nat)
    requires depth > 0
    ensures ClosingIndex(["("] + rest, depth) == 1 + ClosingIndex(rest, depth + 1)
  {
    assert (["("] + rest)[1..] == rest;
  }

  lemma ClosingClose(rest: seq<string>, depth: nat)
    requires depth > 1
    ensures ClosingIndex([")"] + rest, depth) == 1 + ClosingIndex(rest, depth - 1)
  {
    assert ([")"] + rest)[1..] == rest;
  }

  // ----- The machine on a formula -----

  lemma {:induction false} RunExpr(e: Expr, rest: seq<string>, out: seq<Str>, vars: Vars)
    requires ExprWords(e, w => w !in OPERATORS)
    ensures Run(ExprTokens(e) + rest, out, false, vars)
         == Run(rest, out + ExprElems(Translate(e, vars)), false, vars)
    decreases e, 0
  {
    match e
    case Single(t) => RunTerm(t, rest, out, vars);
    case Sum(l, op, r) =>
      var rest' := [AddToken(op)] + TermTokens(r) + rest;
      var out' := out + ExprElems(Translate(l, vars));
      assert ExprTokens(e) + rest == ExprTokens(l) + rest';
      RunExpr(l, rest', out, vars);
      assert rest'[1..] == TermTokens(r) + rest;
      RunTerm(r, rest, out' + [[AddSym(op)]], vars);
      assert out + ExprElems(Translate(e, vars)) == out' + [[AddSym(op)]] + TermElems(TranslateTerm(r, vars));
  }

  lemma {:induction false} RunTerm(t: Term, rest: seq<string>, out: seq<Str>, vars: Vars)
    requires TermWords(t, w => w !in OPERATORS)
    ensures Run(TermTokens(t) + rest, out, false, vars)
         == Run(rest, out + TermElems(TranslateTerm(t, vars)), false, vars)
    decreases t, 0
  {
    match t
    case Fac(f) =>
      RunFactor(f, rest, out, false, vars);
      var after := out + FactorElems(TranslateFactor(f, vars));
      assert after + [] == after;
    case Prod(l, op, r) =>
      var rest' := FactorTokens(r) + rest;
      assert TermTokens(t) + rest == TermTokens(l) + ([MulToken(op)] + rest');
      RunTerm(l, [MulToken(op)] + rest', out, vars);
      RunMulToken(op, rest', out, TranslateTerm(l, vars), vars);
      RunSecond(op, r, rest, out, TranslateTerm(l, vars), vars);
  }

  lemma {:induction false} RunSecond(op: MulOp, r: Factor, rest: seq<string>, out: seq<Str>, t: SqlTerm, vars: Vars)
    requires FactorWords(r, w => w !in OPERATORS)
    ensures var d := TranslateFactor(r, vars);
            if op.Mul? then
              Run(FactorTokens(r) + rest, out + TermElems(t) + [[TimesSign]], false, vars)
              == Run(rest, out + TermElems(SProd(t, d)), false, vars)
            else
              Run(FactorTokens(r) + rest, out + DivisionHead(t), true, vars)
              == Run(rest, out + TermElems(DivideLast(t, d)), false, vars)
    decreases r, 1
  {
    var d := TranslateFactor(r, vars);
    if op.Mul? {
      var out' := out + TermElems(t) + [[TimesSign]];
      RunFactor(r, rest, out', false, vars);
      assert out' + FactorElems(d) + [] == out + TermElems(SProd(t, d));
    } else {
      RunFactor(r, rest, out + DivisionHead(t), true, vars);
      DivideLastElems(t, d);
      assert out + DivisionHead(t) + FactorElems(d) + [[Close]] == out + TermElems(DivideLast(t, d));
    }
  }

  /** A term with an unfinished division of its last primary. */
  function DivisionHead(t: SqlTerm): seq<Str> {
    TermHead(t) + [[SafeDiv]] + PrimElems(LastPrim(t)) + [[Comma]]
  }

  lemma RunMulToken(op: MulOp, rest: seq<string>, out: seq<Str>, t: SqlTerm, vars: Vars)
    ensures Run([MulToken(op)] + rest, out + TermElems(t), false, vars)
         == if op.Mul? then Run(rest, out + TermElems(t) + [[TimesSign]], false, vars)
            else Run(rest, out + DivisionHead(t), true, vars)
  {
    if op.Mul? {
      RunTimes(rest, out + TermElems(t), vars);
    } else {
      WalkStopsAtLastFactor(t, out);
      RunDivide(rest, out + TermElems(t), |out + TermHead(t)|, vars);
      InsertAtLast(t, out);
    }
  }

  lemma RunTimes(rest: seq<string>, out: seq<Str>, vars: Vars)
    ensures Run(["*"] + rest, out, false, vars) == Run(rest, out + [[TimesSign]], false, vars)
  {
    assert (["*"] + rest)[1..] == rest;
  }

  lemma RunDivide(rest: seq<string>, out: seq<Str>, k: nat, vars: Vars)
    requires BackIndex(out, 0) == k
    ensures Run(["/"] + rest, out, false, vars) == Run(rest, out[..k] + [[SafeDiv]] + out[k..] + [[Comma]], true, vars)
  {
    assert (["/"] + rest)[1..] == rest;
  }

  lemma InsertAtLast(t: SqlTerm, out: seq<Str>)
    ensures var all, k := out + TermElems(t), |out + TermHead(t)|;
            k <= |all| && all[..k] + [[SafeDiv]] + all[k..] + [[Comma]] == out + DivisionHead(t)
  {
    TermSplit(t);
    var all, k := out + TermElems(t), |out + TermHead(t)|;
    assert all == (out + TermHead(t)) + PrimElems(LastPrim(t));
    assert all[..k] == out + TermHead(t) && all[k..] == PrimElems(LastPrim(t));
  }

  lemma DivideLastElems(t: SqlTerm, d: SqlFactor)
    ensures TermElems(DivideLast(t, d)) == DivisionHead(t) + FactorElems(d) + [[Close]]
  {
    var p := SSafeDivide(PrimExpr(LastPrim(t)), SSingle(SFac(d)));
    DivisionElems(LastPrim(t), d);
    TermSplit(WithLast(t, p));
    assert LastPrim(WithLast(t, p)) == p && TermHead(WithLast(t, p)) == TermHead(t);
  }

  lemma DivisionElems(p: SqlPrim, d: SqlFactor)
    ensures PrimElems(SSafeDivide(PrimExpr(p), SSingle(SFac(d))))
         == [[SafeDiv]] + PrimElems(p) + [[Comma]] + FactorElems(d) + [[Close]]
  {
    assert SignElems(NoSign) + PrimElems(p) == PrimElems(p);
    assert TermElems(SFac(SFactor(NoSign, p))) == PrimElems(p);
    assert ExprElems(PrimExpr(p)) == PrimElems(p);
    assert ExprElems(SSingle(SFac(d))) == FactorElems(d);
  }

  lemma {:induction false} RunFactor(f: Factor, rest: seq<string>, out: seq<Str>, pending: bool, vars: Vars)
    requires FactorWords(f, w => w !in OPERATORS)
    ensures Run(FactorTokens(f) + rest, out, pending, vars)
         == Run(rest, out + FactorElems(TranslateFactor(f, vars)) + Closing(pending), false, vars)
    decreases f, 0
  {
    var s := PrimTokens(f.prim) + rest;
    var out' := out + SignElems(f.sign);
    if f.sign.NoSign? {
      assert FactorTokens(f) + rest == s;
      assert out' == out;
    } else {
      assert (FactorTokens(f) + rest)[1..] == s;
      assert OperatorStr((FactorTokens(f) + rest)[0]) == SignElems(f.sign)[0];
    }
    assert Run(FactorTokens(f) + rest, out, pending, vars) == Run(s, out', pending, vars);
    RunPrim(f.prim, rest, out', pending, vars);
    assert out' + PrimElems(TranslatePrim(f.prim, vars)) == out + FactorElems(TranslateFactor(f, vars));
  }

  lemma {:induction false} RunPrim(p: Prim, rest: seq<string>, out: seq<Str>, pending: bool, vars: Vars)
    requires PrimWords(p, w => w !in OPERATORS)
    ensures Run(PrimTokens(p) + rest, out, pending, vars)
         == Run(rest, out + PrimElems(TranslatePrim(p, vars)) + Closing(pending), false, vars)
    decreases p, 0
  {
    var s := PrimTokens(p) + rest;
    match p
    case Word(w) =>
      assert s[0] !in OPERATORS && s[1..] == rest;
    case Group(e) =>
      var tokens := ExprTokens(e);
      var sql := Translate(e, vars);
      assert s[1..] == tokens + ([")"] + rest);
      ClosingSkipsExpr(e, [")"] + rest, 1);
      assert s[1..][..|tokens|] == tokens && s[1..][|tokens| + 1..] == rest;
      CompileIsTranslate(e, vars);
      assert out + [[Open]] + [ExprSyms(sql)] + [[Close]] == out + PrimElems(SGroup(sql));
  }

  /** The compiler prints the translated tree. */
  lemma {:induction false} CompileIsTranslate(e: Expr, vars: Vars)
    requires ExprWords(e, w => w !in OPERATORS)
    ensures Compile(ExprTokens(e), vars) == Ok(ExprSyms(Translate(e, vars)))
    decreases e, 1
  {
    assert ExprTokens(e) + [] == ExprTokens(e);
    RunExpr(e, [], [], vars);
    assert [] + ExprElems(Translate(e, vars)) == ExprElems(Translate(e, vars));
    FlattenExpr(Translate(e, vars));
  }
}
