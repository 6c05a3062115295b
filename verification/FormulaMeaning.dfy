/** What compiled formulas mean, and how they are un-compiled. */
module FormulaMeaning {
  import opened Wrappers
  import opened FormulaSyntax
  import opened SqlReader
  import opened FormulaCompiler
  import opened FormulaTranslation

  /** The value of a source word is the value of the SQL it stands for. */
  function SourceEnv(val: string -> Value, vars: Vars): string -> Value {
    w => if w in vars then val(vars[w]) else val(w)
  }

  // ----- Value of the translated tree -----

  lemma ProductOverDivisor(x: real, y: real, z: real)
    requires z != 0.0
    ensures (x * y) / z == x * (y / z)
  {
    var q := y / z;
    assert y == q * z;
    assert x * y == (x * q) * z;
  }

  /** Dividing only the last factor of a product divides the product. */
  lemma DivideLastValue(t: SqlTerm, d: SqlFactor, val: string -> Value)
    ensures SqlTermValue(DivideLast(t, d), val) == Divided(SqlTermValue(t, val), SqlFactorValue(d, val))
  {
    var p := SqlPrimValue(LastPrim(t), val);
    var dv := SqlFactorValue(d, val);
    var sd := SSafeDivide(PrimExpr(LastPrim(t)), SSingle(SFac(d)));
    assert SqlTermValue(SFac(SFactor(NoSign, LastPrim(t))), val) == p;
    assert SqlExprValue(PrimExpr(LastPrim(t)), val) == p;
    assert SqlExprValue(SSingle(SFac(d)), val) == dv;
    assert SqlPrimValue(sd, val) == Divided(p, dv);
    match t
    case SFac(f) =>
      SignedQuotient(f.sign, p, dv);
    case SProd(l, f) =>
      SignedQuotient(f.sign, p, dv);
      var lv, fv := SqlTermValue(l, val), Signed(f.sign, p);
      if lv.Num? && fv.Num? && dv.Num? && dv.x != 0.0 {
        ProductOverDivisor(lv.x, fv.x, dv.x);
      }
  }

  lemma SignedQuotient(s: Sign, a: Value, b: Value)
    ensures Signed(s, Divided(a, b)) == Divided(Signed(s, a), b)
  {
    if a.Num? && b.Num? && b.x != 0.0 && s.Neg? {
      ProductOverDivisor(-1.0, a.x, b.x);
    }
  }

  lemma {:induction false} TranslateValue(e: Expr, vars: Vars, val: string -> Value)
    ensures SqlExprValue(Translate(e, vars), val) == ExprValue(e, SourceEnv(val, vars))
  {
    match e
    case Single(t) => TranslateTermValue(t, vars, val);
    case Sum(l, _, r) => TranslateValue(l, vars, val); TranslateTermValue(r, vars, val);
  }

  lemma {:induction false} TranslateTermValue(t: Term, vars: Vars, val: string -> Value)
    ensures SqlTermValue(TranslateTerm(t, vars), val) == TermValue(t, SourceEnv(val, vars))
  {
    match t
    case Fac(f) => TranslateFactorValue(f, vars, val);
    case Prod(l, op, r) =>
      TranslateTermValue(l, vars, val);
      TranslateFactorValue(r, vars, val);
      DivideLastValue(TranslateTerm(l, vars), TranslateFactor(r, vars), val);
  }

  lemma {:induction false} TranslateFactorValue(f: Factor, vars: Vars, val: string -> Value)
    ensures SqlFactorValue(TranslateFactor(f, vars), val) == FactorValue(f, SourceEnv(val, vars))
  {
    match f.prim
    case Word(w) =>
    case Group(e) => TranslateValue(e, vars, val);
  }

  // ----- Two minus signs in a row -----

  lemma DoubledAppend<T>(a: seq<T>, b: seq<T>, m: T)
    ensures Doubled(a + b, m)
       <==> Doubled(a, m) || Doubled(b, m) || (a != [] && b != [] && a[|a| - 1] == m && b[0] == m)
  {
    var s := a + b;
    if Doubled(a, m) {
      var i :| 0 <= i < |a| - 1 && a[i] == m && a[i + 1] == m;
      assert s[i] == m && s[i + 1] == m;
    }
    if Doubled(b, m) {
      var i :| 0 <= i < |b| - 1 && b[i] == m && b[i + 1] == m;
      assert s[|a| + i] == m && s[|a| + i + 1] == m;
    }
    if a != [] && b != [] && a[|a| - 1] == m && b[0] == m {
      assert s[|a| - 1] == m && s[|a|] == m;
    }
    if Doubled(s, m) {
      var i :| 0 <= i < |s| - 1 && s[i] == m && s[i + 1] == m;
      if i >= |a| {
        assert b[i - |a|] == m && b[i - |a| + 1] == m;
      } else if i + 1 < |a| {
        assert a[i] == m && a[i + 1] == m;
      }
    }
  }

  /** What matters of a printed part: where it has m, given that it never ends with m. */
  ghost predicate Shape<T>(s: seq<T>, m: T, leads: bool, doubled: bool) {
    s != [] && s[|s| - 1] != m && (s[0] == m <==> leads) && (Doubled(s, m) <==> doubled)
  }

  lemma ShapeJoin<T>(a: seq<T>, sep: T, b: seq<T>, m: T, la: bool, da: bool, lb: bool, db: bool)
    requires Shape(a, m, la, da) && Shape(b, m, lb, db)
    ensures Shape(a + [sep] + b, m, la, da || db || (sep == m && lb))
  {
    DoubledAppend(a, [sep], m);
    DoubledAppend(a + [sep], b, m);
  }

  lemma ShapeBracket<T>(open: T, a: seq<T>, close: T, m: T, la: bool, da: bool)
    requires Shape(a, m, la, da) && open != m && close != m
    ensures Shape([open] + a + [close], m, false, da)
  {
    DoubledAppend([open], a, m);
    DoubledAppend([open] + a, [close], m);
  }

  lemma ShapeSigned<T>(sign: seq<T>, a: seq<T>, m: T, da: bool)
    requires |sign| <= 1 && Shape(a, m, false, da)
    ensures Shape(sign + a, m, sign == [m], da)
  {
    DoubledAppend(sign, a, m);
  }

  predicate TermLeads(t: Term) {
    match t
    case Fac(f) => f.sign.Neg?
    case Prod(l, _, _) => TermLeads(l)
  }

  predicate ExprLeads(e: Expr) {
    match e
    case Single(t) => TermLeads(t)
    case Sum(l, _, _) => ExprLeads(l)
  }

  /** A minus sign directly after a minus sign: the one place the grammar allows it is a
      subtracted term that itself starts with a sign. */
  predicate ExprDoubles(e: Expr) {
    match e
    case Single(t) => TermDoubles(t)
    case Sum(l, op, r) => ExprDoubles(l) || TermDoubles(r) || (op.Sub? && TermLeads(r))
  }

  predicate TermDoubles(t: Term) {
    match t
    case Fac(f) => FactorDoubles(f)
    case Prod(l, _, r) => TermDoubles(l) || FactorDoubles(r)
  }

  predicate FactorDoubles(f: Factor) {
    f.prim.Group? && ExprDoubles(f.prim.e)
  }

  predicate SqlTermLeads(t: SqlTerm) {
    match t
    case SFac(f) => f.sign.Neg?
    case SProd(l, _) => SqlTermLeads(l)
  }

  predicate SqlExprLeads(e: SqlExpr) {
    match e
    case SSingle(t) => SqlTermLeads(t)
    case SSum(l, _, _) => SqlExprLeads(l)
  }

  predicate SqlExprDoubles(e: SqlExpr) {
    match e
    case SSingle(t) => SqlTermDoubles(t)
    case SSum(l, op, r) => SqlExprDoubles(l) || SqlTermDoubles(r) || (op.Sub? && SqlTermLeads(r))
  }

  predicate SqlTermDoubles(t: SqlTerm) {
    match t
    case SFac(f) => SqlPrimDoubles(f.prim)
    case SProd(l, r) => SqlTermDoubles(l) || SqlPrimDoubles(r.prim)
  }

  predicate SqlPrimDoubles(p: SqlPrim) {
    match p
    case SText(_) => false
    case SGroup(e) => SqlExprDoubles(e)
    case SSafeDivide(n, d) => SqlExprDoubles(n) || SqlExprDoubles(d)
  }

  lemma {:induction false} ExprShape(e: Expr)
    requires ExprWords(e, w => w !in OPERATORS)
    ensures Shape(ExprTokens(e), "-", ExprLeads(e), ExprDoubles(e))
  {
    match e
    case Single(t) => TermShape(t);
    case Sum(l, op, r) =>
      ExprShape(l);
      TermShape(r);
      ShapeJoin(ExprTokens(l), AddToken(op), TermTokens(r), "-",
                ExprLeads(l), ExprDoubles(l), TermLeads(r), TermDoubles(r));
  }

  lemma {:induction false} TermShape(t: Term)
    requires TermWords(t, w => w !in OPERATORS)
    ensures Shape(TermTokens(t), "-", TermLeads(t), TermDoubles(t))
  {
    match t
    case Fac(f) => FactorShape(f);
    case Prod(l, op, r) =>
      TermShape(l);
      FactorShape(r);
      ShapeJoin(TermTokens(l), MulToken(op), FactorTokens(r), "-",
                TermLeads(l), TermDoubles(l), r.sign.Neg?, FactorDoubles(r));
  }

  lemma {:induction false} FactorShape(f: Factor)
    requires FactorWords(f, w => w !in OPERATORS)
    ensures Shape(FactorTokens(f), "-", f.sign.Neg?, FactorDoubles(f))
  {
    match f.prim {
      case Word(w) =>
        assert "-" in OPERATORS;
      case Group(e) =>
        ExprShape(e);
        ShapeBracket("(", ExprTokens(e), ")", "-", ExprLeads(e), ExprDoubles(e));
    }
    ShapeSigned(SignTokens(f.sign), PrimTokens(f.prim), "-", FactorDoubles(f));
  }

  lemma {:induction false} SqlExprShape(e: SqlExpr)
    ensures Shape(ExprSyms(e), MinusSign, SqlExprLeads(e), SqlExprDoubles(e))
  {
    match e
    case SSingle(t) => SqlTermShape(t);
    case SSum(l, op, r) =>
      SqlExprShape(l);
      SqlTermShape(r);
      ShapeJoin(ExprSyms(l), AddSym(op), TermSyms(r), MinusSign,
                SqlExprLeads(l), SqlExprDoubles(l), SqlTermLeads(r), SqlTermDoubles(r));
  }

  lemma {:induction false} SqlTermShape(t: SqlTerm)
    ensures Shape(TermSyms(t), MinusSign, SqlTermLeads(t), SqlTermDoubles(t))
  {
    match t
    case SFac(f) => SqlFactorShape(f);
    case SProd(l, r) =>
      SqlTermShape(l);
      SqlFactorShape(r);
      ShapeJoin(TermSyms(l), TimesSign, FactorSyms(r), MinusSign,
                SqlTermLeads(l), SqlTermDoubles(l), r.sign.Neg?, SqlPrimDoubles(r.prim));
  }

  lemma {:induction false} SqlFactorShape(f: SqlFactor)
    ensures Shape(FactorSyms(f), MinusSign, f.sign.Neg?, SqlPrimDoubles(f.prim))
  {
    var p := f.prim;
    match p {
      case SText(s) =>
      case SGroup(e) =>
        SqlExprShape(e);
        ShapeBracket(Open, ExprSyms(e), Close, MinusSign, SqlExprLeads(e), SqlExprDoubles(e));
      case SSafeDivide(n, d) =>
        SqlExprShape(n);
        SqlExprShape(d);
        ShapeJoin(ExprSyms(n), Comma, ExprSyms(d), MinusSign,
                  SqlExprLeads(n), SqlExprDoubles(n), SqlExprLeads(d), SqlExprDoubles(d));
        ShapeBracket(SafeDiv, ExprSyms(n) + [Comma] + ExprSyms(d), Close, MinusSign,
                     SqlExprLeads(n), SqlPrimDoubles(p));
        assert PrimSyms(p) == [SafeDiv] + (ExprSyms(n) + [Comma] + ExprSyms(d)) + [Close];
    }
    ShapeSigned(SignSyms(f.sign), PrimSyms(p), MinusSign, SqlPrimDoubles(p));
  }

  lemma {:induction false} TranslateDoubles(e: Expr, vars: Vars)
    ensures SqlExprLeads(Translate(e, vars)) == ExprLeads(e)
    ensures SqlExprDoubles(Translate(e, vars)) == ExprDoubles(e)
  {
    match e
    case Single(t) => TranslateTermDoubles(t, vars);
    case Sum(l, _, r) => TranslateDoubles(l, vars); TranslateTermDoubles(r, vars);
  }

  lemma {:induction false} TranslateTermDoubles(t: Term, vars: Vars)
    ensures SqlTermLeads(TranslateTerm(t, vars)) == TermLeads(t)
    ensures SqlTermDoubles(TranslateTerm(t, vars)) == TermDoubles(t)
  {
    match t
    case Fac(f) => TranslateFactorDoubles(f, vars);
    case Prod(l, op, r) =>
      TranslateTermDoubles(l, vars);
      TranslateFactorDoubles(r, vars);
      DivideLastDoubles(TranslateTerm(l, vars), TranslateFactor(r, vars));
  }

  lemma {:induction false} TranslateFactorDoubles(f: Factor, vars: Vars)
    ensures SqlPrimDoubles(TranslatePrim(f.prim, vars)) == FactorDoubles(f)
  {
    match f.prim
    case Word(_) =>
    case Group(e) => TranslateDoubles(e, vars);
  }

  lemma DivideLastDoubles(t: SqlTerm, d: SqlFactor)
    ensures SqlTermLeads(DivideLast(t, d)) == SqlTermLeads(t)
    ensures SqlTermDoubles(DivideLast(t, d)) == (SqlTermDoubles(t) || SqlPrimDoubles(d.prim))
  {
    var p := LastPrim(t);
    assert SqlTermDoubles(SFac(SFactor(NoSign, p))) == SqlPrimDoubles(p);
    assert SqlExprDoubles(PrimExpr(p)) == SqlPrimDoubles(p);
    assert SqlExprDoubles(SSingle(SFac(d))) == SqlPrimDoubles(d.prim);
  }

  // ----- Snippets that SQL cannot read -----

  /** A source word can be read when the SQL it stands for can. */
  function SourceOk(ok: string -> bool, vars: Vars): string -> bool {
    w => if w in vars then ok(vars[w]) else ok(w)
  }

  lemma {:induction false} TranslateReads(e: Expr, vars: Vars, ok: string -> bool)
    ensures SqlExprReads(Translate(e, vars), ok) == ExprWords(e, SourceOk(ok, vars))
  {
    match e
    case Single(t) => TranslateTermReads(t, vars, ok);
    case Sum(l, _, r) => TranslateReads(l, vars, ok); TranslateTermReads(r, vars, ok);
  }

  lemma {:induction false} TranslateTermReads(t: Term, vars: Vars, ok: string -> bool)
    ensures SqlTermReads(TranslateTerm(t, vars), ok) == TermWords(t, SourceOk(ok, vars))
  {
    match t
    case Fac(f) => TranslateFactorReads(f, vars, ok);
    case Prod(l, op, r) =>
      TranslateTermReads(l, vars, ok);
      TranslateFactorReads(r, vars, ok);
      DivideLastReads(TranslateTerm(l, vars), TranslateFactor(r, vars), ok);
  }

  lemma {:induction false} TranslateFactorReads(f: Factor, vars: Vars, ok: string -> bool)
    ensures SqlPrimReads(TranslatePrim(f.prim, vars), ok) == FactorWords(f, SourceOk(ok, vars))
  {
    match f.prim
    case Word(_) =>
    case Group(e) => TranslateReads(e, vars, ok);
  }

  lemma DivideLastReads(t: SqlTerm, d: SqlFactor, ok: string -> bool)
    ensures SqlTermReads(DivideLast(t, d), ok) == (SqlTermReads(t, ok) && SqlPrimReads(d.prim, ok))
  {
    var p := LastPrim(t);
    assert SqlTermReads(SFac(SFactor(NoSign, p)), ok) == SqlPrimReads(p, ok);
    assert SqlExprReads(PrimExpr(p), ok) == SqlPrimReads(p, ok);
    assert SqlExprReads(SSingle(SFac(d)), ok) == SqlPrimReads(d.prim, ok);
  }

  /** Compilation preserves meaning.  For every formula and every assignment of values, the
      emitted SQL has the value of the formula, with division by zero as NULL, unless the
      formula has a minus sign directly after a minus sign, where SQL reads a comment, or a word
      that SQL cannot read. */
  lemma CompilePreservesMeaning(e: Expr, vars: Vars, ok: string -> bool, val: string -> Value)
    requires ExprWords(e, w => w !in OPERATORS)
    ensures Compile(ExprTokens(e), vars).Ok?
    ensures ReadSql(Compile(ExprTokens(e), vars).value, ok, val)
         == if Doubled(ExprTokens(e), "-") || !ExprWords(e, SourceOk(ok, vars)) then None
            else Some(ExprValue(e, SourceEnv(val, vars)))
  {
    CompileIsTranslate(e, vars);
    var sql := Translate(e, vars);
    ReadBack(sql);
    TranslateValue(e, vars, val);
    TranslateReads(e, vars, ok);
    ExprShape(e);
    SqlExprShape(sql);
    TranslateDoubles(e, vars);
  }

  /** The smallest formula of the exception: A--B. */
  lemma DoubleMinusIsLost(vars: Vars, ok: string -> bool, val: string -> Value)
    ensures var tokens := ["A", "-", "-", "B"];
            Compile(tokens, vars).Ok? && ReadSql(Compile(tokens, vars).value, ok, val) == None
  {
    var a, b := Factor(NoSign, Word("A")), Factor(Neg, Word("B"));
    var e := Sum(Single(Fac(a)), Sub, Fac(b));
    assert TermTokens(Fac(b)) == ["-", "B"];
    assert TermTokens(Fac(a)) == ["A"];
    assert ExprTokens(e) == ["A", "-", "-", "B"];
    assert ExprTokens(e)[1] == "-" && ExprTokens(e)[2] == "-";
    assert TermWords(Fac(a), w => w !in OPERATORS) && TermWords(Fac(b), w => w !in OPERATORS);
    CompilePreservesMeaning(e, vars, ok, val);
  }

  // ----- Un-compiling -----

  /** Takes every SAFE_DIVIDE out of a text: its prefix and its closing bracket go, its comma
      becomes a slash.  The stack says which open bracket is a SAFE_DIVIDE. */
  function Erase(s: seq<Sym>, stack: seq<bool>): seq<string> {
    if s == [] then []
    else
      match s[0]
      case Open => ["("] + Erase(s[1..], [false] + stack)
      case SafeDiv => Erase(s[1..], [true] + stack)
      case Comma => ["/"] + Erase(s[1..], stack)
      case Close =>
        if stack == [] then [")"] + Erase(s[1..], [])
        else (if stack[0] then [] else [")"]) + Erase(s[1..], stack[1..])
      case PlusSign => ["+"] + Erase(s[1..], stack)
      case MinusSign => ["-"] + Erase(s[1..], stack)
      case TimesSign => ["*"] + Erase(s[1..], stack)
      case Text(x) => [x] + Erase(s[1..], stack)
  }

  /** The formula a SQL tree was made from. */
  function Source(e: SqlExpr): seq<string> {
    match e
    case SSingle(t) => TermSource(t)
    case SSum(l, op, r) => Source(l) + [AddToken(op)] + TermSource(r)
  }

  function TermSource(t: SqlTerm): seq<string> {
    match t
    case SFac(f) => FactorSource(f)
    case SProd(l, r) => TermSource(l) + ["*"] + FactorSource(r)
  }

  function FactorSource(f: SqlFactor): seq<string> {
    SignTokens(f.sign) + PrimSource(f.prim)
  }

  function PrimSource(p: SqlPrim): seq<string> {
    match p
    case SText(s) => [s]
    case SGroup(e) => ["("] + Source(e) + [")"]
    case SSafeDivide(n, d) => Source(n) + ["/"] + Source(d)
  }

  lemma {:induction false} EraseExpr(e: SqlExpr, rest: seq<Sym>, stack: seq<bool>)
    ensures Erase(ExprSyms(e) + rest, stack) == Source(e) + Erase(rest, stack)
  {
    match e
    case SSingle(t) => EraseTerm(t, rest, stack);
    case SSum(l, op, r) =>
      var rest' := TermSyms(r) + rest;
      assert ExprSyms(e) + rest == ExprSyms(l) + ([AddSym(op)] + rest');
      EraseExpr(l, [AddSym(op)] + rest', stack);
      assert ([AddSym(op)] + rest')[1..] == rest';
      EraseTerm(r, rest, stack);
  }

  lemma {:induction false} EraseTerm(t: SqlTerm, rest: seq<Sym>, stack: seq<bool>)
    ensures Erase(TermSyms(t) + rest, stack) == TermSource(t) + Erase(rest, stack)
  {
    match t
    case SFac(f) => EraseFactor(f, rest, stack);
    case SProd(l, r) =>
      var rest' := FactorSyms(r) + rest;
      assert TermSyms(t) + rest == TermSyms(l) + ([TimesSign] + rest');
      EraseTerm(l, [TimesSign] + rest', stack);
      assert ([TimesSign] + rest')[1..] == rest';
      EraseFactor(r, rest, stack);
  }

  lemma {:induction false} EraseFactor(f: SqlFactor, rest: seq<Sym>, stack: seq<bool>)
    ensures Erase(FactorSyms(f) + rest, stack) == FactorSource(f) + Erase(rest, stack)
  {
    var s := PrimSyms(f.prim) + rest;
    assert FactorSyms(f) + rest == SignSyms(f.sign) + s;
    EraseSign(f.sign, s, stack);
    ErasePrim(f.prim, rest, stack);
  }

  lemma EraseSign(sign: Sign, s: seq<Sym>, stack: seq<bool>)
    ensures Erase(SignSyms(sign) + s, stack) == SignTokens(sign) + Erase(s, stack)
  {
    if sign.NoSign? {
      assert SignSyms(sign) + s == s;
    } else {
      assert (SignSyms(sign) + s)[1..] == s;
    }
  }

  lemma {:induction false} ErasePrim(p: SqlPrim, rest: seq<Sym>, stack: seq<bool>)
    ensures Erase(PrimSyms(p) + rest, stack) == PrimSource(p) + Erase(rest, stack)
  {
    var s := PrimSyms(p) + rest;
    match p
    case SText(x) => assert s[1..] == rest;
    case SGroup(e) =>
      assert s[1..] == ExprSyms(e) + ([Close] + rest);
      EraseExpr(e, [Close] + rest, [false] + stack);
      EraseClose(rest, false, stack);
    case SSafeDivide(n, d) =>
      var rest' := ExprSyms(d) + ([Close] + rest);
      assert s[1..] == ExprSyms(n) + ([Comma] + rest');
      EraseExpr(n, [Comma] + rest', [true] + stack);
      assert ([Comma] + rest')[1..] == rest';
      EraseExpr(d, [Close] + rest, [true] + stack);
      EraseClose(rest, true, stack);
  }

  lemma EraseClose(rest: seq<Sym>, division: bool, stack: seq<bool>)
    ensures Erase([Close] + rest, [division] + stack) == (if division then [] else [")"]) + Erase(rest, stack)
  {
    assert ([Close] + rest)[1..] == rest && ([division] + stack)[1..] == stack;
  }

  /** A token with its variable replaced by SQL. */
  function Substituted(token: string, vars: Vars): string {
    if token in OPERATORS then token else if token in vars then vars[token] else token
  }

  function SubstituteAll(tokens: seq<string>, vars: Vars): seq<string> {
    seq(|tokens|, i requires 0 <= i < |tokens| => Substituted(tokens[i], vars))
  }

  lemma SubstituteAppend(a: seq<string>, b: seq<string>, vars: Vars)
    ensures SubstituteAll(a + b, vars) == SubstituteAll(a, vars) + SubstituteAll(b, vars)
  {
  }

  lemma {:induction false} TranslateSource(e: Expr, vars: Vars)
    requires ExprWords(e, w => w !in OPERATORS)
    ensures Source(Translate(e, vars)) == SubstituteAll(ExprTokens(e), vars)
  {
    match e
    case Single(t) => TranslateTermSource(t, vars);
    case Sum(l, op, r) =>
      TranslateSource(l, vars);
      TranslateTermSource(r, vars);
      SubstituteAround(ExprTokens(l), AddToken(op), TermTokens(r), vars);
  }

  lemma {:induction false} TranslateTermSource(t: Term, vars: Vars)
    requires TermWords(t, w => w !in OPERATORS)
    ensures TermSource(TranslateTerm(t, vars)) == SubstituteAll(TermTokens(t), vars)
  {
    match t
    case Fac(f) => TranslateFactorSource(f, vars);
    case Prod(l, op, r) =>
      TranslateTermSource(l, vars);
      TranslateFactorSource(r, vars);
      SubstituteAround(TermTokens(l), MulToken(op), FactorTokens(r), vars);
      DivideLastSource(TranslateTerm(l, vars), TranslateFactor(r, vars));
  }

  lemma SubstituteAround(a: seq<string>, op: string, b: seq<string>, vars: Vars)
    requires op in OPERATORS
    ensures SubstituteAll(a + [op] + b, vars) == SubstituteAll(a, vars) + [op] + SubstituteAll(b, vars)
  {
  }

  lemma {:induction false} TranslateFactorSource(f: Factor, vars: Vars)
    requires FactorWords(f, w => w !in OPERATORS)
    ensures FactorSource(TranslateFactor(f, vars)) == SubstituteAll(FactorTokens(f), vars)
  {
    SubstituteAppend(SignTokens(f.sign), PrimTokens(f.prim), vars);
    assert SubstituteAll(SignTokens(f.sign), vars) == SignTokens(f.sign);
    match f.prim
    case Word(w) =>
    case Group(e) =>
      TranslateSource(e, vars);
      SubstituteAppend(["("] + ExprTokens(e), [")"], vars);
      SubstituteAppend(["("], ExprTokens(e), vars);
  }

  lemma DivideLastSource(t: SqlTerm, d: SqlFactor)
    ensures TermSource(DivideLast(t, d)) == TermSource(t) + ["/"] + FactorSource(d)
  {
    var p := LastPrim(t);
    assert TermSource(SFac(SFactor(NoSign, p))) == [] + PrimSource(p) == PrimSource(p);
    assert Source(PrimExpr(p)) == PrimSource(p);
    assert Source(SSingle(SFac(d))) == FactorSource(d);
    var sd := SSafeDivide(PrimExpr(p), SSingle(SFac(d)));
    assert PrimSource(sd) == PrimSource(p) + ["/"] + FactorSource(d);
    match t
    case SFac(f) =>
      assert TermSource(t) == SignTokens(f.sign) + PrimSource(p);
      assert TermSource(DivideLast(t, d)) == SignTokens(f.sign) + PrimSource(sd);
    case SProd(l, f) =>
      assert TermSource(t) == TermSource(l) + ["*"] + (SignTokens(f.sign) + PrimSource(p));
      assert TermSource(DivideLast(t, d)) == TermSource(l) + ["*"] + (SignTokens(f.sign) + PrimSource(sd));
  }

  /** Un-compiling gives back the source: erasing every SAFE_DIVIDE from the output returns
      the token stream that went in, with variables replaced by their SQL. */
  lemma EraseCompiled(e: Expr, vars: Vars)
    requires ExprWords(e, w => w !in OPERATORS)
    ensures Compile(ExprTokens(e), vars).Ok?
    ensures Erase(Compile(ExprTokens(e), vars).value, []) == SubstituteAll(ExprTokens(e), vars)
  {
    CompileIsTranslate(e, vars);
    var sql := Translate(e, vars);
    EraseExpr(sql, [], []);
    assert ExprSyms(sql) + [] == ExprSyms(sql);
    TranslateSource(e, vars);
  }
}
