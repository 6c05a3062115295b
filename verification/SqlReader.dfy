/** The SQL side: the symbols the compiler emits, and a reader for them.

    A piece of emitted text is a sequence of symbols.  SafeDiv stands for the prefix
    `SAFE_DIVIDE(`, which opens a bracket of its own; Text is a SQL snippet (a number or the
    expression of a metric variable) that is not looked into.  The reader gives a text the
    value it has under ordinary precedence; two adjacent minus signs start a comment, and a
    text that holds one has no value. */
module SqlReader {
  import opened Wrappers
  import opened FormulaSyntax

  datatype Sym = Open | Close | SafeDiv | Comma | PlusSign | MinusSign | TimesSign | Text(s: string)

  datatype SqlExpr = SSingle(term: SqlTerm) | SSum(left: SqlExpr, addOp: AddOp, right: SqlTerm)
  datatype SqlTerm = SFac(factor: SqlFactor) | SProd(first: SqlTerm, second: SqlFactor)
  datatype SqlFactor = SFactor(sign: Sign, prim: SqlPrim)
  datatype SqlPrim = SText(s: string) | SGroup(e: SqlExpr) | SSafeDivide(num: SqlExpr, den: SqlExpr)

  // ----- Reading -----

  function ReadExpr(s: seq<Sym>): (r: Option<(SqlExpr, seq<Sym>)>)
    ensures r.Some? ==> |r.value.1| < |s|
    decreases |s|, 4
  {
    var (t, rest) :- ReadTerm(s);
    ReadSum(SSingle(t), rest)
  }

  function ReadSum(acc: SqlExpr, s: seq<Sym>): (r: Option<(SqlExpr, seq<Sym>)>)
    ensures r.Some? ==> |r.value.1| <= |s|
    decreases |s|, 4
  {
    if s != [] && (s[0].PlusSign? || s[0].MinusSign?) then
      var (t, rest) :- ReadTerm(s[1..]);
      ReadSum(SSum(acc, if s[0].PlusSign? then Add else Sub, t), rest)
    else
      Some((acc, s))
  }

  function ReadTerm(s: seq<Sym>): (r: Option<(SqlTerm, seq<Sym>)>)
    ensures r.Some? ==> |r.value.1| < |s|
    decreases |s|, 3
  {
    var (f, rest) :- ReadFactor(s);
    ReadProd(SFac(f), rest)
  }

  function ReadProd(acc: SqlTerm, s: seq<Sym>): (r: Option<(SqlTerm, seq<Sym>)>)
    ensures r.Some? ==> |r.value.1| <= |s|
    decreases |s|, 3
  {
    if s != [] && s[0].TimesSign? then
      var (f, rest) :- ReadFactor(s[1..]);
      ReadProd(SProd(acc, f), rest)
    else
      Some((acc, s))
  }

  function ReadFactor(s: seq<Sym>): (r: Option<(SqlFactor, seq<Sym>)>)
    ensures r.Some? ==> |r.value.1| < |s|
    decreases |s|, 2
  {
    if s != [] && (s[0].PlusSign? || s[0].MinusSign?) then
      var (p, rest) :- ReadPrim(s[1..]);
      Some((SFactor(if s[0].PlusSign? then Pos else Neg, p), rest))
    else
      var (p, rest) :- ReadPrim(s);
      Some((SFactor(NoSign, p), rest))
  }

  function ReadPrim(s: seq<Sym>): (r: Option<(SqlPrim, seq<Sym>)>)
    ensures r.Some? ==> |r.value.1| < |s|
    decreases |s|, 1
  {
    if s == [] then None
    else
      match s[0]
      case Text(x) => Some((SText(x), s[1..]))
      case Open =>
        var (e, rest) :- ReadExpr(s[1..]);
        var rest' :- Expect(Close, rest);
        Some((SGroup(e), rest'))
      case SafeDiv =>
        var (n, rest) :- ReadExpr(s[1..]);
        var rest' :- Expect(Comma, rest);
        var (d, rest'') :- ReadExpr(rest');
        var rest''' :- Expect(Close, rest'');
        Some((SSafeDivide(n, d), rest'''))
      case _ => None
  }

  function Expect(c: Sym, s: seq<Sym>): (r: Option<seq<Sym>>)
    ensures r.Some? ==> |r.value| < |s|
  {
    if s != [] && s[0] == c then Some(s[1..]) else None
  }

  // ----- Values -----

  function SqlExprValue(e: SqlExpr, env: string -> Value): Value {
    match e
    case SSingle(t) => SqlTermValue(t, env)
    case SSum(l, op, r) => Added(op, SqlExprValue(l, env), SqlTermValue(r, env))
  }

  function SqlTermValue(t: SqlTerm, env: string -> Value): Value {
    match t
    case SFac(f) => SqlFactorValue(f, env)
    case SProd(l, r) => Times(SqlTermValue(l, env), SqlFactorValue(r, env))
  }

  function SqlFactorValue(f: SqlFactor, env: string -> Value): Value {
    Signed(f.sign, SqlPrimValue(f.prim, env))
  }

  function SqlPrimValue(p: SqlPrim, env: string -> Value): Value {
    match p
    case SText(s) => env(s)
    case SGroup(e) => SqlExprValue(e, env)
    case SSafeDivide(n, d) => Divided(SqlExprValue(n, env), SqlExprValue(d, env))
  }

  /** m occurs twice in a row. */
  ghost predicate Doubled<T>(s: seq<T>, m: T) {
    exists i {:trigger s[i]} :: 0 <= i < |s| - 1 && s[i] == m && s[i + 1] == m
  }

  /** Every snippet of the tree is one that SQL can read. */
  predicate SqlExprReads(e: SqlExpr, ok: string -> bool) {
    match e
    case SSingle(t) => SqlTermReads(t, ok)
    case SSum(l, _, r) => SqlExprReads(l, ok) && SqlTermReads(r, ok)
  }

  predicate SqlTermReads(t: SqlTerm, ok: string -> bool) {
    match t
    case SFac(f) => SqlPrimReads(f.prim, ok)
    case SProd(l, r) => SqlTermReads(l, ok) && SqlPrimReads(r.prim, ok)
  }

  predicate SqlPrimReads(p: SqlPrim, ok: string -> bool) {
    match p
    case SText(s) => ok(s)
    case SGroup(e) => SqlExprReads(e, ok)
    case SSafeDivide(n, d) => SqlExprReads(n, ok) && SqlExprReads(d, ok)
  }

  /** The value SQL gives a whole text, or None when it cannot be read as one expression; ok says
      which snippets can be read, and env what their values are. */
  ghost function ReadSql(s: seq<Sym>, ok: string -> bool, env: string -> Value): Option<Value> {
    if Doubled(s, MinusSign) then None
    else
      var r := ReadExpr(s);
      if r.Some? && r.value.1 == [] && SqlExprReads(r.value.0, ok) then Some(SqlExprValue(r.value.0, env)) else None
  }

  // ----- Printing, and reading back what was printed -----

  function SignSyms(s: Sign): seq<Sym> {
    match s
    case NoSign => []
    case Pos => [PlusSign]
    case Neg => [MinusSign]
  }

  function AddSym(op: AddOp): Sym {
    if op.Add? then PlusSign else MinusSign
  }

  function ExprSyms(e: SqlExpr): seq<Sym> {
    match e
    case SSingle(t) => TermSyms(t)
    case SSum(l, op, r) => ExprSyms(l) + [AddSym(op)] + TermSyms(r)
  }

  function TermSyms(t: SqlTerm): seq<Sym> {
    match t
    case SFac(f) => FactorSyms(f)
    case SProd(l, r) => TermSyms(l) + [TimesSign] + FactorSyms(r)
  }

  function FactorSyms(f: SqlFactor): seq<Sym> {
    SignSyms(f.sign) + PrimSyms(f.prim)
  }

  function PrimSyms(p: SqlPrim): seq<Sym> {
    match p
    case SText(s) => [Text(s)]
    case SGroup(e) => [Open] + ExprSyms(e) + [Close]
    case SSafeDivide(n, d) => [SafeDiv] + ExprSyms(n) + [Comma] + ExprSyms(d) + [Close]
  }

  predicate StopsTerm(rest: seq<Sym>) {
    rest == [] || !rest[0].TimesSign?
  }

  lemma {:induction false} ReadExprBack(e: SqlExpr, rest: seq<Sym>)
    requires StopsTerm(rest)
    ensures ReadExpr(ExprSyms(e) + rest) == ReadSum(e, rest)
  {
    match e
    case SSingle(t) =>
      ReadTermBack(t, rest);
    case SSum(l, op, r) =>
      var rest' := [AddSym(op)] + TermSyms(r) + rest;
      assert ExprSyms(e) + rest == ExprSyms(l) + rest';
      ReadExprBack(l, rest');
      assert rest'[1..] == TermSyms(r) + rest;
      ReadTermBack(r, rest);
  }

  lemma {:induction false} ReadTermBack(t: SqlTerm, rest: seq<Sym>)
    ensures ReadTerm(TermSyms(t) + rest) == ReadProd(t, rest)
  {
    match t
    case SFac(f) =>
      ReadFactorBack(f, rest);
    case SProd(l, r) =>
      var rest' := [TimesSign] + FactorSyms(r) + rest;
      assert TermSyms(t) + rest == TermSyms(l) + rest';
      ReadTermBack(l, rest');
      assert rest'[1..] == FactorSyms(r) + rest;
      ReadFactorBack(r, rest);
  }

  lemma {:induction false} ReadFactorBack(f: SqlFactor, rest: seq<Sym>)
    ensures ReadFactor(FactorSyms(f) + rest) == Some((f, rest))
  {
    ReadPrimBack(f.prim, rest);
    var s := FactorSyms(f) + rest;
    if f.sign.NoSign? {
      assert s == PrimSyms(f.prim) + rest;
    } else {
      assert s[1..] == PrimSyms(f.prim) + rest;
    }
  }

  lemma {:induction false} ReadPrimBack(p: SqlPrim, rest: seq<Sym>)
    ensures ReadPrim(PrimSyms(p) + rest) == Some((p, rest))
  {
    var s := PrimSyms(p) + rest;
    match p
    case SText(x) =>
      assert s[1..] == rest;
    case SGroup(e) =>
      assert s[1..] == ExprSyms(e) + ([Close] + rest);
      ReadExprBack(e, [Close] + rest);
    case SSafeDivide(n, d) =>
      assert s[1..] == ExprSyms(n) + ([Comma] + ExprSyms(d) + [Close] + rest);
      ReadExprBack(n, [Comma] + ExprSyms(d) + [Close] + rest);
      assert ([Comma] + ExprSyms(d) + [Close] + rest)[1..] == ExprSyms(d) + ([Close] + rest);
      ReadExprBack(d, [Close] + rest);
  }

  /** Printed SQL is unambiguous: the reader returns the very tree that was printed. */
  lemma {:induction false} ReadBack(e: SqlExpr)
    ensures ReadExpr(ExprSyms(e)) == Some((e, []))
  {
    assert ExprSyms(e) == ExprSyms(e) + [];
    ReadExprBack(e, []);
  }

  // ----- Only what was printed is read -----

  lemma {:induction false} ReadExprPrints(s: seq<Sym>)
    ensures var r := ReadExpr(s);
            r.Some? ==> s == ExprSyms(r.value.0) + r.value.1
    decreases |s|, 4
  {
    ReadTermPrints(s);
    var r := ReadTerm(s);
    if r.Some? {
      ReadSumPrints(SSingle(r.value.0), r.value.1);
    }
  }

  lemma {:induction false} ReadSumPrints(acc: SqlExpr, s: seq<Sym>)
    ensures var r := ReadSum(acc, s);
            r.Some? ==> ExprSyms(acc) + s == ExprSyms(r.value.0) + r.value.1
    decreases |s|, 4
  {
    if s != [] && (s[0].PlusSign? || s[0].MinusSign?) {
      ReadTermPrints(s[1..]);
      var r := ReadTerm(s[1..]);
      if r.Some? {
        var op := if s[0].PlusSign? then Add else Sub;
        ReadSumPrints(SSum(acc, op, r.value.0), r.value.1);
        assert s == [AddSym(op)] + s[1..];
        Regroup(ExprSyms(acc), [AddSym(op)], TermSyms(r.value.0), r.value.1);
      }
    }
  }

  lemma Regroup(a: seq<Sym>, b: seq<Sym>, c: seq<Sym>, d: seq<Sym>)
    ensures a + (b + (c + d)) == a + b + c + d
  {
  }

  lemma {:induction false} ReadTermPrints(s: seq<Sym>)
    ensures var r := ReadTerm(s);
            r.Some? ==> s == TermSyms(r.value.0) + r.value.1
    decreases |s|, 3
  {
    ReadFactorPrints(s);
    var r := ReadFactor(s);
    if r.Some? {
      ReadProdPrints(SFac(r.value.0), r.value.1);
    }
  }

  lemma {:induction false} ReadProdPrints(acc: SqlTerm, s: seq<Sym>)
    ensures var r := ReadProd(acc, s);
            r.Some? ==> TermSyms(acc) + s == TermSyms(r.value.0) + r.value.1
    decreases |s|, 3
  {
    if s != [] && s[0].TimesSign? {
      ReadFactorPrints(s[1..]);
      var r := ReadFactor(s[1..]);
      if r.Some? {
        ReadProdPrints(SProd(acc, r.value.0), r.value.1);
        assert s == [TimesSign] + s[1..];
        Regroup(TermSyms(acc), [TimesSign], FactorSyms(r.value.0), r.value.1);
      }
    }
  }

  lemma {:induction false} ReadFactorPrints(s: seq<Sym>)
    ensures var r := ReadFactor(s);
            r.Some? ==> s == FactorSyms(r.value.0) + r.value.1
    decreases |s|, 2
  {
    if s != [] && (s[0].PlusSign? || s[0].MinusSign?) {
      ReadPrimPrints(s[1..]);
      assert s == [s[0]] + s[1..];
    } else {
      ReadPrimPrints(s);
      var r := ReadPrim(s);
      assert r.Some? ==> [] + PrimSyms(r.value.0) == PrimSyms(r.value.0);
    }
  }

  lemma {:induction false} ReadPrimPrints(s: seq<Sym>)
    ensures var r := ReadPrim(s);
            r.Some? ==> s == PrimSyms(r.value.0) + r.value.1
    decreases |s|, 1
  {
    if ReadPrim(s).Some? {
      assert s == [s[0]] + s[1..];
      match s[0]
      case Text(x) =>
      case Open => ReadGroupPrints(s);
      case SafeDiv => ReadDivisionPrints(s);
    }
  }

  lemma ExpectPrints(c: Sym, s: seq<Sym>)
    ensures Expect(c, s).Some? ==> s == [c] + Expect(c, s).value
  {
  }

  lemma {:induction false} ReadGroupPrints(s: seq<Sym>)
    requires ReadPrim(s).Some? && s[0].Open?
    ensures s == PrimSyms(ReadPrim(s).value.0) + ReadPrim(s).value.1
    decreases |s|, 0
  {
    ReadExprPrints(s[1..]);
    var (e, rest) := ReadExpr(s[1..]).value;
    ExpectPrints(Close, rest);
    var rest' := Expect(Close, rest).value;
    assert s == [Open] + (ExprSyms(e) + ([Close] + rest'));
    Regroup([Open], ExprSyms(e), [Close], rest');
  }

  lemma {:induction false} ReadDivisionPrints(s: seq<Sym>)
    requires ReadPrim(s).Some? && s[0].SafeDiv?
    ensures s == PrimSyms(ReadPrim(s).value.0) + ReadPrim(s).value.1
    decreases |s|, 0
  {
    ReadExprPrints(s[1..]);
    var (n, rest) := ReadExpr(s[1..]).value;
    ExpectPrints(Comma, rest);
    var rest' := Expect(Comma, rest).value;
    ReadExprPrints(rest');
    var (d, rest'') := ReadExpr(rest').value;
    ExpectPrints(Close, rest'');
    var tail := Expect(Close, rest'').value;
    assert s == [SafeDiv] + (ExprSyms(n) + ([Comma] + (ExprSyms(d) + ([Close] + tail))));
    Regroup([Comma], ExprSyms(d), [Close], tail);
    Regroup([SafeDiv], ExprSyms(n), [Comma] + ExprSyms(d) + [Close], tail);
    Regroup([SafeDiv] + ExprSyms(n), [Comma], ExprSyms(d), [Close]);
  }

  /** A text is read as a tree exactly when it is the print of that tree. */
  lemma ReadExactly(s: seq<Sym>, e: SqlExpr)
    ensures ReadExpr(s) == Some((e, [])) <==> s == ExprSyms(e)
  {
    ReadBack(e);
    ReadExprPrints(s);
    assert ExprSyms(e) + [] == ExprSyms(e);
  }
}
