/** The arithmetic formulas a calculated metric is written in: their grammar, their tokens
    and their value.

    A token is a string, as in the program: one of the six operator characters, or a word
    (a number or a one-letter variable).  The grammar is the usual one: sums of products of
    factors, a factor being a word or a bracketed formula under an optional sign. */
module FormulaSyntax {

  datatype Sign = NoSign | Pos | Neg
  datatype AddOp = Add | Sub
  datatype MulOp = Mul | Div

  datatype Expr = Single(term: Term) | Sum(left: Expr, addOp: AddOp, right: Term)
  datatype Term = Fac(factor: Factor) | Prod(first: Term, mulOp: MulOp, second: Factor)
  datatype Factor = Factor(sign: Sign, prim: Prim)
  datatype Prim = Word(w: string) | Group(e: Expr)

  const OPERATORS: set<string> := {"+", "-", "*", "/", "(", ")"}

  function SignTokens(s: Sign): seq<string> {
    match s
    case NoSign => []
    case Pos => ["+"]
    case Neg => ["-"]
  }

  function AddToken(op: AddOp): string {
    if op.Add? then "+" else "-"
  }

  function MulToken(op: MulOp): string {
    if op.Mul? then "*" else "/"
  }

  function ExprTokens(e: Expr): seq<string> {
    match e
    case Single(t) => TermTokens(t)
    case Sum(l, op, r) => ExprTokens(l) + [AddToken(op)] + TermTokens(r)
  }

  function TermTokens(t: Term): seq<string> {
    match t
    case Fac(f) => FactorTokens(f)
    case Prod(l, op, r) => TermTokens(l) + [MulToken(op)] + FactorTokens(r)
  }

  function FactorTokens(f: Factor): seq<string> {
    SignTokens(f.sign) + PrimTokens(f.prim)
  }

  function PrimTokens(p: Prim): seq<string> {
    match p
    case Word(w) => [w]
    case Group(e) => ["("] + ExprTokens(e) + [")"]
  }

  /** Every word of the formula satisfies ok. */
  predicate ExprWords(e: Expr, ok: string -> bool) {
    match e
    case Single(t) => TermWords(t, ok)
    case Sum(l, _, r) => ExprWords(l, ok) && TermWords(r, ok)
  }

  predicate TermWords(t: Term, ok: string -> bool) {
    match t
    case Fac(f) => FactorWords(f, ok)
    case Prod(l, _, r) => TermWords(l, ok) && FactorWords(r, ok)
  }

  predicate FactorWords(f: Factor, ok: string -> bool) {
    PrimWords(f.prim, ok)
  }

  predicate PrimWords(p: Prim, ok: string -> bool) {
    match p
    case Word(w) => ok(w)
    case Group(e) => ExprWords(e, ok)
  }

  // ----- Values -----

  /** A SQL number: NULL propagates through every operation. */
  datatype Value = Null | Num(x: real)

  function Signed(s: Sign, v: Value): Value {
    if v.Num? && s.Neg? then Num(-v.x) else v
  }

  function Added(op: AddOp, a: Value, b: Value): Value {
    if a.Null? || b.Null? then Null
    else if op.Add? then Num(a.x + b.x) else Num(a.x - b.x)
  }

  function Times(a: Value, b: Value): Value {
    if a.Null? || b.Null? then Null else Num(a.x * b.x)
  }

  /** Division, with NULL for a zero divisor. */
  function Divided(a: Value, b: Value): Value {
    if a.Null? || b.Null? || b.x == 0.0 then Null else Num(a.x / b.x)
  }

  /** Sums and products are those of numbers; a difference undoes a sum, and a quotient a product;
      only a zero divisor gives NULL for numbers, and NULL gives NULL. */
  lemma Arithmetic(op: AddOp, a: Value, b: Value, x: real, y: real)
    ensures Added(Add, Num(x), Num(y)) == Num(x + y) && Times(Num(x), Num(y)) == Num(x * y)
    ensures Added(Sub, Added(Add, Num(x), Num(y)), Num(y)) == Num(x) && Signed(Neg, Num(x)) == Num(0.0 - x)
    ensures if y == 0.0 then Divided(Num(x), Num(y)) == Null
            else Divided(Times(Num(x), Num(y)), Num(y)) == Num(x)
                 && Times(Divided(Num(x), Num(y)), Num(y)) == Num(x)
    ensures a.Null? || b.Null? ==>
              Added(op, a, b) == Null && Times(a, b) == Null && Divided(a, b) == Null && Signed(Neg, Null) == Null
  {
    if y != 0.0 {
      var q, r := x / y, x * y / y;
      assert q * y == x && r * y == x * y;
      assert (r - x) * y == 0.0;
    }
  }

  /** The value of a formula under an assignment of values to its words. */
  function ExprValue(e: Expr, env: string -> Value): Value {
    match e
    case Single(t) => TermValue(t, env)
    case Sum(l, op, r) => Added(op, ExprValue(l, env), TermValue(r, env))
  }

  function TermValue(t: Term, env: string -> Value): Value {
    match t
    case Fac(f) => FactorValue(f, env)
    case Prod(l, Mul, r) => Times(TermValue(l, env), FactorValue(r, env))
    case Prod(l, Div, r) => Divided(TermValue(l, env), FactorValue(r, env))
  }

  function FactorValue(f: Factor, env: string -> Value): Value {
    Signed(f.sign, PrimValue(f.prim, env))
  }

  function PrimValue(p: Prim, env: string -> Value): Value {
    match p
    case Word(w) => env(w)
    case Group(e) => ExprValue(e, env)
  }
}
