/** From the text a user types to SQL: variables, spaces, and the value of the whole. */
module FormulaText {
  import opened Wrappers
  import opened FormulaSyntax
  import opened SqlReader
  import opened FormulaCompiler
  import opened FormulaTranslation
  import opened FormulaMeaning
  import opened Splitter = FormulaSplitter

  // ----- Spaces -----

  function StripSpaces(s: string): string {
    if s == "" then "" else (if s[0] == ' ' then "" else [s[0]]) + StripSpaces(s[1..])
  }

  lemma {:induction false} StripConcat(a: string, b: string)
    ensures StripSpaces(a + b) == StripSpaces(a) + StripSpaces(b)
  {
    if a == "" {
      assert a + b == b;
    } else {
      assert (a + b)[1..] == a[1..] + b;
      StripConcat(a[1..], b);
    }
  }

  lemma {:induction false} NothingToStrip(s: string)
    requires ' ' !in s
    ensures StripSpaces(s) == s
  {
    if s != "" {
      NothingToStrip(s[1..]);
    }
  }

  /** A space makes no difference wherever it stands, and without spaces nothing is changed. */
  lemma SpaceMakesNoDifference(a: string, b: string)
    ensures StripSpaces(a + " " + b) == StripSpaces(a + b)
    ensures ' ' !in a + b ==> StripSpaces(a + " " + b) == a + b
  {
    StripConcat(a + " ", b);
    StripConcat(a, " ");
    StripConcat(a, b);
    SpacesStrip(1);
    assert " " == Spaces(1) && StripSpaces(a) + "" == StripSpaces(a);
    if ' ' !in a + b {
      NothingToStrip(a + b);
    }
  }

  function Spaces(n: nat): string {
    seq(n, i => ' ')
  }

  /** The text with that many spaces before each of its characters, and behind the last. */
  function Spread(text: string, gaps: seq<nat>): string
    requires |gaps| == |text| + 1
  {
    Spaces(gaps[0]) + if text == "" then "" else [text[0]] + Spread(text[1..], gaps[1..])
  }

  lemma {:induction false} SpacesStrip(n: nat)
    ensures StripSpaces(Spaces(n)) == ""
  {
    if n > 0 {
      assert Spaces(n)[1..] == Spaces(n - 1);
      SpacesStrip(n - 1);
    }
  }

  lemma {:induction false} SpreadStrips(text: string, gaps: seq<nat>)
    requires |gaps| == |text| + 1 && ' ' !in text
    ensures StripSpaces(Spread(text, gaps)) == text
    decreases |text|
  {
    SpacesStrip(gaps[0]);
    if text == "" {
      assert Spread(text, gaps) == Spaces(gaps[0]);
    } else {
      var rest := Spread(text[1..], gaps[1..]);
      StripConcat(Spaces(gaps[0]), [text[0]] + rest);
      assert ([text[0]] + rest)[1..] == rest;
      SpreadStrips(text[1..], gaps[1..]);
    }
  }

  lemma OneSpaceMore(text: string, gaps: seq<nat>)
    requires |gaps| == |text| + 1
    ensures Spread(text, [gaps[0] + 1] + gaps[1..]) == " " + Spread(text, gaps)
  {
    var more := [gaps[0] + 1] + gaps[1..];
    assert more[1..] == gaps[1..];
    OneSpaceBefore(gaps[0], if text == "" then "" else [text[0]] + Spread(text[1..], gaps[1..]));
  }

  lemma OneSpaceBefore(n: nat, rest: string)
    ensures Spaces(n + 1) + rest == " " + (Spaces(n) + rest)
  {
    assert Spaces(n + 1) == " " + Spaces(n);
  }

  /** Every text is one without spaces, spread out. */
  lemma {:induction false} EveryTextIsSpread(s: string) returns (gaps: seq<nat>)
    ensures |gaps| == |StripSpaces(s)| + 1 && s == Spread(StripSpaces(s), gaps)
    ensures ' ' !in StripSpaces(s)
  {
    if s == "" {
      gaps := [0];
      assert Spread("", gaps) == "";
    } else {
      var rest := EveryTextIsSpread(s[1..]);
      if s[0] == ' ' {
        gaps := [rest[0] + 1] + rest[1..];
        OneSpaceMore(StripSpaces(s[1..]), rest);
        assert s == " " + s[1..] && StripSpaces(s) == StripSpaces(s[1..]);
        assert s == Spread(StripSpaces(s), gaps);
      } else {
        gaps := [0] + rest;
        var text := StripSpaces(s);
        assert s == [s[0]] + s[1..];
        assert gaps[1..] == rest && text == [s[0]] + StripSpaces(s[1..]) && text[1..] == StripSpaces(s[1..]);
        assert Spread(text, gaps) == "" + ([s[0]] + s[1..]);
        assert s == Spread(text, gaps);
      }
    }
  }

  // ----- Variables -----

  /** The name of the i-th variable, as %c prints its code. */
  function Alias(i: nat): string {
    var code := 65 + i;
    if code < 0xD800 || 0xE000 <= code < 0x11_0000 then [code as char] else "\U{FFFD}"
  }

  function VariableSql(alias: string, metric: string): string {
    "SUM(IF(" + alias + ", " + metric + ", 0))"
  }

  /** The first n variables, given what getMetricQueryString answers for each. */
  function Variables(metrics: seq<Result<string>>, n: nat): Result<Vars>
    requires n <= |metrics|
  {
    if n == 0 then Ok(map[])
    else
      var before :- Variables(metrics, n - 1);
      var metric :- metrics[n - 1];
      Ok(before[Alias(n - 1) := VariableSql(Alias(n - 1), metric)])
  }

  lemma {:induction false} FailedVariables(metrics: seq<Result<string>>, n: nat, m: nat)
    requires n <= m <= |metrics| && Variables(metrics, n).Err?
    ensures Variables(metrics, m) == Variables(metrics, n)
    decreases m
  {
    if n < m {
      FailedVariables(metrics, n, m - 1);
    }
  }

  /** A, B, C and so on: the character that many places behind A. */
  predicate IsName(w: string, i: nat) {
    |w| == 1 && w[0] as int == 'A' as int + i
  }

  /** What stands for a metric in the SQL. */
  predicate IsSum(sql: string, w: string, metric: string) {
    sql == "SUM(IF(" + w + ", " + metric + ", 0))"
  }

  /** The variables are A, B, C and so on, each with the SQL of its own metric, unless the query
      string of a metric fails. */
  lemma {:induction false} VariablesAre(metrics: seq<Result<string>>, n: nat)
    requires n <= |metrics| && n <= 0xD000
    ensures Variables(metrics, n).Ok? <==> forall i | 0 <= i < n :: metrics[i].Ok?
    ensures Variables(metrics, n).Ok? ==>
              var vars := Variables(metrics, n).value;
              && (forall w | w in vars :: exists i: nat :: i < n && IsName(w, i))
              && forall i: nat, w | i < n && IsName(w, i) :: w in vars && IsSum(vars[w], w, metrics[i].value)
  {
    if n > 0 {
      VariablesAre(metrics, n - 1);
      assert IsName(Alias(n - 1), n - 1);
      if Variables(metrics, n).Ok? {
        var vars := Variables(metrics, n).value;
        forall w | w in vars ensures exists i: nat :: i < n && IsName(w, i) {
          if w != Alias(n - 1) {
            var i: nat :| i < n - 1 && IsName(w, i);
          }
        }
        forall i: nat, w | i < n && IsName(w, i) ensures w in vars && IsSum(vars[w], w, metrics[i].value) {
          assert w == Alias(n - 1) <==> i == n - 1;
        }
      }
    }
  }

  // ----- The whole -----

  function FormulaSql(formula: string, vars: Vars): Result<Str> {
    var tokens :- Split(StripSpaces(formula), vars);
    Compile(tokens, vars)
  }

  /** evaluateMetricsFormula, given the SQL of each metric. */
  method EvaluateMetricsFormula(formula: string, metrics: seq<Result<string>>) returns (result: Result<Str>)
    ensures result ==
              match Variables(metrics, |metrics|)
              case Err(e) => Err(e)
              case Ok(vars) =>
                match FormulaSql(formula, vars)
                case Err(e) => Err(e)
                case Ok(sql) => Ok(sql + [Text(" AS custom_metric")])
  {
    var metricVariables: Vars := map[];
    for i := 0 to |metrics|
      invariant Variables(metrics, i) == Ok(metricVariables)
    {
      var alias := Alias(i);
      if metrics[i].Err? {
        FailedVariables(metrics, i + 1, |metrics|);
        return Err(metrics[i].error);
      }
      metricVariables := metricVariables[alias := VariableSql(alias, metrics[i].value)];
    }
    var arrFormula := FormulaSplitter(StripSpaces(formula), metricVariables);
    if arrFormula.Err? {
      return Err(arrFormula.error);
    }
    var selectClause := ParseMetricsFormulaExpression(arrFormula.value, metricVariables);
    if selectClause.Err? {
      return Err(selectClause.error);
    }
    return Ok(selectClause.value + [Text(" AS custom_metric")]);
  }

  /** Words are kept apart by operators. */
  ghost predicate Separated(tokens: seq<string>) {
    && tokens != []
    && forall i :: 0 <= i < |tokens| - 1 && tokens[i] !in OPERATORS ==> tokens[i + 1] in OPERATORS
  }

  lemma SeparatedJoin(a: seq<string>, op: string, b: seq<string>)
    requires Separated(a) && Separated(b) && op in OPERATORS
    ensures Separated(a + [op] + b)
  {
    var s := a + [op] + b;
    forall i | 0 <= i < |s| - 1 && s[i] !in OPERATORS ensures s[i + 1] in OPERATORS {
      if i < |a| - 1 {
        assert s[i] == a[i] && s[i + 1] == a[i + 1];
      } else if i > |a| {
        assert s[i] == b[i - |a| - 1] && s[i + 1] == b[i - |a|];
      }
    }
  }

  lemma {:induction false} ExprSeparated(e: Expr, vars: Vars)
    requires ExprWords(e, w => IsWord(w, vars))
    ensures Separated(ExprTokens(e)) && forall t | t in ExprTokens(e) :: IsToken(t, vars)
    ensures ExprWords(e, w => w !in OPERATORS)
  {
    match e
    case Single(t) => TermSeparated(t, vars);
    case Sum(l, op, r) =>
      ExprSeparated(l, vars);
      TermSeparated(r, vars);
      SeparatedJoin(ExprTokens(l), AddToken(op), TermTokens(r));
  }

  lemma {:induction false} TermSeparated(t: Term, vars: Vars)
    requires TermWords(t, w => IsWord(w, vars))
    ensures Separated(TermTokens(t)) && forall x | x in TermTokens(t) :: IsToken(x, vars)
    ensures TermWords(t, w => w !in OPERATORS)
  {
    match t
    case Fac(f) => FactorSeparated(f, vars);
    case Prod(l, op, r) =>
      TermSeparated(l, vars);
      FactorSeparated(r, vars);
      SeparatedJoin(TermTokens(l), MulToken(op), FactorTokens(r));
  }

  lemma {:induction false} FactorSeparated(f: Factor, vars: Vars)
    requires FactorWords(f, w => IsWord(w, vars))
    ensures Separated(FactorTokens(f)) && forall x | x in FactorTokens(f) :: IsToken(x, vars)
    ensures FactorWords(f, w => w !in OPERATORS)
  {
    match f.prim {
      case Word(w) =>
      case Group(e) => ExprSeparated(e, vars);
    }
  }

  function Dots(t: string): nat {
    if t == "" then 0 else Dots(t[1..]) + if t[0] == '.' then 1 else 0
  }

  /** A number as SQL reads it, or something that is no number: all but numbers with two dots. */
  predicate Readable(t: string) {
    IsNumeral(t) ==> Dots(t) <= 1
  }

  function SqlReads(): string -> bool {
    t => Readable(t)
  }

  predicate IsNumeral(t: string) {
    t != "" && t[0] in DIGITS && forall c | c in t :: c in DIGITS || c == '.'
  }

  lemma {:induction false} TokensSplit(e: Expr, vars: Vars)
    requires ExprWords(e, w => IsWord(w, vars))
    ensures Split(Concat(ExprTokens(e)), vars) == Ok(ExprTokens(e)) && ExprWords(e, w => w !in OPERATORS)
  {
    var tokens := ExprTokens(e);
    ExprSeparated(e, vars);
    forall i | 0 <= i < |tokens| - 1 && IsNumber(tokens[i], vars) ensures !Extends(tokens[i + 1]) {
      assert tokens[i] !in OPERATORS;
    }
    SplitExact(Concat(tokens), tokens, vars);
  }

  lemma {:induction false} ConcatHolds(tokens: seq<string>, c: char)
    requires forall t | t in tokens :: c !in t
    ensures c !in Concat(tokens)
  {
    if tokens != [] {
      assert tokens[0] in tokens && forall t | t in tokens[1..] :: t in tokens;
      ConcatHolds(tokens[1..], c);
    }
  }

  lemma NoSpaceInTokens(e: Expr, vars: Vars)
    requires ExprWords(e, w => IsWord(w, vars)) && " " !in vars
    ensures ' ' !in Concat(ExprTokens(e))
  {
    ExprSeparated(e, vars);
    forall t | t in ExprTokens(e) ensures ' ' !in t {
      assert IsToken(t, vars);
      assert |t| == 1 ==> t == [t[0]];
    }
    ConcatHolds(ExprTokens(e), ' ');
  }

  /** From the text a user types to the value SQL computes.  However many spaces stand before,
      between or behind its characters, a formula is accepted, and the emitted SQL has its value
      exactly when no minus sign directly follows a minus sign and no number has two dots, which
      the tokeniser lets pass. */
  lemma FormulaSqlMeaning(e: Expr, gaps: seq<nat>, vars: Vars, val: string -> Value)
    requires ExprWords(e, w => IsWord(w, vars)) && " " !in vars
    requires |gaps| == |Concat(ExprTokens(e))| + 1
    ensures var sql := FormulaSql(Spread(Concat(ExprTokens(e)), gaps), vars);
            && sql.Ok?
            && ReadSql(sql.value, SqlReads(), val)
               == if Doubled(ExprTokens(e), "-") || !ExprWords(e, SourceOk(SqlReads(), vars)) then None
                  else Some(ExprValue(e, SourceEnv(val, vars)))
  {
    NoSpaceInTokens(e, vars);
    SpreadStrips(Concat(ExprTokens(e)), gaps);
    TokensSplit(e, vars);
    CompilePreservesMeaning(e, vars, SqlReads(), val);
  }

  // ----- The whole, from the metrics on -----

  /** What a formula over n metrics is written with. */
  predicate IsMetricWord(w: string, n: nat) {
    IsNumeral(w) || exists i :: 0 <= i < n && IsName(w, i)
  }

  /** Words that mean the same give formulas the same value. */
  lemma {:induction false} SameValue(e: Expr, f: string -> Value, g: string -> Value, ok: string -> bool)
    requires ExprWords(e, ok) && forall w | ok(w) :: f(w) == g(w)
    ensures ExprValue(e, f) == ExprValue(e, g)
  {
    match e
    case Single(t) => SameTermValue(t, f, g, ok);
    case Sum(l, _, r) =>
      SameValue(l, f, g, ok);
      SameTermValue(r, f, g, ok);
  }

  lemma {:induction false} SameTermValue(t: Term, f: string -> Value, g: string -> Value, ok: string -> bool)
    requires TermWords(t, ok) && forall w | ok(w) :: f(w) == g(w)
    ensures TermValue(t, f) == TermValue(t, g)
  {
    match t
    case Fac(x) => SameFactorValue(x, f, g, ok);
    case Prod(l, _, r) =>
      SameTermValue(l, f, g, ok);
      SameFactorValue(r, f, g, ok);
  }

  lemma {:induction false} SameFactorValue(x: Factor, f: string -> Value, g: string -> Value, ok: string -> bool)
    requires FactorWords(x, ok) && forall w | ok(w) :: f(w) == g(w)
    ensures FactorValue(x, f) == FactorValue(x, g)
  {
    match x.prim
    case Word(_) =>
    case Group(e) => SameValue(e, f, g, ok);
  }

  lemma {:induction false} SameWords(e: Expr, f: string -> bool, g: string -> bool, ok: string -> bool)
    requires ExprWords(e, ok) && forall w | ok(w) :: f(w) == g(w)
    ensures ExprWords(e, f) == ExprWords(e, g)
  {
    match e
    case Single(t) => SameTermWords(t, f, g, ok);
    case Sum(l, _, r) =>
      SameWords(l, f, g, ok);
      SameTermWords(r, f, g, ok);
  }

  lemma {:induction false} SameTermWords(t: Term, f: string -> bool, g: string -> bool, ok: string -> bool)
    requires TermWords(t, ok) && forall w | ok(w) :: f(w) == g(w)
    ensures TermWords(t, f) == TermWords(t, g)
  {
    match t
    case Fac(x) => SameFactorWords(x, f, g, ok);
    case Prod(l, _, r) =>
      SameTermWords(l, f, g, ok);
      SameFactorWords(r, f, g, ok);
  }

  lemma {:induction false} SameFactorWords(x: Factor, f: string -> bool, g: string -> bool, ok: string -> bool)
    requires FactorWords(x, ok) && forall w | ok(w) :: f(w) == g(w)
    ensures FactorWords(x, f) == FactorWords(x, g)
  {
    match x.prim
    case Word(_) =>
    case Group(e) => SameWords(e, f, g, ok);
  }

  /** The words of a formula over metrics are words of the tokeniser, and stand for what they
      should. */
  lemma NumeralWord(w: string, vars: Vars, n: nat)
    requires IsNumeral(w) && forall x | x in vars :: exists i: nat :: i < n && IsName(x, i)
    ensures IsWord(w, vars) && w !in vars
  {
    forall c | c in w ensures InNumber(c) {
      DigitsAre(c);
    }
    DigitsAre(w[0]);
    OperatorsAre(w[0]);
    NotAName(w);
    NotAName([w[0]]);
    assert |w| == 1 ==> w == [w[0]];
  }

  lemma NotAName(w: string)
    requires w != "" && IsDigit(w[0])
    ensures forall i: nat :: !IsName(w, i)
  {
  }

  lemma NameWord(w: string, i: nat, metrics: seq<Result<string>>, vars: Vars)
    requires |metrics| <= 0xD000 && Variables(metrics, |metrics|) == Ok(vars) && i < |metrics| && IsName(w, i)
    ensures IsWord(w, vars) && metrics[i].Ok? && vars[w] == "SUM(IF(" + w + ", " + metrics[i].value + ", 0))"
    ensures Readable(vars[w]) && Dots(w) == 0
  {
    VariablesAre(metrics, |metrics|);
    assert IsSum(vars[w], w, metrics[i].value) && vars[w][0] == 'S';
    assert w[1..] == "" && w == [w[0]];
    OperatorsAre(w[0]);
    NotANumeral(vars[w]);
  }

  lemma NotANumeral(t: string)
    requires t != "" && t[0] == 'S'
    ensures !IsNumeral(t)
  {
    DigitsAre('S');
  }

  /** What env says of the words, for the sums val says of their SQL. */
  ghost predicate Means(metrics: seq<Result<string>>, val: string -> Value, env: string -> Value) {
    && (forall i: nat, w | i < |metrics| && metrics[i].Ok? && IsName(w, i) ::
          env(w) == val("SUM(IF(" + w + ", " + metrics[i].value + ", 0))"))
    && forall w | IsNumeral(w) :: env(w) == val(w)
  }

  lemma MetricWord(w: string, metrics: seq<Result<string>>, vars: Vars, val: string -> Value, env: string -> Value)
    requires |metrics| <= 0xD000 && Variables(metrics, |metrics|) == Ok(vars) && IsMetricWord(w, |metrics|)
    requires Means(metrics, val, env)
    ensures IsWord(w, vars)
    ensures SourceEnv(val, vars)(w) == env(w)
    ensures SourceOk(SqlReads(), vars)(w) == (Dots(w) <= 1)
  {
    if IsNumeral(w) {
      VariablesAre(metrics, |metrics|);
      NumeralWord(w, vars, |metrics|);
    } else {
      var i: nat :| i < |metrics| && IsName(w, i);
      NameWord(w, i, metrics, vars);
    }
  }

  /** The same for a whole custom metric: A, B, C and so on stand for the sums of its metrics,
      each under its own alias, and numbers for themselves. */
  lemma MetricFormulaMeaning(metrics: seq<Result<string>>, e: Expr, gaps: seq<nat>, val: string -> Value,
                             env: string -> Value)
    requires |metrics| <= 0xD000 && forall i | 0 <= i < |metrics| :: metrics[i].Ok?
    requires ExprWords(e, w => IsMetricWord(w, |metrics|)) && |gaps| == |Concat(ExprTokens(e))| + 1
    requires Means(metrics, val, env)
    ensures Variables(metrics, |metrics|).Ok?
    ensures var sql := FormulaSql(Spread(Concat(ExprTokens(e)), gaps), Variables(metrics, |metrics|).value);
            && sql.Ok?
            && ReadSql(sql.value, SqlReads(), val)
               == if Doubled(ExprTokens(e), "-") || !ExprWords(e, w => Dots(w) <= 1) then None
                  else Some(ExprValue(e, env))
  {
    VariablesAre(metrics, |metrics|);
    var vars := Variables(metrics, |metrics|).value;
    var ok := w => IsMetricWord(w, |metrics|);
    forall w | ok(w)
      ensures IsWord(w, vars) && SourceEnv(val, vars)(w) == env(w)
      ensures SourceOk(SqlReads(), vars)(w) == (Dots(w) <= 1)
    {
      MetricWord(w, metrics, vars, val, env);
    }
    SameWords(e, w => IsWord(w, vars), ok, ok);
    SameWords(e, SourceOk(SqlReads(), vars), w => Dots(w) <= 1, ok);
    SameValue(e, SourceEnv(val, vars), env, ok);
    FormulaSqlMeaning(e, gaps, vars, val);
  }

  // ----- Two dots -----

  function OneWord(w: string): Expr {
    Single(Fac(Factor(NoSign, Word(w))))
  }

  lemma OneWordWords(w: string, ok: string -> bool)
    ensures ExprWords(OneWord(w), ok) == ok(w)
  {
    var f := Factor(NoSign, Word(w));
    assert FactorWords(f, ok) == PrimWords(Word(w), ok) == ok(w);
    assert TermWords(Fac(f), ok) == FactorWords(f, ok);
  }

  lemma OneWordTokens(w: string)
    ensures ExprTokens(OneWord(w)) == [w] && Concat([w]) == w
  {
    var f := Factor(NoSign, Word(w));
    assert FactorTokens(f) == [] + [w];
    assert TermTokens(Fac(f)) == FactorTokens(f);
    assert [w][1..] == [] && w + "" == w;
  }

  lemma UnreadableIsLost(w: string, val: string -> Value)
    requires IsWord(w, map[]) && ' ' !in w && !Readable(w)
    ensures FormulaSql(w, map[]).Ok?
    ensures ReadSql(FormulaSql(w, map[]).value, SqlReads(), val) == None
  {
    OneWordWords(w, t => IsWord(t, map[]));
    OneWordWords(w, SourceOk(SqlReads(), map[]));
    OneWordTokens(w);
    NothingToStrip(w);
    TokensSplit(OneWord(w), map[]);
    CompilePreservesMeaning(OneWord(w), map[], SqlReads(), val);
  }

  /** The tokeniser accepts 1.. as one number, and SQL does not. */
  lemma TwoDotsAreLost(val: string -> Value)
    ensures FormulaSql("1..", map[]).Ok?
    ensures ReadSql(FormulaSql("1..", map[]).value, SqlReads(), val) == None
  {
    var w := "1..";
    assert w[1..] == ".." && ".."[1..] == "." && "."[1..] == "";
    assert Dots(".") == 1 && Dots("..") == 2;
    assert w !in OPERATORS && [w[0]] !in OPERATORS;
    assert DIGITS[1] == '1';
    UnreadableIsLost(w, val);
  }
}
