/** The tokeniser, and the whole path from the text of a formula to SQL. */
module FormulaSplitter {
  import opened Wrappers
  import opened FormulaSyntax
  import opened SqlReader
  import opened FormulaCompiler
  import opened FormulaTranslation
  import opened FormulaMeaning

  predicate IsDigit(c: char) {
    '0' <= c <= '9'
  }

  predicate InNumber(c: char) {
    IsDigit(c) || c == '.'
  }

  predicate IsNumber(t: string, vars: Vars) {
    t != "" && IsDigit(t[0]) && [t[0]] !in OPERATORS && [t[0]] !in vars && forall c | c in t :: InNumber(c)
  }

  /** A word of a formula that the tokeniser sees as one token. */
  predicate IsWord(t: string, vars: Vars) {
    t !in OPERATORS && ((|t| == 1 && t in vars) || IsNumber(t, vars))
  }

  predicate IsToken(t: string, vars: Vars) {
    t in OPERATORS || IsWord(t, vars)
  }

  function Concat(tokens: seq<string>): string {
    if tokens == [] then "" else tokens[0] + Concat(tokens[1..])
  }

  /** A token that, after a number, would be read as more of the number. */
  predicate Extends(t: string) {
    t != "" && InNumber(t[0])
  }

  /** tokens is a way to cut s into tokens with every number as long as it can be. */
  ghost predicate IsSplit(s: string, tokens: seq<string>, vars: Vars) {
    && Concat(tokens) == s
    && (forall t | t in tokens :: IsToken(t, vars))
    && forall i :: 0 <= i < |tokens| - 1 && IsNumber(tokens[i], vars) ==> !Extends(tokens[i + 1])
  }

  function NumberLength(s: string): (n: nat)
    ensures n <= |s|
  {
    if s != "" && InNumber(s[0]) then 1 + NumberLength(s[1..]) else 0
  }

  function Split(s: string, vars: Vars): Result<seq<string>>
    decreases |s|
  {
    if s == "" then Ok([])
    else if [s[0]] in OPERATORS || [s[0]] in vars then
      var rest :- Split(s[1..], vars);
      Ok([[s[0]]] + rest)
    else if IsDigit(s[0]) then
      var n := NumberLength(s);
      var rest :- Split(s[n..], vars);
      Ok([s[..n]] + rest)
    else Err("invalid formula")
  }

  /** formulaSplitter. */
  method FormulaSplitter(formula: string, vars: Vars) returns (result: Result<seq<string>>)
    ensures result == Split(formula, vars)
  {
    var arrFormula: seq<string> := [];
    var i := 0;
    assert formula[0..] == formula;
    PrefixedEmpty(Split(formula, vars));
    while i < |formula|
      invariant 0 <= i <= |formula|
      invariant Split(formula, vars) == Prefixed(arrFormula, Split(formula[i..], vars))
    {
      var item := [formula[i]];
      ghost var s, arr := formula[i..], arrFormula;
      if item in OPERATORS || item in vars {
        arrFormula := arrFormula + [item];
      } else if IsDigit(formula[i]) {
        var number := ReadNumber(formula, i);
        i := i + |number| - 1;
        arrFormula := arrFormula + [number];
      } else {
        return Err("invalid formula");
      }
      i := i + 1;
      assert s[|s| - (|formula| - i)..] == formula[i..];
      PrefixedTwice(arr, arrFormula[|arr|], Split(formula[i..], vars));
    }
    assert formula[i..] == "" && arrFormula + [] == arrFormula;
    return Ok(arrFormula);
  }

  /** The inner loop of the tokeniser: the number that starts at i. */
  method ReadNumber(formula: string, i: nat) returns (number: string)
    requires i < |formula| && IsDigit(formula[i])
    ensures number != "" && i + |number| <= |formula|
    ensures number == formula[i..][..NumberLength(formula[i..])]
  {
    var j := i;
    number := [formula[j]];
    assert formula[i..][1..] == formula[i + 1..];
    while j + 1 < |formula| && InNumber(formula[j + 1])
      invariant i <= j < |formula|
      invariant number == formula[i..j + 1]
      invariant NumberLength(formula[i..]) == |number| + NumberLength(formula[j + 1..])
    {
      assert formula[j + 1..][1..] == formula[j + 2..];
      j := j + 1;
      number := number + [formula[j]];
    }
    assert number == formula[i..][..|number|];
  }

  lemma PrefixedEmpty(r: Result<seq<string>>)
    ensures Prefixed([], r) == r
  {
    if r.Ok? {
      assert [] + r.value == r.value;
    }
  }

  function Prefixed(a: seq<string>, r: Result<seq<string>>): Result<seq<string>> {
    match r
    case Ok(b) => Ok(a + b)
    case Err(e) => Err(e)
  }

  lemma PrefixedTwice(a: seq<string>, t: string, r: Result<seq<string>>)
    ensures Prefixed(a, Prefixed([t], r)) == Prefixed(a + [t], r)
  {
    if r.Ok? {
      assert a + ([t] + r.value) == a + [t] + r.value;
    }
  }

  // ----- The tokeniser cuts exactly as IsSplit says -----

  lemma {:induction false} NumberLengthSpec(s: string)
    ensures forall i :: 0 <= i < NumberLength(s) ==> InNumber(s[i])
    ensures NumberLength(s) < |s| ==> !InNumber(s[NumberLength(s)])
  {
    if s != "" && InNumber(s[0]) {
      NumberLengthSpec(s[1..]);
    }
  }

  lemma IsSplitLonger(t: string, s: string, tokens: seq<string>, vars: Vars)
    requires IsToken(t, vars) && IsSplit(s, tokens, vars) && (IsNumber(t, vars) ==> !Extends(s))
    ensures IsSplit(t + s, [t] + tokens, vars)
  {
    var all := [t] + tokens;
    assert all[1..] == tokens;
    if tokens != [] {
      assert IsToken(tokens[0], vars) && s[0] == tokens[0][0];
    }
    forall i | 0 <= i < |all| - 1 && IsNumber(all[i], vars) ensures !Extends(all[i + 1]) {
      if i > 0 {
        assert all[i] == tokens[i - 1] && all[i + 1] == tokens[i];
      }
    }
  }

  lemma {:induction false} SplitSound(s: string, vars: Vars)
    ensures Split(s, vars).Ok? ==> IsSplit(s, Split(s, vars).value, vars)
    decreases |s|
  {
    if s != "" && Split(s, vars).Ok? {
      var t := Split(s, vars).value[0];
      NumberLengthSpec(s);
      SplitSound(s[|t|..], vars);
      assert s == t + s[|t|..];
      IsSplitLonger(t, s[|t|..], Split(s[|t|..], vars).value, vars);
    }
  }

  /** One token at a time. */
  lemma SplitFirst(t: string, s: string, vars: Vars)
    requires IsToken(t, vars)
    requires IsNumber(t, vars) ==> !Extends(s)
    ensures Split(t + s, vars) == Prefixed([t], Split(s, vars))
  {
    assert t != "" && (t + s)[0] == t[0];
    assert (t + s)[|t|..] == s && (t + s)[..|t|] == t;
    if IsNumber(t, vars) {
      NumberLengthExact(t + s, |t|);
    } else {
      assert |t| == 1 && t == [t[0]];
    }
  }

  lemma IsSplitShorter(s: string, tokens: seq<string>, vars: Vars)
    requires IsSplit(s, tokens, vars) && tokens != []
    ensures IsToken(tokens[0], vars) && s == tokens[0] + Concat(tokens[1..])
    ensures IsSplit(Concat(tokens[1..]), tokens[1..], vars)
    ensures IsNumber(tokens[0], vars) ==> !Extends(Concat(tokens[1..]))
  {
    var rest := tokens[1..];
    forall i | 0 <= i < |rest| - 1 && IsNumber(rest[i], vars) ensures !Extends(rest[i + 1]) {
      assert rest[i] == tokens[i + 1] && rest[i + 1] == tokens[i + 2];
    }
    if rest != [] {
      assert IsToken(rest[0], vars) && rest[0] == tokens[1];
      assert Concat(rest)[0] == rest[0][0];
    }
  }

  lemma {:induction false} SplitComplete(s: string, tokens: seq<string>, vars: Vars)
    requires IsSplit(s, tokens, vars)
    ensures Split(s, vars) == Ok(tokens)
    decreases |tokens|
  {
    if tokens != [] {
      var t, rest := tokens[0], tokens[1..];
      IsSplitShorter(s, tokens, vars);
      SplitComplete(Concat(rest), rest, vars);
      SplitFirst(t, Concat(rest), vars);
      assert [t] + rest == tokens;
    }
  }

  lemma {:induction false} NumberLengthExact(s: string, n: nat)
    requires n <= |s|
    requires forall i :: 0 <= i < n ==> InNumber(s[i])
    requires n < |s| ==> !InNumber(s[n])
    ensures NumberLength(s) == n
  {
    if n > 0 {
      NumberLengthExact(s[1..], n - 1);
    }
  }

  /** The tokeniser returns a list exactly when that list is a split of the text: so its
      result concatenates to the input with numbers maximal, no text has two splits, it fails
      only on a text that has none, and it gives back any printed list with no number before
      something that would extend it. */
  lemma SplitExact(s: string, tokens: seq<string>, vars: Vars)
    ensures Split(s, vars) == Ok(tokens) <==> IsSplit(s, tokens, vars)
  {
    SplitSound(s, vars);
    if IsSplit(s, tokens, vars) {
      SplitComplete(s, tokens, vars);
    }
  }

  // ----- Which texts have a split -----

  const DIGITS := "0123456789"

  lemma DigitsAre(c: char)
    ensures IsDigit(c) <==> c in DIGITS
    ensures InNumber(c) <==> c in DIGITS || c == '.'
  {
    if IsDigit(c) {
      assert DIGITS[c as int - 48] == c;
    }
  }

  /** What character i of a text may be: an operator, a variable, a digit, or a dot behind a
      digit or another dot. */
  predicate Acceptable(s: string, i: nat, vars: Vars)
    requires i < |s|
  {
    || s[i] in "+-*/()" || [s[i]] in vars || s[i] in DIGITS
    || (s[i] == '.' && i > 0 && (s[i - 1] in DIGITS || s[i - 1] == '.'))
  }

  lemma OperatorsAre(c: char)
    ensures [c] in OPERATORS <==> c in "+-*/()"
  {
    assert ["+"[0]] == "+" && ["-"[0]] == "-" && ["*"[0]] == "*" && ["/"[0]] == "/";
    assert ["("[0]] == "(" && [")"[0]] == ")";
    if [c] in OPERATORS {
      var op :| op in OPERATORS && [c] == op;
      assert op[0] == c;
    }
  }

  /** The tokeniser accepts exactly the texts all of whose characters are acceptable, given that
      no variable is named by a digit or a dot. */
  lemma {:induction false} AcceptedExactly(s: string, vars: Vars)
    requires forall c | c in DIGITS || c == '.' :: [c] !in vars
    ensures Split(s, vars).Ok? <==> forall i | 0 <= i < |s| :: Acceptable(s, i, vars)
    decreases |s|
  {
    if s != "" {
      DigitsAre(s[0]);
      OperatorsAre(s[0]);
      if [s[0]] in OPERATORS || [s[0]] in vars {
        AcceptedExactly(s[1..], vars);
        AcceptableRest(s, 1, vars);
      } else if IsDigit(s[0]) {
        var n := NumberLength(s);
        NumberLengthSpec(s);
        NumberAcceptable(s, n, vars);
        AcceptedExactly(s[n..], vars);
        AcceptableRest(s, n, vars);
      } else {
        assert !Acceptable(s, 0, vars);
      }
    }
  }

  lemma NumberAcceptable(s: string, n: nat, vars: Vars)
    requires 0 < n <= |s| && IsDigit(s[0]) && forall i | 0 <= i < n :: InNumber(s[i])
    ensures forall i | 0 <= i < n :: Acceptable(s, i, vars)
  {
    forall i | 0 <= i < n ensures Acceptable(s, i, vars) {
      DigitsAre(s[i]);
      if i > 0 {
        DigitsAre(s[i - 1]);
      }
    }
  }

  /** Behind a token, what is acceptable does not depend on it. */
  lemma AcceptableRest(s: string, n: nat, vars: Vars)
    requires 0 < n <= |s| && forall i | 0 <= i < n :: Acceptable(s, i, vars)
    requires forall c | c in DIGITS || c == '.' :: [c] !in vars
    requires InNumber(s[n - 1]) ==> n == |s| || !InNumber(s[n])
    ensures (forall i | 0 <= i < |s| :: Acceptable(s, i, vars))
       <==> forall i | 0 <= i < |s| - n :: Acceptable(s[n..], i, vars)
  {
    DigitsAre(s[n - 1]);
    if n < |s| {
      DigitsAre(s[n]);
    }
    forall i | 0 <= i < |s| - n ensures Acceptable(s[n..], i, vars) <==> Acceptable(s, n + i, vars) {
      assert s[n..][i] == s[n + i];
      assert i > 0 ==> s[n..][i - 1] == s[n + i - 1];
    }
    if forall i | 0 <= i < |s| - n :: Acceptable(s[n..], i, vars) {
      forall i | 0 <= i < |s| ensures Acceptable(s, i, vars) {
        if i >= n {
          assert Acceptable(s[n..], i - n, vars);
        }
      }
    }
  }
}
