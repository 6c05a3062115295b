/** The compiler from formula tokens to SQL text.

    Every Go string is a sequence of SQL symbols here, so formulaStringArr is a sequence of
    such strings, comparing one with a bracket is comparing it with a one-symbol string, and
    strings.Join is Flatten.  The string a recursive call returns becomes one element. */
module FormulaCompiler {
  import opened Wrappers
  import opened SqlReader

  type Str = seq<Sym>

  function Flatten(out: seq<Str>): Str {
    if out == [] then [] else out[0] + Flatten(out[1..])
  }

  /** What a word is emitted as: the SQL of a variable, or the word itself. */
  function WordSql(w: string, vars: map<string, string>): string {
    if w in vars then vars[w] else w
  }

  function OperatorStr(token: string): Str
    requires token == "+" || token == "-" || token == "*"
  {
    if token == "+" then [PlusSign] else if token == "-" then [MinusSign] else [TimesSign]
  }

  /** Where the bracket opened just before tokens is closed again: the first index at which
      depth, the number of brackets open before it, drops to zero; |tokens| if there is none. */
  function ClosingIndex(tokens: seq<string>, depth: nat): (k: nat)
    requires depth > 0
    ensures k <= |tokens|
  {
    if tokens == [] then 0
    else if tokens[0] == ")" && depth == 1 then 0
    else
      1 + ClosingIndex(tokens[1..],
                       if tokens[0] == "(" then depth + 1 else if tokens[0] == ")" then depth - 1 else depth)
  }

  /** The index at which a backward walk over the emitted elements first meets bracket depth
      zero, not counting closing brackets; -1 if there is none. */
  function BackIndex(out: seq<Str>, depth: int): (k: int)
    ensures -1 <= k < |out|
  {
    if out == [] then -1
    else
      var b := |out| - 1;
      if out[b] == [Close] then BackIndex(out[..b], depth + 1)
      else
        var d := if out[b] == [Open] || out[b] == [SafeDiv] then depth - 1 else depth;
        if d == 0 then b else BackIndex(out[..b], d)
  }

  function Closing(pending: bool): seq<Str> {
    if pending then [[Close]] else []
  }

  /** The compiler as a machine: the tokens still to come, the elements emitted so far, and
      whether a SAFE_DIVIDE waits for its closing bracket. */
  function Run(tokens: seq<string>, out: seq<Str>, pending: bool, vars: map<string, string>): Result<Str>
    decreases |tokens|
  {
    if tokens == [] then Ok(Flatten(out))
    else
      var rest := tokens[1..];
      if tokens[0] == "(" then
        var k := ClosingIndex(rest, 1);
        if k == |rest| then
          Ok(Flatten(out + [[Open]] + [[Close]] + Closing(pending)))
        else
          var inner :- Run(rest[..k], [], false, vars);
          Run(rest[k + 1..], out + [[Open]] + [inner] + [[Close]] + Closing(pending), false, vars)
      else if tokens[0] == ")" then
        Run(rest, out, pending, vars)
      else if tokens[0] == "+" || tokens[0] == "-" || tokens[0] == "*" then
        Run(rest, out + [OperatorStr(tokens[0])], pending, vars)
      else if tokens[0] == "/" then
        var k := BackIndex(out, 0);
        if k == -1 then Err("invalid formula")
        else Run(rest, out[..k] + [[SafeDiv]] + out[k..] + [[Comma]], true, vars)
      else
        Run(rest, out + [[Text(WordSql(tokens[0], vars))]] + Closing(pending), false, vars)
  }

  function Compile(tokens: seq<string>, vars: map<string, string>): Result<Str> {
    Run(tokens, [], false, vars)
  }

  // ----- What the two searches find -----

  function Opening(token: string): int {
    if token == "(" then 1 else if token == ")" then -1 else 0
  }

  /** By how much the first n tokens open more brackets than they close. */
  function Opened(tokens: seq<string>, n: nat): int
    requires n <= |tokens|
  {
    if n == 0 then 0 else Opening(tokens[0]) + Opened(tokens[1..], n - 1)
  }

  /** The closing bracket of depth open ones is the first token after which none is open. */
  lemma {:induction false} ClosingIndexIs(tokens: seq<string>, depth: nat)
    requires depth > 0
    ensures var k := ClosingIndex(tokens, depth);
            && (forall n | 0 <= n <= k :: depth + Opened(tokens, n) > 0)
            && (k < |tokens| ==> tokens[k] == ")" && depth + Opened(tokens, k + 1) == 0)
  {
    if tokens != [] && !(tokens[0] == ")" && depth == 1) {
      ClosingIndexIs(tokens[1..], depth + Opening(tokens[0]));
    }
  }

  function ClosingElem(elem: Str): int {
    if elem == [Close] then 1 else if elem == [Open] || elem == [SafeDiv] then -1 else 0
  }

  /** By how much the elements from k on close more brackets than they open. */
  function ClosedFrom(out: seq<Str>, k: nat): int
    requires k <= |out|
    decreases |out| - k
  {
    if k == |out| then 0 else ClosingElem(out[k]) + ClosedFrom(out, k + 1)
  }

  lemma {:induction false} ClosedFromPush(out: seq<Str>, k: nat)
    requires k < |out|
    ensures ClosedFrom(out, k) == ClosedFrom(out[..|out| - 1], k) + ClosingElem(out[|out| - 1])
    decreases |out| - k
  {
    if k < |out| - 1 {
      ClosedFromPush(out, k + 1);
    }
  }

  /** An element that is no closing bracket, and from which on as many are opened as closed. */
  predicate Balanced(out: seq<Str>, k: nat, depth: int)
    requires k < |out|
  {
    out[k] != [Close] && depth + ClosedFrom(out, k) == 0
  }

  /** The backward walk stops at the last such element, and nowhere when there is none. */
  lemma {:induction false} BackIndexIs(out: seq<Str>, depth: int)
    ensures var k := BackIndex(out, depth);
            && (k >= 0 ==> Balanced(out, k, depth))
            && forall j: nat | k < j < |out| :: !Balanced(out, j, depth)
    decreases |out|
  {
    if out != [] {
      var b := |out| - 1;
      var d := depth + ClosingElem(out[b]);
      BackIndexIs(out[..b], d);
      forall j: nat | j < b ensures Balanced(out, j, depth) <==> Balanced(out[..b], j, d) {
        ClosedFromPush(out, j);
      }
      assert ClosedFrom(out, b) == ClosingElem(out[b]) + ClosedFrom(out, b + 1);
    }
  }

  /** Tokens in the wrong place: a closing bracket that closes nothing is skipped, and a division
      with nothing to divide is an error. */
  lemma StrayTokens(rest: seq<string>, out: seq<Str>, pending: bool, vars: map<string, string>)
    ensures Run([")"] + rest, out, pending, vars) == Run(rest, out, pending, vars)
    ensures Run(["/"] + rest, out, pending, vars).Err? <== forall k | 0 <= k < |out| :: !Balanced(out, k, 0)
  {
    BackIndexIs(out, 0);
    assert ([")"] + rest)[1..] == rest && (["/"] + rest)[1..] == rest;
  }

  /** The inner loop over the tokens after an opening bracket. */
  method FindClosing(newExpression: seq<string>) returns (innerI: nat)
    ensures innerI == ClosingIndex(newExpression, 1)
  {
    var parenthesisCounter := 1;
    innerI := 0;
    while innerI < |newExpression|
      invariant 0 <= innerI <= |newExpression| && parenthesisCounter > 0
      invariant ClosingIndex(newExpression, 1)
             == innerI + ClosingIndex(newExpression[innerI..], parenthesisCounter)
    {
      var innerItem := newExpression[innerI];
      if innerItem == "(" {
        parenthesisCounter := parenthesisCounter + 1;
      } else if innerItem == ")" {
        parenthesisCounter := parenthesisCounter - 1;
        if parenthesisCounter == 0 {
          return;
        }
      }
      innerI := innerI + 1;
    }
  }

  /** The backward loop of a division: where SAFE_DIVIDE( goes, or -1. */
  method FindDividend(formulaStringArr: seq<Str>) returns (backMarker: int)
    ensures backMarker == BackIndex(formulaStringArr, 0)
  {
    var parenthesisCounter := 0;
    backMarker := |formulaStringArr| - 1;
    assert formulaStringArr[..backMarker + 1] == formulaStringArr;
    while backMarker >= 0
      invariant -1 <= backMarker < |formulaStringArr|
      invariant BackIndex(formulaStringArr, 0)
             == BackIndex(formulaStringArr[..backMarker + 1], parenthesisCounter)
    {
      assert formulaStringArr[..backMarker + 1][..backMarker] == formulaStringArr[..backMarker];
      if formulaStringArr[backMarker] == [Close] {
        parenthesisCounter := parenthesisCounter + 1;
      } else {
        if formulaStringArr[backMarker] == [Open] || formulaStringArr[backMarker] == [SafeDiv] {
          parenthesisCounter := parenthesisCounter - 1;
        }
        if parenthesisCounter == 0 {
          return;
        }
      }
      backMarker := backMarker - 1;
    }
  }

  /** Makes room at backMarker by copying the tail one place to the right, as `copy` does. */
  method InsertDivision(arr: seq<Str>, backMarker: nat) returns (formulaStringArr: seq<Str>)
    requires backMarker < |arr|
    ensures formulaStringArr == arr[..backMarker] + [[SafeDiv]] + arr[backMarker..] + [[Comma]]
  {
    formulaStringArr := arr + [[]];
    formulaStringArr := formulaStringArr[..backMarker + 1] + formulaStringArr[backMarker..|formulaStringArr| - 1];
    formulaStringArr := formulaStringArr[backMarker := [SafeDiv]];
    formulaStringArr := formulaStringArr + [[Comma]];
  }

  /** The case of an opening bracket: newExpression is what follows it.  Returns how many of
      those tokens are used up, and the elements emitted by then. */
  method ParseBracket(newExpression: seq<string>, out: seq<Str>, pending: bool, vars: map<string, string>)
    returns (result: Result<(nat, seq<Str>)>)
    ensures result ==
            var k := ClosingIndex(newExpression, 1);
            if k == |newExpression| then Ok((k, out + [[Open]] + [[Close]] + Closing(pending)))
            else
              match Compile(newExpression[..k], vars)
              case Err(e) => Err(e)
              case Ok(inner) => Ok((k + 1, out + [[Open]] + [inner] + [[Close]] + Closing(pending)))
    decreases |newExpression|, 1
  {
    var formulaStringArr := out + [[Open]];
    var used := FindClosing(newExpression);
    ghost var inside := [];
    if used < |newExpression| {
      var parsedExpression := ParseMetricsFormulaExpression(newExpression[..used], vars);
      if parsedExpression.Err? {
        return Err(parsedExpression.error);
      }
      inside := [parsedExpression.value];
      formulaStringArr := formulaStringArr + [parsedExpression.value];
      used := used + 1;
    }
    formulaStringArr := formulaStringArr + [[Close]];
    if pending {
      formulaStringArr := formulaStringArr + [[Close]];
    }
    assert formulaStringArr == out + [[Open]] + inside + [[Close]] + Closing(pending);
    assert inside == [] ==> formulaStringArr == out + [[Open]] + [[Close]] + Closing(pending);
    return Ok((used, formulaStringArr));
  }

  /** The cases of a token that is not an opening bracket: the elements emitted by then, and
      whether a SAFE_DIVIDE waits. */
  method ParseToken(currentItem: string, out: seq<Str>, pending: bool, vars: map<string, string>,
                    ghost rest: seq<string>)
    returns (result: Result<(seq<Str>, bool)>)
    requires currentItem != "("
    ensures Run([currentItem] + rest, out, pending, vars) ==
              match result
              case Err(e) => Err(e)
              case Ok((formulaStringArr, waits)) => Run(rest, formulaStringArr, waits, vars)
  {
    assert ([currentItem] + rest)[1..] == rest;
    if currentItem == ")" {
      return Ok((out, pending));
    } else if currentItem == "+" || currentItem == "-" || currentItem == "*" {
      return Ok((out + [OperatorStr(currentItem)], pending));
    } else if currentItem == "/" {
      var backMarker := FindDividend(out);
      if backMarker == -1 {
        return Err("invalid formula");
      }
      var formulaStringArr := InsertDivision(out, backMarker);
      return Ok((formulaStringArr, true));
    } else {
      var el := if currentItem in vars then vars[currentItem] else currentItem;
      return Ok((out + [[Text(el)]] + Closing(pending), false));
    }
  }

  lemma RunBracket(rest: seq<string>, out: seq<Str>, pending: bool, vars: map<string, string>)
    ensures var k := ClosingIndex(rest, 1);
            Run(["("] + rest, out, pending, vars) ==
              if k == |rest| then Ok(Flatten(out + [[Open]] + [[Close]] + Closing(pending)))
              else
                match Compile(rest[..k], vars)
                case Err(e) => Err(e)
                case Ok(inner) =>
                  Run(rest[k + 1..], out + [[Open]] + [inner] + [[Close]] + Closing(pending), false, vars)
  {
    assert (["("] + rest)[1..] == rest;
  }

  /** The same, as a step of the machine: the tokens of rest that are used up, and the elements. */
  method StepBracket(rest: seq<string>, out: seq<Str>, pending: bool, vars: map<string, string>)
    returns (result: Result<(nat, seq<Str>)>)
    ensures result.Ok? ==> result.value.0 <= |rest|
    ensures Run(["("] + rest, out, pending, vars) ==
              match result
              case Err(e) => Err(e)
              case Ok((used, formulaStringArr)) => Run(rest[used..], formulaStringArr, false, vars)
    decreases |rest|, 2
  {
    RunBracket(rest, out, pending, vars);
    result := ParseBracket(rest, out, pending, vars);
  }

  /** parseMetricsFormulaExpression.  No token list, well formed or not, makes it loop for
      ever or index out of range, and it computes what the machine does. */
  method ParseMetricsFormulaExpression(expression: seq<string>, vars: map<string, string>)
    returns (result: Result<Str>)
    ensures result == Compile(expression, vars)
    decreases |expression|, 0
  {
    var formulaStringArr: seq<Str> := [];
    var shouldAddCloseParenthesis := false;
    var i := 0;
    while i < |expression|
      invariant 0 <= i <= |expression|
      invariant Compile(expression, vars) == Run(expression[i..], formulaStringArr, shouldAddCloseParenthesis, vars)
    {
      var currentItem, rest := expression[i], expression[i + 1..];
      assert expression[i..] == [currentItem] + rest;
      i := i + 1;
      if currentItem == "(" {
        var group := StepBracket(rest, formulaStringArr, shouldAddCloseParenthesis, vars);
        if group.Err? {
          return Err(group.error);
        }
        formulaStringArr, shouldAddCloseParenthesis := group.value.1, false;
        assert rest[group.value.0..] == expression[i + group.value.0..];
        i := i + group.value.0;
      } else {
        var token := ParseToken(currentItem, formulaStringArr, shouldAddCloseParenthesis, vars, rest);
        if token.Err? {
          return Err(token.error);
        }
        formulaStringArr, shouldAddCloseParenthesis := token.value.0, token.value.1;
      }
    }
    return Ok(Flatten(formulaStringArr));
  }
}
