/** GetRecommendations: the input is cut into chunks, and the fan-out runs for one chunk after the
    other. */
module RecommendationChunks {
  import opened Wrappers
  import opened RecommendationFanOut

  // ----- Chunks -----

  function Chunks<T>(s: seq<T>, size: nat): (chunks: seq<seq<T>>)
    requires size > 0
    decreases |s|
  {
    if s == [] then [] else if |s| <= size then [s] else [s[..size]] + Chunks(s[size..], size)
  }

  /** The first n chunks run together. */
  function ConcatTo<T>(chunks: seq<seq<T>>, n: nat): seq<T>
    requires n <= |chunks|
  {
    if n == 0 then [] else ConcatTo(chunks, n - 1) + chunks[n - 1]
  }

  function Concat<T>(chunks: seq<seq<T>>): seq<T> {
    ConcatTo(chunks, |chunks|)
  }

  lemma {:induction false} ConcatFront<T>(first: seq<T>, rest: seq<seq<T>>, n: nat)
    requires n <= |rest|
    ensures ConcatTo([first] + rest, n + 1) == first + ConcatTo(rest, n)
  {
    if n > 0 {
      ConcatFront(first, rest, n - 1);
      assert ([first] + rest)[n] == rest[n - 1];
      assert first + ConcatTo(rest, n - 1) + rest[n - 1] == first + (ConcatTo(rest, n - 1) + rest[n - 1]);
    }
  }

  /** All chunks are full but the last, which is not empty. */
  predicate Sized<T>(chunks: seq<seq<T>>, size: nat) {
    && (forall i | 0 <= i < |chunks| :: 0 < |chunks[i]| <= size)
    && forall i | 0 <= i < |chunks| - 1 :: |chunks[i]| == size
  }

  lemma SizedFront<T>(first: seq<T>, rest: seq<seq<T>>, size: nat)
    requires Sized(rest, size) && |first| == size > 0
    ensures Sized([first] + rest, size)
  {
    var all := [first] + rest;
    assert forall i | 1 <= i < |all| :: all[i] == rest[i - 1];
  }

  /** The chunks concatenate to the input. */
  lemma {:induction false} ChunksHold<T>(s: seq<T>, size: nat)
    requires size > 0
    ensures Concat(Chunks(s, size)) == s && Sized(Chunks(s, size), size)
    decreases |s|
  {
    if |s| > size {
      ChunksHold(s[size..], size);
      ConcatFront(s[..size], Chunks(s[size..], size), |Chunks(s[size..], size)|);
      SizedFront(s[..size], Chunks(s[size..], size), size);
      assert s == s[..size] + s[size..];
    } else if s != [] {
      assert Concat([s]) == ConcatTo([s], 0) + s == s;
    }
  }

  /** GetRecommendations works on chunks of fifteen. */
  lemma ChunksOfFifteen(input: seq<Recommendation>)
    ensures Concat(Chunks(input, CONCURRENCY)) == input && Sized(Chunks(input, CONCURRENCY), 15)
  {
    ChunksHold(input, CONCURRENCY);
  }

  /** makeChunks. */
  method MakeChunks<T>(recommendations: seq<T>, size: nat) returns (chunks: seq<seq<T>>)
    requires size > 0
    ensures chunks == Chunks(recommendations, size)
  {
    chunks := [];
    var rest := recommendations;
    while size < |rest|
      invariant chunks + Chunks(rest, size) == Chunks(recommendations, size)
    {
      ghost var after := Chunks(rest[size..], size);
      assert chunks + ([rest[..size]] + after) == chunks + [rest[..size]] + after;
      chunks := chunks + [rest[0..size]];
      rest := rest[size..];
    }
    if |rest| > 0 {
      chunks := chunks + [rest];
    }
  }

  // ----- Collecting the results -----

  /** What generateRecommendations returns for one chunk. */
  datatype ChunkResult = ChunkResult(results: seq<Recommendation>, lastError: Option<string>)

  /** The results of the first n chunks. */
  function ResultsTo(chunks: seq<ChunkResult>, n: nat): seq<Recommendation>
    requires n <= |chunks|
  {
    if n == 0 then [] else ResultsTo(chunks, n - 1) + chunks[n - 1].results
  }

  function AllResults(chunks: seq<ChunkResult>): seq<Recommendation> {
    ResultsTo(chunks, |chunks|)
  }

  /** All results, chunk after chunk; an error when there is none and the last chunk had one. */
  function Collected(chunks: seq<ChunkResult>): Result<seq<Recommendation>> {
    if AllResults(chunks) == [] && chunks != [] && chunks[|chunks| - 1].lastError.Some? then
      Err(chunks[|chunks| - 1].lastError.value)
    else Ok(AllResults(chunks))
  }

  /** The chunk loop of GetRecommendations. */
  method CollectChunks(chunks: seq<ChunkResult>) returns (result: Result<seq<Recommendation>>)
    ensures result == Collected(chunks)
  {
    var results: seq<Recommendation> := [];
    var lastError: Option<string> := None;
    for n := 0 to |chunks|
      invariant results == ResultsTo(chunks, n)
      invariant lastError == if n == 0 then None else chunks[n - 1].lastError
    {
      results := results + chunks[n].results;
      lastError := chunks[n].lastError;
    }
    if |results| == 0 && lastError.Some? {
      return Err(lastError.value);
    }
    return Ok(results);
  }

  /** The error of an earlier chunk is forgotten. */
  lemma EarlierErrorForgotten()
    ensures Collected([ChunkResult([], Some("timeout")), ChunkResult([], None)]) == Ok([])
  {
    var chunks := [ChunkResult([], Some("timeout")), ChunkResult([], None)];
    assert ResultsTo(chunks, 1) == ResultsTo(chunks, 0) + [] == [];
    assert AllResults(chunks) == ResultsTo(chunks, 1) + [];
  }

  // ----- The whole of GetRecommendations -----

  /** Every chunk runs to its end, in some interleaving of its own. */
  ghost predicate AllComplete(inputs: seq<seq<Recommendation>>, answers: seq<seq<Outcome>>, runs: seq<seq<Action>>) {
    && |inputs| == |answers| == |runs|
    && forall k | 0 <= k < |inputs| :: Completes(inputs[k], answers[k], runs[k])
  }

  /** Every chunk has such a run. */
  lemma {:induction false} RunsExist(inputs: seq<seq<Recommendation>>, answers: seq<seq<Outcome>>)
    returns (runs: seq<seq<Action>>)
    requires |inputs| == |answers|
    requires forall k | 0 <= k < |inputs| :: |inputs[k]| == |answers[k]| && Addressed(answers[k])
    ensures AllComplete(inputs, answers, runs)
  {
    hide Completes, Run;
    runs := [];
    for k := 0 to |inputs|
      invariant |runs| == k && forall j | 0 <= j < k :: Completes(inputs[j], answers[j], runs[j])
    {
      NothingRun(inputs[k], answers[k]);
      var run := RunCompletes(inputs[k], answers[k], []);
      assert [] + run == run;
      runs := runs + [run];
    }
  }

  lemma NothingRun(input: seq<Recommendation>, outcomes: seq<Outcome>)
    requires |input| == |outcomes| && Addressed(outcomes)
    ensures Shaped(Init(input), outcomes) && Run(Init(input), outcomes, []).Some?
  {
  }

  function ResultOf(input: seq<Recommendation>, outcomes: seq<Outcome>, run: seq<Action>): ChunkResult
    requires |input| == |outcomes| && Addressed(outcomes) && Run(Init(input), outcomes, run).Some?
  {
    var s := Run(Init(input), outcomes, run).value;
    ChunkResult(s.results, s.lastError)
  }

  ghost function ChunkResults(inputs: seq<seq<Recommendation>>, answers: seq<seq<Outcome>>, runs: seq<seq<Action>>):
    seq<ChunkResult>
    requires AllComplete(inputs, answers, runs)
  {
    seq(|inputs|, k requires 0 <= k < |inputs| => ResultOf(inputs[k], answers[k], runs[k]))
  }

  /** The positions that the results of the first n chunks stand for, in their order. */
  ghost function OrderTo(inputs: seq<seq<Recommendation>>, answers: seq<seq<Outcome>>, runs: seq<seq<Action>>,
                         n: nat): seq<nat>
    requires AllComplete(inputs, answers, runs) && n <= |inputs|
  {
    if n == 0 then []
    else
      OrderTo(inputs, answers, runs, n - 1)
      + Shifted(Run(Init(inputs[n - 1]), answers[n - 1], runs[n - 1]).value.order, |ConcatTo(inputs, n - 1)|)
  }

  function Shifted(order: seq<nat>, n: nat): seq<nat> {
    seq(|order|, k requires 0 <= k < |order| => order[k] + n)
  }

  lemma InShifted(order: seq<nat>, n: nat, i: nat)
    ensures i in Shifted(order, n) <==> i >= n && i - n in order
  {
    if i >= n && i - n in order {
      var k :| 0 <= k < |order| && order[k] == i - n;
      assert Shifted(order, n)[k] == i;
    }
  }

  /** Results of two parts, one after the other. */
  lemma JoinResults(r: seq<Recommendation>, p: seq<nat>, a: seq<Recommendation>, x: seq<Outcome>,
                    r': seq<Recommendation>, p': seq<nat>, b: seq<Recommendation>, y: seq<Outcome>)
    requires AreResults(r, p, a, x) && AreResults(r', p', b, y)
    ensures AreResults(r + r', p + Shifted(p', |a|), a + b, x + y)
  {
    forall i: nat ensures i in p + Shifted(p', |a|) <==> i < |x + y| && (x + y)[i].Success? {
      InShifted(p', |a|, i);
    }
    JoinDistinct(p, p', |a|);
    JoinFilled(r, p, a, x, r', p', b, y);
  }

  lemma JoinDistinct(p: seq<nat>, p': seq<nat>, n: nat)
    requires (forall k | 0 <= k < |p| :: p[k] < n)
    requires (forall j, k | 0 <= j < k < |p| :: p[j] != p[k]) && forall j, k | 0 <= j < k < |p'| :: p'[j] != p'[k]
    ensures var all := p + Shifted(p', n);
            forall j, k | 0 <= j < k < |all| :: all[j] != all[k]
  {
  }

  lemma JoinFilled(r: seq<Recommendation>, p: seq<nat>, a: seq<Recommendation>, x: seq<Outcome>,
                   r': seq<Recommendation>, p': seq<nat>, b: seq<Recommendation>, y: seq<Outcome>)
    requires AreResults(r, p, a, x) && AreResults(r', p', b, y)
    ensures var all := p + Shifted(p', |a|);
            forall k | 0 <= k < |all| ::
              all[k] < |a + b| && IsFilled((r + r')[k], (a + b)[all[k]], (x + y)[all[k]])
  {
    var all := p + Shifted(p', |a|);
    forall k | 0 <= k < |all|
      ensures all[k] < |a + b| && IsFilled((r + r')[k], (a + b)[all[k]], (x + y)[all[k]])
    {
      if k >= |p| {
        assert all[k] == p'[k - |p|] + |a|;
      }
    }
  }

  lemma NothingResults()
    ensures AreResults([], [], [], [])
  {
  }

  /** The results of the first n chunks are those of what these hold. */
  lemma {:induction false} ResultsOfChunks(inputs: seq<seq<Recommendation>>, answers: seq<seq<Outcome>>,
                                           runs: seq<seq<Action>>, n: nat)
    requires AllComplete(inputs, answers, runs) && n <= |inputs|
    ensures AreResults(ResultsTo(ChunkResults(inputs, answers, runs), n), OrderTo(inputs, answers, runs, n),
                       ConcatTo(inputs, n), ConcatTo(answers, n))
  {
    hide AreResults, Run;
    if n == 0 {
      NothingResults();
    } else {
      var all, s := ChunkResults(inputs, answers, runs), Run(Init(inputs[n - 1]), answers[n - 1], runs[n - 1]).value;
      ResultsOfChunks(inputs, answers, runs, n - 1);
      FanOutComplete(inputs[n - 1], answers[n - 1], runs[n - 1]);
      JoinResults(ResultsTo(all, n - 1), OrderTo(inputs, answers, runs, n - 1), ConcatTo(inputs, n - 1),
                  ConcatTo(answers, n - 1), s.results, s.order, inputs[n - 1], answers[n - 1]);
    }
  }

  /** An error comes from one of the workers of the last chunk. */
  lemma LastChunkError(inputs: seq<seq<Recommendation>>, answers: seq<seq<Outcome>>, runs: seq<seq<Action>>)
    requires AllComplete(inputs, answers, runs) && inputs != []
    ensures var all := ChunkResults(inputs, answers, runs);
            IsError(all[|all| - 1].lastError, answers[|answers| - 1])
  {
    var last := |inputs| - 1;
    FanOutComplete(inputs[last], answers[last], runs[last]);
  }

  /** The whole of GetRecommendations, with the workers of every chunk interleaving as they may:
      the results are the successes of the input, each once, in the order given, and with the
      amounts its own worker sent; an error comes back exactly when there is no success and a
      worker of the last chunk had one, and it is one of these. */
  lemma GetRecommendationsComplete(input: seq<Recommendation>, answers: seq<Outcome>, runs: seq<seq<Action>>)
    returns (order: seq<nat>)
    requires |input| == |answers|
    requires AllComplete(Chunks(input, CONCURRENCY), Chunks(answers, CONCURRENCY), runs)
    ensures var outcomes := Chunks(answers, CONCURRENCY);
            var result := Collected(ChunkResults(Chunks(input, CONCURRENCY), outcomes, runs));
            && (result.Ok? ==> AreResults(result.value, order, input, answers))
            && (result.Err? <==> && (forall i | 0 <= i < |answers| :: !answers[i].Success?) && outcomes != []
                                 && exists o | o in outcomes[|outcomes| - 1] :: o.Error?)
            && (result.Err? ==> Error(result.error) in outcomes[|outcomes| - 1])
  {
    hide AreResults;
    var inputs, outcomes := Chunks(input, CONCURRENCY), Chunks(answers, CONCURRENCY);
    order := OrderTo(inputs, outcomes, runs, |inputs|);
    ResultsOfChunks(inputs, outcomes, runs, |inputs|);
    ChunksHold(input, CONCURRENCY);
    ChunksHold(answers, CONCURRENCY);
    if inputs != [] {
      LastChunkError(inputs, outcomes, runs);
    }
    NoResults(AllResults(ChunkResults(inputs, outcomes, runs)), order, input, answers);
  }

  lemma NoResults(results: seq<Recommendation>, order: seq<nat>, input: seq<Recommendation>, outcomes: seq<Outcome>)
    requires AreResults(results, order, input, outcomes)
    ensures results == [] <==> forall i | 0 <= i < |outcomes| :: !outcomes[i].Success?
  {
    if results != [] {
      assert order[0] in order;
    }
  }
}
