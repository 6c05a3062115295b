/** generateRecommendations as a protocol: one worker for every input sends one message on a
    channel with room for one; the caller receives as many messages as there are inputs.  And
    makeChunks, which bounds the workers in flight.

    A run is any sequence of enabled actions, so what is proved of runs holds under every
    interleaving. */
module RecommendationFanOut {
  import opened Wrappers
  import opened Weights

  const CONCURRENCY: nat := 15

  /** An input with the fields a success fills in; name stands for its other fields. */
  datatype Recommendation = Recommendation(name: string, savings: Option<real>, onDemand: Option<real>,
                                           priceAfterDiscount: Option<real>)

  /** What getInstanceSavingsByCustomer comes to: every path of it sends one message. */
  datatype Outcome = Error(error: string) | Warning(warning: string)
                   | Success(pos: nat, savings: real, onDemand: real, priceAfterDiscount: real)

  function Filled(r: Recommendation, o: Outcome): Recommendation
    requires o.Success?
  {
    r.(savings := Some(o.savings), onDemand := Some(o.onDemand), priceAfterDiscount := Some(o.priceAfterDiscount))
  }

  /** r is the input it comes from with the three amounts of a message. */
  predicate IsFilled(r: Recommendation, given: Recommendation, o: Outcome) {
    && o.Success? && r.name == given.name && r.savings == Some(o.savings) && r.onDemand == Some(o.onDemand)
    && r.priceAfterDiscount == Some(o.priceAfterDiscount)
  }

  lemma FilledIsFilled(r: Recommendation, o: Outcome)
    requires o.Success?
    ensures IsFilled(Filled(r, o), r, o)
  {
  }

  /** A worker: before its send, with its message in the channel, and with its message taken. */
  datatype Phase = Working | Sent | Taken

  /** channel holds the position of the worker whose message is in it; input is changed in
      place; order is the positions of the results, in the order they came. */
  datatype State = State(phases: seq<Phase>, channel: Option<nat>, input: seq<Recommendation>,
                         results: seq<Recommendation>, order: seq<nat>, received: nat, lastError: Option<string>)

  datatype Action = Send(i: nat) | Receive

  function Init(input: seq<Recommendation>): State {
    State(seq(|input|, i => Working), None, input, [], [], 0, None)
  }

  predicate Enabled(s: State, a: Action) {
    match a
    case Send(i) => i < |s.phases| && s.phases[i].Working? && s.channel.None?
    case Receive => s.channel.Some? && s.received < |s.phases|
  }

  /** Every success carries the position of its worker; GetInstanceSavingsByCustomer in
      RecommendationWorker says so of what a worker sends. */
  predicate Addressed(outcomes: seq<Outcome>) {
    forall i | 0 <= i < |outcomes| && outcomes[i].Success? :: outcomes[i].pos == i
  }

  predicate Shaped(s: State, outcomes: seq<Outcome>) {
    && |s.phases| == |s.input| == |outcomes| && Addressed(outcomes)
    && (s.channel.Some? ==> s.channel.value < |s.phases|)
  }

  /** One action; receiving is one pass of the receiving loop. */
  function Apply(s: State, outcomes: seq<Outcome>, a: Action): State
    requires Shaped(s, outcomes) && Enabled(s, a)
  {
    match a
    case Send(i) => s.(phases := s.phases[i := Sent], channel := Some(i))
    case Receive =>
      var i := s.channel.value;
      var t := s.(phases := s.phases[i := Taken], channel := None, received := s.received + 1);
      match outcomes[i]
      case Error(e) => t.(lastError := Some(e))
      case Warning(_) => t
      case Success(pos, _, _, _) =>
        var r := Filled(s.input[pos], outcomes[i]);
        t.(input := s.input[pos := r], results := s.results + [r], order := s.order + [pos])
  }

  function Run(s: State, outcomes: seq<Outcome>, run: seq<Action>): Option<State>
    requires Shaped(s, outcomes)
    ensures Run(s, outcomes, run).Some? ==> Shaped(Run(s, outcomes, run).value, outcomes)
  {
    if run == [] then Some(s)
    else
      var before :- Run(s, outcomes, run[..|run| - 1]);
      if Enabled(before, run[|run| - 1]) then Some(Apply(before, outcomes, run[|run| - 1])) else None
  }

  // ----- What every step keeps -----

  function StepsLeft(p: Phase): nat {
    match p
    case Working => 2
    case Sent => 1
    case Taken => 0
  }

  function IsTaken(p: Phase): nat {
    if p.Taken? then 1 else 0
  }

  function One(p: Phase): nat {
    1
  }

  /** Position i has its result. */
  predicate Delivered(s: State, outcomes: seq<Outcome>, i: nat)
    requires Shaped(s, outcomes) && i < |outcomes|
  {
    s.phases[i].Taken? && outcomes[i].Success?
  }

  ghost predicate Inv(s: State, outcomes: seq<Outcome>, input: seq<Recommendation>) {
    && Shaped(s, outcomes) && |input| == |outcomes|
    && (forall i | 0 <= i < |outcomes| :: s.phases[i].Sent? <==> s.channel == Some(i))
    && s.received == Weight(s.phases, p => IsTaken(p))
    && (forall i | 0 <= i < |outcomes| ::
          s.input[i] == if Delivered(s, outcomes, i) then Filled(input[i], outcomes[i]) else input[i])
    && ErrorInv(s, outcomes)
    && ResultsInv(s, outcomes, input)
  }

  /** There is an error exactly when one has been received, and it is one of these. */
  ghost predicate ErrorInv(s: State, outcomes: seq<Outcome>)
    requires |s.phases| == |outcomes|
  {
    && (s.lastError.None? ==> forall i | 0 <= i < |outcomes| && s.phases[i].Taken? :: !outcomes[i].Error?)
    && (s.lastError.Some? ==>
          exists i :: 0 <= i < |outcomes| && s.phases[i].Taken? && outcomes[i] == Error(s.lastError.value))
  }

  /** Each delivered position is in order once, and its result beside it. */
  ghost predicate ResultsInv(s: State, outcomes: seq<Outcome>, input: seq<Recommendation>)
    requires Shaped(s, outcomes) && |input| == |outcomes|
  {
    && |s.results| == |s.order|
    && (forall k | 0 <= k < |s.order| ::
          && s.order[k] < |outcomes| && Delivered(s, outcomes, s.order[k])
          && s.results[k] == Filled(input[s.order[k]], outcomes[s.order[k]]))
    && (forall i | 0 <= i < |outcomes| && Delivered(s, outcomes, i) :: i in s.order)
    && forall j, k | 0 <= j < k < |s.order| :: s.order[j] != s.order[k]
  }

  lemma InitInv(input: seq<Recommendation>, outcomes: seq<Outcome>)
    requires |input| == |outcomes| && Addressed(outcomes)
    ensures Inv(Init(input), outcomes, input)
    ensures Weight(Init(input).phases, p => StepsLeft(p)) == 2 * |input|
  {
    WeightZero(Init(input).phases, p => IsTaken(p));
    WeightConstant(Init(input).phases, p => StepsLeft(p), 2);
  }

  lemma StepWeights(s: State, outcomes: seq<Outcome>, input: seq<Recommendation>, a: Action)
    requires Inv(s, outcomes, input) && Enabled(s, a)
    ensures Apply(s, outcomes, a).received == Weight(Apply(s, outcomes, a).phases, p => IsTaken(p))
    ensures Weight(Apply(s, outcomes, a).phases, p => StepsLeft(p)) == Weight(s.phases, p => StepsLeft(p)) - 1
  {
    var i := if a.Send? then a.i else s.channel.value;
    var p := Apply(s, outcomes, a).phases[i];
    WeightUpdate(s.phases, i, p, p => IsTaken(p));
    WeightUpdate(s.phases, i, p, p => StepsLeft(p));
  }

  lemma StepResults(s: State, outcomes: seq<Outcome>, input: seq<Recommendation>, a: Action)
    requires Inv(s, outcomes, input) && Enabled(s, a)
    ensures ResultsInv(Apply(s, outcomes, a), outcomes, input)
  {
    if a.Receive? {
      ReceiveResults(s, outcomes, input);
    } else {
      var t := Apply(s, outcomes, a);
      forall i | 0 <= i < |outcomes| && Delivered(t, outcomes, i) ensures i in t.order {
        assert Delivered(s, outcomes, i);
      }
    }
  }

  lemma ReceiveResults(s: State, outcomes: seq<Outcome>, input: seq<Recommendation>)
    requires Inv(s, outcomes, input) && Enabled(s, Receive)
    ensures ResultsInv(Apply(s, outcomes, Receive), outcomes, input)
  {
    var t, c := Apply(s, outcomes, Receive), s.channel.value;
    assert !Delivered(s, outcomes, c) && c !in s.order;
    forall i | 0 <= i < |outcomes| && Delivered(t, outcomes, i) ensures i in t.order {
      if i != c {
        assert Delivered(s, outcomes, i) && i in s.order;
      }
    }
  }

  lemma StepLastError(s: State, outcomes: seq<Outcome>, input: seq<Recommendation>, a: Action)
    requires Inv(s, outcomes, input) && Enabled(s, a)
    ensures ErrorInv(Apply(s, outcomes, a), outcomes)
  {
    var t := Apply(s, outcomes, a);
    if a.Receive? && outcomes[s.channel.value].Error? {
      assert t.phases[s.channel.value].Taken? && outcomes[s.channel.value] == Error(t.lastError.value);
    } else if s.lastError.Some? {
      var i :| 0 <= i < |outcomes| && s.phases[i].Taken? && outcomes[i] == Error(s.lastError.value);
      assert t.phases[i].Taken?;
    }
  }

  lemma StepShape(s: State, outcomes: seq<Outcome>, input: seq<Recommendation>, a: Action)
    requires Inv(s, outcomes, input) && Enabled(s, a)
    ensures var t := Apply(s, outcomes, a);
            && Shaped(t, outcomes)
            && forall i | 0 <= i < |outcomes| :: t.phases[i].Sent? <==> t.channel == Some(i)
  {
  }

  lemma StepInput(s: State, outcomes: seq<Outcome>, input: seq<Recommendation>, a: Action)
    requires Inv(s, outcomes, input) && Enabled(s, a) && Shaped(Apply(s, outcomes, a), outcomes)
    ensures var t := Apply(s, outcomes, a);
            forall i | 0 <= i < |outcomes| ::
              t.input[i] == if Delivered(t, outcomes, i) then Filled(input[i], outcomes[i]) else input[i]
  {
    if a.Receive? {
      assert !Delivered(s, outcomes, s.channel.value);
    }
  }

  lemma StepKeepsInv(s: State, outcomes: seq<Outcome>, input: seq<Recommendation>, a: Action)
    requires Inv(s, outcomes, input) && Enabled(s, a)
    ensures Inv(Apply(s, outcomes, a), outcomes, input)
  {
    StepShape(s, outcomes, input, a);
    StepInput(s, outcomes, input, a);
    StepWeights(s, outcomes, input, a);
    StepResults(s, outcomes, input, a);
    StepLastError(s, outcomes, input, a);
  }

  lemma {:induction false} RunKeepsInv(s: State, outcomes: seq<Outcome>, input: seq<Recommendation>, run: seq<Action>)
    requires Inv(s, outcomes, input) && Run(s, outcomes, run).Some?
    ensures Inv(Run(s, outcomes, run).value, outcomes, input)
    ensures |run| + Weight(Run(s, outcomes, run).value.phases, p => StepsLeft(p)) == Weight(s.phases, p => StepsLeft(p))
  {
    if run != [] {
      RunKeepsInv(s, outcomes, input, run[..|run| - 1]);
      var before := Run(s, outcomes, run[..|run| - 1]).value;
      StepKeepsInv(before, outcomes, input, run[|run| - 1]);
      StepWeights(before, outcomes, input, run[|run| - 1]);
    }
  }

  // ----- Results -----

  /** As long as a message is missing, a worker can send or the caller can receive: the caller
      never waits for ever, and no worker is left with a message nobody takes. */
  lemma NeverStuck(s: State, outcomes: seq<Outcome>, input: seq<Recommendation>) returns (a: Action)
    requires Inv(s, outcomes, input) && exists i :: 0 <= i < |outcomes| && !s.phases[i].Taken?
    ensures Enabled(s, a)
  {
    if s.channel.Some? {
      var c := s.channel.value;
      WeightUpdate(s.phases, c, Taken, p => IsTaken(p));
      WeightBound(s.phases[c := Taken], p => IsTaken(p), p => One(p));
      WeightConstant(s.phases[c := Taken], p => One(p), 1);
      return Receive;
    }
    var i :| 0 <= i < |outcomes| && !s.phases[i].Taken?;
    return Send(i);
  }

  /** A run of generateRecommendations to its end. */
  ghost predicate Completes(input: seq<Recommendation>, outcomes: seq<Outcome>, run: seq<Action>) {
    && |input| == |outcomes| && Addressed(outcomes) && Run(Init(input), outcomes, run).Some?
    && forall a :: !Enabled(Run(Init(input), outcomes, run).value, a)
  }

  /** The results are those of the successful positions, each once, in the given order. */
  ghost predicate AreResults(results: seq<Recommendation>, order: seq<nat>, input: seq<Recommendation>,
                             outcomes: seq<Outcome>) {
    && |results| == |order| && |input| == |outcomes|
    && (forall i: nat :: i in order <==> i < |outcomes| && outcomes[i].Success?)
    && (forall j, k | 0 <= j < k < |order| :: order[j] != order[k])
    && forall k | 0 <= k < |order| ::
         order[k] < |input| && IsFilled(results[k], input[order[k]], outcomes[order[k]])
  }

  /** The error of a call: that of one of the failed workers, if there are any. */
  ghost predicate IsError(lastError: Option<string>, outcomes: seq<Outcome>) {
    && (lastError.None? ==> forall i | 0 <= i < |outcomes| :: !outcomes[i].Error?)
    && (lastError.Some? ==> exists i :: 0 <= i < |outcomes| && outcomes[i] == Error(lastError.value))
  }

  /** Under every interleaving, a run that cannot go on has made 2n steps, n of them receives;
      every success is returned exactly once, with the amounts its worker sent filled in at its
      own position, and no failure is; an error is reported exactly when some worker had one. */
  lemma FanOutComplete(input: seq<Recommendation>, outcomes: seq<Outcome>, run: seq<Action>)
    requires Completes(input, outcomes, run)
    ensures var s := Run(Init(input), outcomes, run).value;
            && |run| == 2 * |input| && s.received == |input| && s.channel.None?
            && |s.input| == |input|
            && AreResults(s.results, s.order, input, outcomes)
            && (forall i | 0 <= i < |input| ::
                  if outcomes[i].Success? then IsFilled(s.input[i], input[i], outcomes[i]) else s.input[i] == input[i])
            && IsError(s.lastError, outcomes)
  {
    var s := Run(Init(input), outcomes, run).value;
    InitInv(input, outcomes);
    RunKeepsInv(Init(input), outcomes, input, run);
    if exists i :: 0 <= i < |outcomes| && !s.phases[i].Taken? {
      var a := NeverStuck(s, outcomes, input);
    }
    WeightConstant(s.phases, p => IsTaken(p), 1);
    WeightConstant(s.phases, p => StepsLeft(p), 0);
    forall i | 0 <= i < |outcomes| ensures Delivered(s, outcomes, i) <==> outcomes[i].Success? {}
  }

  lemma RunPush(s: State, outcomes: seq<Outcome>, run: seq<Action>, a: Action)
    requires Shaped(s, outcomes) && Run(s, outcomes, run).Some? && Enabled(Run(s, outcomes, run).value, a)
    ensures Run(s, outcomes, run + [a]) == Some(Apply(Run(s, outcomes, run).value, outcomes, a))
  {
    assert (run + [a])[..|run|] == run;
  }

  lemma AllTakenEnds(input: seq<Recommendation>, outcomes: seq<Outcome>, run: seq<Action>)
    requires |input| == |outcomes| && Addressed(outcomes) && Run(Init(input), outcomes, run).Some?
    requires var s := Run(Init(input), outcomes, run).value;
             Inv(s, outcomes, input) && forall i | 0 <= i < |outcomes| :: s.phases[i].Taken?
    ensures Completes(input, outcomes, run)
  {
    hide Run, Apply, ResultsInv, ErrorInv;
    var s := Run(Init(input), outcomes, run).value;
    assert s.channel.None?;
  }

  /** Every run can go on to its end. */
  lemma {:induction false} RunCompletes(input: seq<Recommendation>, outcomes: seq<Outcome>, run: seq<Action>)
    returns (rest: seq<Action>)
    requires |input| == |outcomes| && Addressed(outcomes) && Run(Init(input), outcomes, run).Some?
    ensures Completes(input, outcomes, run + rest)
    decreases 2 * |input| - |run|
  {
    hide Run, Apply, Enabled, ResultsInv, ErrorInv, Completes;
    var s := Run(Init(input), outcomes, run).value;
    InitInv(input, outcomes);
    RunKeepsInv(Init(input), outcomes, input, run);
    if exists i :: 0 <= i < |outcomes| && !s.phases[i].Taken? {
      var a := NeverStuck(s, outcomes, input);
      RunPush(Init(input), outcomes, run, a);
      StepWeights(s, outcomes, input, a);
      var more := RunCompletes(input, outcomes, run + [a]);
      rest := [a] + more;
      assert run + rest == run + [a] + more;
    } else {
      rest := [];
      assert run + [] == run;
      AllTakenEnds(input, outcomes, run);
    }
  }

  function InFlight(p: Phase): nat {
    if p.Taken? then 0 else 1
  }

  /** At every moment the workers in flight are those whose message has not been received; for a
      chunk there are never more than CONCURRENCY of them. */
  lemma WorkersInFlight(input: seq<Recommendation>, outcomes: seq<Outcome>, run: seq<Action>)
    requires |input| == |outcomes| && Addressed(outcomes) && Run(Init(input), outcomes, run).Some?
    ensures var s := Run(Init(input), outcomes, run).value;
            && |s.phases| == |input|
            && |set i | 0 <= i < |input| && !s.phases[i].Taken?| == |input| - s.received
            && (|input| <= CONCURRENCY ==> |set i | 0 <= i < |input| && !s.phases[i].Taken?| <= 15)
  {
    var phases := Run(Init(input), outcomes, run).value.phases;
    InitInv(input, outcomes);
    RunKeepsInv(Init(input), outcomes, input, run);
    WeightSum(phases, p => InFlight(p), p => IsTaken(p), 1);
    WeightCounts(phases, p => InFlight(p));
    assert (set i | 0 <= i < |input| && !phases[i].Taken?) == Counted(phases, p => InFlight(p));
  }
}
