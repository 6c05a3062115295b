/** ExecuteQueries as a protocol: one goroutine for every query appends what it reads to a
    shared slice; errors go to a buffered channel with room for one per query; another goroutine
    closes it when all are done, and the caller ranges over it.

    A run is any sequence of enabled actions.  An append under the mutex is one action. */
module QueryCollection {
  import opened Wrappers
  import opened Weights

  /** A query: the documents it yields, and whether its iterator then fails. */
  datatype Query<Doc> = Query(docs: seq<Doc>, fails: bool)

  /** Where a goroutine is, with what it has given to the slice and what it has still to read:
      not started, reading, before wg.Done (having sent its error if it failed), and done. */
  datatype Phase<Doc> =
    | Unspawned(query: Query<Doc>)
    | Reading(given: seq<Doc>, rest: seq<Doc>, fails: bool)
    | Ending(given: seq<Doc>, failed: bool)
    | Finished(given: seq<Doc>, failed: bool)

  /** errors counts the elements in the channel, received those the caller has taken. */
  datatype State<Doc> = State(phases: seq<Phase<Doc>>, spawned: nat, docSnaps: seq<Doc>, errors: nat, received: nat,
                              closed: bool, returned: bool)

  datatype Action = Spawn | Append(i: nat) | Fail(i: nat) | End(i: nat) | Done(i: nat) | Close | Receive | Return

  function Init<Doc>(queries: seq<Query<Doc>>): State<Doc> {
    State(seq(|queries|, i requires 0 <= i < |queries| => Unspawned(queries[i])), 0, [], 0, 0, false, false)
  }

  predicate AllFinished(s: State) {
    forall i | 0 <= i < |s.phases| :: s.phases[i].Finished?
  }

  /** The send of an error waits for nothing but this. */
  predicate Room(s: State) {
    s.errors < |s.phases| && !s.closed
  }

  predicate AtEnd<Doc>(p: Phase<Doc>) {
    p.Reading? && p.rest == []
  }

  predicate Enabled(s: State, a: Action) {
    match a
    case Spawn => s.spawned < |s.phases| && s.phases[s.spawned].Unspawned?
    case Append(i) => i < |s.phases| && s.phases[i].Reading? && s.phases[i].rest != []
    case Fail(i) => i < |s.phases| && AtEnd(s.phases[i]) && s.phases[i].fails && Room(s)
    case End(i) => i < |s.phases| && AtEnd(s.phases[i]) && !s.phases[i].fails
    case Done(i) => i < |s.phases| && s.phases[i].Ending?
    case Close => s.spawned == |s.phases| && AllFinished(s) && !s.closed
    case Receive => s.spawned == |s.phases| && s.errors > 0
    case Return => s.closed && s.errors == 0 && !s.returned
  }

  function Moved<Doc>(s: State<Doc>, i: nat, p: Phase<Doc>): State<Doc>
    requires i < |s.phases|
  {
    s.(phases := s.phases[i := p])
  }

  function Apply<Doc>(s: State<Doc>, a: Action): State<Doc>
    requires Enabled(s, a)
  {
    match a
    case Spawn =>
      var q := s.phases[s.spawned].query;
      Moved(s, s.spawned, Reading([], q.docs, q.fails)).(spawned := s.spawned + 1)
    case Append(i) =>
      var p := s.phases[i];
      Moved(s, i, Reading(p.given + [p.rest[0]], p.rest[1..], p.fails)).(docSnaps := s.docSnaps + [p.rest[0]])
    case Fail(i) => Moved(s, i, Ending(s.phases[i].given, true)).(errors := s.errors + 1)
    case End(i) => Moved(s, i, Ending(s.phases[i].given, false))
    case Done(i) => Moved(s, i, Finished(s.phases[i].given, s.phases[i].failed))
    case Close => s.(closed := true)
    case Receive => s.(errors := s.errors - 1, received := s.received + 1)
    case Return => s.(returned := true)
  }

  function Run<Doc>(s: State<Doc>, run: seq<Action>): Option<State<Doc>> {
    if run == [] then Some(s)
    else
      var before :- Run(s, run[..|run| - 1]);
      if Enabled(before, run[|run| - 1]) then Some(Apply(before, run[|run| - 1])) else None
  }

  /** The result of the function. */
  function Returned<Doc>(s: State<Doc>): Result<seq<Doc>> {
    if s.received > 0 then Err("failed to execute query") else Ok(s.docSnaps)
  }

  // ----- What every step keeps -----

  ghost function Given<Doc>(p: Phase<Doc>): multiset<Doc> {
    if p.Unspawned? then multiset{} else multiset(p.given)
  }

  /** What all goroutines together have given to the slice. */
  ghost function AllGiven<Doc>(phases: seq<Phase<Doc>>): multiset<Doc> {
    if phases == [] then multiset{} else AllGiven(phases[..|phases| - 1]) + Given(phases[|phases| - 1])
  }

  lemma {:induction false} AllGivenUpdate<Doc>(phases: seq<Phase<Doc>>, i: nat, p: Phase<Doc>, more: multiset<Doc>)
    requires i < |phases| && Given(p) == Given(phases[i]) + more
    ensures AllGiven(phases[i := p]) == AllGiven(phases) + more
  {
    var n := |phases| - 1;
    var front := phases[..n];
    if i == n {
      assert phases[i := p] == front + [p];
      AllGivenPush(front, p);
    } else {
      assert phases[i := p] == front[i := p] + [phases[n]];
      AllGivenUpdate(front, i, p, more);
      AllGivenPush(front[i := p], phases[n]);
    }
    assert phases == front + [phases[n]];
    AllGivenPush(front, phases[n]);
    Regroup(AllGiven(front), Given(phases[n]), more);
  }

  lemma AllGivenPush<Doc>(phases: seq<Phase<Doc>>, p: Phase<Doc>)
    ensures AllGiven(phases + [p]) == AllGiven(phases) + Given(p)
  {
    assert (phases + [p])[..|phases|] == phases;
  }

  lemma Regroup<T>(a: multiset<T>, b: multiset<T>, c: multiset<T>)
    ensures a + (b + c) == (a + b) + c == (a + c) + b
  {
  }

  function Failed<Doc>(p: Phase<Doc>): nat {
    if (p.Ending? || p.Finished?) && p.failed then 1 else 0
  }

  function One<Doc>(p: Phase<Doc>): nat {
    1
  }

  function StepsLeft<Doc>(p: Phase<Doc>): nat {
    match p
    case Unspawned(q) => |q.docs| + 4
    case Reading(_, rest, _) => |rest| + 3
    case Ending(_, _) => 1
    case Finished(_, _) => 0
  }

  /** A goroutine is somewhere on the way through its query. */
  ghost predicate Serves<Doc>(p: Phase<Doc>, q: Query<Doc>) {
    match p
    case Unspawned(q') => q' == q
    case Reading(given, rest, fails) => given + rest == q.docs && fails == q.fails
    case Ending(given, failed) => given == q.docs && failed == q.fails
    case Finished(given, failed) => given == q.docs && failed == q.fails
  }

  ghost predicate Inv<Doc>(s: State<Doc>, queries: seq<Query<Doc>>) {
    && |s.phases| == |queries| && s.spawned <= |queries|
    && (forall i | 0 <= i < |queries| :: Serves(s.phases[i], queries[i]))
    && (forall i | 0 <= i < |queries| :: s.phases[i].Unspawned? <==> i >= s.spawned)
    && multiset(s.docSnaps) == AllGiven(s.phases)
    && s.errors + s.received == Weight(s.phases, p => Failed(p))
    && (s.closed ==> s.spawned == |queries| && AllFinished(s))
    && (s.returned ==> s.closed && s.errors == 0)
  }

  function Remaining<Doc>(s: State<Doc>): nat {
    Weight(s.phases, p => StepsLeft(p)) + s.errors + (if s.closed then 0 else 1) + if s.returned then 0 else 1
  }

  lemma {:induction false} NothingGiven<Doc>(phases: seq<Phase<Doc>>)
    requires forall i | 0 <= i < |phases| :: phases[i].Unspawned?
    ensures AllGiven(phases) == multiset{}
  {
    if phases != [] {
      NothingGiven(phases[..|phases| - 1]);
    }
  }

  lemma InitInv<Doc>(queries: seq<Query<Doc>>)
    ensures Inv(Init(queries), queries)
  {
    WeightZero(Init(queries).phases, p => Failed(p));
    NothingGiven(Init(queries).phases);
  }

  predicate Moves(a: Action) {
    !a.Close? && !a.Receive? && !a.Return?
  }

  function Mover(s: State, a: Action): nat
    requires Moves(a)
  {
    if a.Spawn? then s.spawned else a.i
  }

  lemma StepGiven<Doc>(s: State<Doc>, queries: seq<Query<Doc>>, a: Action)
    requires Inv(s, queries) && Enabled(s, a)
    ensures multiset(Apply(s, a).docSnaps) == AllGiven(Apply(s, a).phases)
  {
    if a.Append? {
      AppendGiven(s, a.i);
    } else if Moves(a) {
      OtherGiven(s, a);
    }
  }

  lemma OtherGiven<Doc>(s: State<Doc>, a: Action)
    requires Enabled(s, a) && Moves(a) && !a.Append?
    ensures Apply(s, a).docSnaps == s.docSnaps && AllGiven(Apply(s, a).phases) == AllGiven(s.phases)
  {
    var i := Mover(s, a);
    AllGivenUpdate(s.phases, i, Apply(s, a).phases[i], multiset{});
  }

  lemma AppendGiven<Doc>(s: State<Doc>, i: nat)
    requires Enabled(s, Append(i)) && multiset(s.docSnaps) == AllGiven(s.phases)
    ensures multiset(Apply(s, Append(i)).docSnaps) == AllGiven(Apply(s, Append(i)).phases)
  {
    AllGivenUpdate(s.phases, i, Apply(s, Append(i)).phases[i], multiset{s.phases[i].rest[0]});
  }

  lemma StepErrors<Doc>(s: State<Doc>, queries: seq<Query<Doc>>, a: Action)
    requires Inv(s, queries) && Enabled(s, a)
    ensures Apply(s, a).errors + Apply(s, a).received == Weight(Apply(s, a).phases, p => Failed(p))
  {
    if Moves(a) {
      WeightUpdate(s.phases, Mover(s, a), Apply(s, a).phases[Mover(s, a)], p => Failed(p));
    }
  }

  lemma StepRemaining<Doc>(s: State<Doc>, queries: seq<Query<Doc>>, a: Action)
    requires Inv(s, queries) && Enabled(s, a)
    ensures Remaining(Apply(s, a)) < Remaining(s)
  {
    if Moves(a) {
      WeightUpdate(s.phases, Mover(s, a), Apply(s, a).phases[Mover(s, a)], p => StepsLeft(p));
    }
  }

  lemma StepServes<Doc>(s: State<Doc>, queries: seq<Query<Doc>>, a: Action)
    requires Inv(s, queries) && Enabled(s, a)
    ensures forall i | 0 <= i < |queries| :: Serves(Apply(s, a).phases[i], queries[i])
  {
    if Moves(a) {
      var i := Mover(s, a);
      assert Serves(s.phases[i], queries[i]);
      if a.Append? {
        var p := s.phases[i];
        assert p.given + [p.rest[0]] + p.rest[1..] == p.given + p.rest;
      }
    }
  }

  lemma StepPhases<Doc>(s: State<Doc>, queries: seq<Query<Doc>>, a: Action)
    requires Inv(s, queries) && Enabled(s, a)
    ensures var t := Apply(s, a);
            && |t.phases| == |queries| && t.spawned <= |queries|
            && (forall i | 0 <= i < |queries| :: t.phases[i].Unspawned? <==> i >= t.spawned)
            && (t.closed ==> t.spawned == |queries| && AllFinished(t))
            && (t.returned ==> t.closed && t.errors == 0)
  {
  }

  lemma StepKeepsInv<Doc>(s: State<Doc>, queries: seq<Query<Doc>>, a: Action)
    requires Inv(s, queries) && Enabled(s, a)
    ensures Inv(Apply(s, a), queries) && Remaining(Apply(s, a)) < Remaining(s)
  {
    StepGiven(s, queries, a);
    StepErrors(s, queries, a);
    StepRemaining(s, queries, a);
    StepServes(s, queries, a);
    StepPhases(s, queries, a);
  }

  lemma {:induction false} RunKeepsInv<Doc>(s: State<Doc>, queries: seq<Query<Doc>>, run: seq<Action>)
    requires Inv(s, queries) && Run(s, run).Some?
    ensures Inv(Run(s, run).value, queries) && |run| + Remaining(Run(s, run).value) <= Remaining(s)
  {
    if run != [] {
      RunKeepsInv(s, queries, run[..|run| - 1]);
      StepKeepsInv(Run(s, run[..|run| - 1]).value, queries, run[|run| - 1]);
    }
  }

  // ----- Results -----

  /** The send of an error never blocks, and the channel is not closed while one is still to
      come: whoever has an error to send finds room. */
  lemma SendsNeverBlock<Doc>(s: State<Doc>, queries: seq<Query<Doc>>, i: nat)
    requires Inv(s, queries) && i < |s.phases| && AtEnd(s.phases[i]) && s.phases[i].fails
    ensures Room(s) && s.errors < |s.phases| && !s.closed
  {
    WeightUpdate(s.phases, i, Ending(s.phases[i].given, true), p => Failed(p));
    var sent := s.phases[i := Ending(s.phases[i].given, true)];
    WeightBound(sent, p => Failed(p), p => One(p));
    WeightConstant(sent, p => One(p), 1);
  }

  /** Until the function has returned something can always happen. */
  lemma NeverStuck<Doc>(s: State<Doc>, queries: seq<Query<Doc>>) returns (a: Action)
    requires Inv(s, queries) && !s.returned
    ensures Enabled(s, a)
  {
    if s.spawned < |s.phases| {
      return Spawn;
    }
    if s.errors > 0 {
      return Receive;
    }
    if s.closed {
      return Return;
    }
    if i :| 0 <= i < |s.phases| && !s.phases[i].Finished? {
      var p := s.phases[i];
      if p.Ending? {
        return Done(i);
      } else if p.rest != [] {
        return Append(i);
      } else if p.fails {
        SendsNeverBlock(s, queries, i);
        return Fail(i);
      } else {
        return End(i);
      }
    }
    return Close;
  }

  /** All documents of all queries. */
  ghost function AllDocs<Doc>(queries: seq<Query<Doc>>): multiset<Doc> {
    if queries == [] then multiset{} else AllDocs(queries[..|queries| - 1]) + multiset(queries[|queries| - 1].docs)
  }

  lemma {:induction false} FinishedGaveAll<Doc>(phases: seq<Phase<Doc>>, queries: seq<Query<Doc>>)
    requires |phases| == |queries|
    requires forall i | 0 <= i < |queries| :: phases[i].Finished? && Serves(phases[i], queries[i])
    ensures AllGiven(phases) == AllDocs(queries)
  {
    if queries != [] {
      FinishedGaveAll(phases[..|phases| - 1], queries[..|queries| - 1]);
    }
  }

  /** However the goroutines interleave: a run that cannot go on has returned; it returns an
      error exactly when a query failed, and else the documents of all queries, each as often
      as the queries yield it. */
  lemma CollectsEverything<Doc>(queries: seq<Query<Doc>>, run: seq<Action>)
    requires Run(Init(queries), run).Some?
    requires forall a :: !Enabled(Run(Init(queries), run).value, a)
    ensures var s := Run(Init(queries), run).value;
            && s.returned
            && (Returned(s).Err? <==> exists i :: 0 <= i < |queries| && queries[i].fails)
            && (Returned(s).Ok? ==> multiset(Returned(s).value) == AllDocs(queries))
  {
    var s := Run(Init(queries), run).value;
    InitInv(queries);
    RunKeepsInv(Init(queries), queries, run);
    if !s.returned {
      var a := NeverStuck(s, queries);
    }
    ErrorsIfFailed(s, queries);
    FinishedGaveAll(s.phases, queries);
  }

  lemma ErrorsIfFailed<Doc>(s: State<Doc>, queries: seq<Query<Doc>>)
    requires Inv(s, queries) && s.returned
    ensures s.received > 0 <==> exists i :: 0 <= i < |queries| && queries[i].fails
  {
    WeightZero(s.phases, p => Failed(p));
    forall i | 0 <= i < |queries| ensures Failed(s.phases[i]) == if queries[i].fails then 1 else 0 {
      assert Serves(s.phases[i], queries[i]);
    }
  }

  lemma RunPush<Doc>(s: State<Doc>, run: seq<Action>, a: Action)
    requires Run(s, run).Some? && Enabled(Run(s, run).value, a)
    ensures Run(s, run + [a]) == Some(Apply(Run(s, run).value, a))
  {
    assert (run + [a])[..|run|] == run;
  }

  /** Every run can go on until the function has returned. */
  lemma {:induction false} RunCompletes<Doc>(queries: seq<Query<Doc>>, run: seq<Action>) returns (rest: seq<Action>)
    requires Run(Init(queries), run).Some?
    ensures Run(Init(queries), run + rest).Some? && Run(Init(queries), run + rest).value.returned
    decreases Remaining(Run(Init(queries), run).value)
  {
    hide Run, Apply, Enabled, Init, Remaining;
    var s := Run(Init(queries), run).value;
    InitInv(queries);
    RunKeepsInv(Init(queries), queries, run);
    if s.returned {
      rest := [];
      assert run + [] == run;
    } else {
      var a := NeverStuck(s, queries);
      StepKeepsInv(s, queries, a);
      RunPush(Init(queries), run, a);
      var more := RunCompletes(queries, run + [a]);
      rest := [a] + more;
      assert run + rest == run + [a] + more;
    }
  }

  /** No run is longer than this, so every run that keeps going gets there. */
  lemma RunsAreBounded<Doc>(queries: seq<Query<Doc>>, run: seq<Action>)
    requires Run(Init(queries), run).Some?
    ensures |run| <= Remaining(Init(queries))
  {
    InitInv(queries);
    RunKeepsInv(Init(queries), queries, run);
  }
}
