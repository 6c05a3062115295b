/** RunConcurrentJobsOnCollection as a protocol: one goroutine for every document, a buffered
    channel as a semaphore, and a wait group.

    A run is any sequence of enabled actions, so what is proved of runs holds under every
    interleaving. */
module ConcurrentJobs {
  import opened Wrappers
  import opened Weights

  /** Where a goroutine is: not started, before its send on the semaphore, in its job, before
      its receive from the semaphore, before wg.Done, and done. */
  datatype Phase = Unspawned | Blocked | Running | Ran | Released | Finished

  /** tokens is the number of elements in the channel, ran how often each job was called;
      returned says that the caller is past Wait and has closed the channel. */
  datatype State = State(limit: nat, phases: seq<Phase>, ran: seq<nat>, spawned: nat, tokens: nat, returned: bool)

  datatype Action = Spawn | Acquire(i: nat) | EndJob(i: nat) | Release(i: nat) | Done(i: nat) | Return

  function Init(n: nat, limit: nat): State {
    State(limit, seq(n, i => Unspawned), seq(n, i => 0), 0, 0, false)
  }

  predicate Shaped(s: State) {
    |s.ran| == |s.phases|
  }

  predicate AllFinished(s: State) {
    forall i | 0 <= i < |s.phases| :: s.phases[i].Finished?
  }

  /** When an action can happen. A send needs room in the channel, a receive an element; a
      closed channel takes neither. Without room at all a send never happens: the only receives
      come after one. */
  predicate Enabled(s: State, a: Action) {
    match a
    case Spawn => s.spawned < |s.phases|
    case Acquire(i) => i < |s.phases| && s.phases[i].Blocked? && s.tokens < s.limit && !s.returned
    case EndJob(i) => i < |s.phases| && s.phases[i].Running?
    case Release(i) => i < |s.phases| && s.phases[i].Ran? && s.tokens > 0
    case Done(i) => i < |s.phases| && s.phases[i].Released?
    case Return => s.spawned == |s.phases| && AllFinished(s) && !s.returned
  }

  function Moved(s: State, i: nat, p: Phase): State
    requires i < |s.phases|
  {
    s.(phases := s.phases[i := p])
  }

  function Apply(s: State, a: Action): State
    requires Shaped(s) && Enabled(s, a)
  {
    match a
    case Spawn => Moved(s, s.spawned, Blocked).(spawned := s.spawned + 1)
    case Acquire(i) => Moved(s, i, Running).(tokens := s.tokens + 1, ran := s.ran[i := s.ran[i] + 1])
    case EndJob(i) => Moved(s, i, Ran)
    case Release(i) => Moved(s, i, Released).(tokens := s.tokens - 1)
    case Done(i) => Moved(s, i, Finished)
    case Return => s.(returned := true)
  }

  /** The state after a run; None when some action of it is not enabled. */
  function Run(s: State, run: seq<Action>): Option<State>
    requires Shaped(s)
    ensures Run(s, run).Some? ==> Shaped(Run(s, run).value)
  {
    if run == [] then Some(s)
    else
      var before :- Run(s, run[..|run| - 1]);
      if Enabled(before, run[|run| - 1]) then Some(Apply(before, run[|run| - 1])) else None
  }

  // ----- What every step keeps -----

  function Holds(p: Phase): nat {
    if p.Running? || p.Ran? then 1 else 0
  }

  function InJob(p: Phase): nat {
    if p.Running? then 1 else 0
  }

  function TimesRun(p: Phase): nat {
    if p.Unspawned? || p.Blocked? then 0 else 1
  }

  /** How many steps a goroutine still has to take. */
  function StepsLeft(p: Phase): nat {
    match p
    case Unspawned => 5
    case Blocked => 4
    case Running => 3
    case Ran => 2
    case Released => 1
    case Finished => 0
  }

  ghost predicate Inv(s: State) {
    && Shaped(s) && s.spawned <= |s.phases|
    && (forall i | 0 <= i < |s.phases| :: s.phases[i].Unspawned? <==> i >= s.spawned)
    && (forall i | 0 <= i < |s.phases| :: s.ran[i] == TimesRun(s.phases[i]))
    && s.tokens == Weight(s.phases, p => Holds(p)) <= s.limit
    && (s.returned ==> s.spawned == |s.phases| && AllFinished(s))
  }

  function Remaining(s: State): nat {
    Weight(s.phases, p => StepsLeft(p)) + if s.returned then 0 else 1
  }

  lemma InitInv(n: nat, limit: nat)
    ensures Inv(Init(n, limit)) && Remaining(Init(n, limit)) == 5 * n + 1
  {
    WeightZero(Init(n, limit).phases, p => Holds(p));
    WeightConstant(Init(n, limit).phases, p => StepsLeft(p), 5);
  }

  /** The goroutine an action moves. */
  function Mover(s: State, a: Action): nat {
    match a
    case Spawn => s.spawned
    case Return => 0
    case Acquire(i) => i
    case EndJob(i) => i
    case Release(i) => i
    case Done(i) => i
  }

  lemma StepTokens(s: State, a: Action)
    requires Inv(s) && Enabled(s, a)
    ensures Apply(s, a).tokens == Weight(Apply(s, a).phases, p => Holds(p)) <= s.limit
  {
    if !a.Return? {
      WeightUpdate(s.phases, Mover(s, a), Apply(s, a).phases[Mover(s, a)], p => Holds(p));
    }
  }

  lemma StepRemaining(s: State, a: Action)
    requires Inv(s) && Enabled(s, a)
    ensures Remaining(Apply(s, a)) == Remaining(s) - 1
  {
    if !a.Return? {
      WeightUpdate(s.phases, Mover(s, a), Apply(s, a).phases[Mover(s, a)], p => StepsLeft(p));
    }
  }

  /** Every step keeps the invariant and uses up one of the remaining steps. */
  lemma StepKeepsInv(s: State, a: Action)
    requires Inv(s) && Enabled(s, a)
    ensures Inv(Apply(s, a)) && Remaining(Apply(s, a)) == Remaining(s) - 1
  {
    StepTokens(s, a);
    StepRemaining(s, a);
  }

  lemma {:induction false} RunKeepsInv(s: State, run: seq<Action>)
    requires Inv(s) && Run(s, run).Some?
    ensures Inv(Run(s, run).value) && |run| + Remaining(Run(s, run).value) == Remaining(s)
    ensures Run(s, run).value.limit == s.limit && |Run(s, run).value.phases| == |s.phases|
  {
    if run != [] {
      RunKeepsInv(s, run[..|run| - 1]);
      StepKeepsInv(Run(s, run[..|run| - 1]).value, run[|run| - 1]);
    }
  }

  // ----- Results -----

  /** At no moment do more jobs run than the limit allows. */
  lemma JobsWithinLimit(n: nat, limit: nat, run: seq<Action>)
    requires Run(Init(n, limit), run).Some?
    ensures var phases := Run(Init(n, limit), run).value.phases;
            |phases| == n && |set i | 0 <= i < n && phases[i].Running?| <= limit
  {
    var phases := Run(Init(n, limit), run).value.phases;
    InitInv(n, limit);
    RunKeepsInv(Init(n, limit), run);
    WeightBound(phases, p => InJob(p), p => Holds(p));
    WeightCounts(phases, p => InJob(p));
    assert (set i | 0 <= i < n && phases[i].Running?) == Counted(phases, p => InJob(p));
  }

  /** When the function returns, every job was called exactly once and has ended, and nobody is
      left who could touch the closed channel. */
  lemma ReturnsAfterAllJobs(n: nat, limit: nat, run: seq<Action>, a: Action)
    requires Run(Init(n, limit), run).Some? && Run(Init(n, limit), run).value.returned
    ensures var s := Run(Init(n, limit), run).value;
            && |s.phases| == |s.ran| == n
            && forall i | 0 <= i < n :: s.ran[i] == 1 && s.phases[i].Finished?
    ensures !Enabled(Run(Init(n, limit), run).value, a)
  {
    InitInv(n, limit);
    RunKeepsInv(Init(n, limit), run);
  }

  /** Something can always happen until the function has returned, given room in the channel. */
  lemma NeverStuck(s: State) returns (a: Action)
    requires Inv(s) && !s.returned && (s.limit > 0 || |s.phases| == 0)
    ensures Enabled(s, a)
  {
    if s.spawned < |s.phases| {
      return Spawn;
    }
    WeightZero(s.phases, p => Holds(p));
    if i :| 0 <= i < |s.phases| && s.phases[i].Running? {
      return EndJob(i);
    }
    if i :| 0 <= i < |s.phases| && s.phases[i].Ran? {
      assert Holds(s.phases[i]) == 1;
      return Release(i);
    }
    if i :| 0 <= i < |s.phases| && s.phases[i].Released? {
      return Done(i);
    }
    if i :| 0 <= i < |s.phases| && s.phases[i].Blocked? {
      assert forall j | 0 <= j < |s.phases| :: Holds(s.phases[j]) == 0;
      return Acquire(i);
    }
    return Return;
  }

  lemma RunPush(s: State, run: seq<Action>, a: Action)
    requires Shaped(s) && Run(s, run).Some? && Enabled(Run(s, run).value, a)
    ensures Run(s, run + [a]) == Some(Apply(Run(s, run).value, a))
  {
    assert (run + [a])[..|run|] == run;
  }

  /** Given room in the channel, every run can go on until the function has returned. */
  lemma {:induction false} RunCompletes(n: nat, limit: nat, run: seq<Action>) returns (rest: seq<Action>)
    requires Run(Init(n, limit), run).Some? && (limit > 0 || n == 0)
    ensures Run(Init(n, limit), run + rest).Some? && Run(Init(n, limit), run + rest).value.returned
    decreases 5 * n + 1 - |run|
  {
    hide Run, Apply, Enabled;
    var s := Run(Init(n, limit), run).value;
    InitInv(n, limit);
    RunKeepsInv(Init(n, limit), run);
    if s.returned {
      rest := [];
      assert run + [] == run;
    } else {
      var a := NeverStuck(s);
      RunPush(Init(n, limit), run, a);
      var more := RunCompletes(n, limit, run + [a]);
      rest := [a] + more;
      assert run + rest == run + [a] + more;
    }
  }

  /** Every run that cannot go on has returned, after exactly 5n + 1 steps, if and only if the
      limit is at least one or there is nothing to do. */
  lemma ReturnsIff(n: nat, limit: nat, run: seq<Action>)
    requires Run(Init(n, limit), run).Some?
    requires forall a :: !Enabled(Run(Init(n, limit), run).value, a)
    ensures Run(Init(n, limit), run).value.returned <==> limit > 0 || n == 0
    ensures Run(Init(n, limit), run).value.returned ==> |run| == 5 * n + 1
  {
    var s := Run(Init(n, limit), run).value;
    InitInv(n, limit);
    RunKeepsInv(Init(n, limit), run);
    if s.returned {
      WeightZero(s.phases, p => StepsLeft(p));
      if limit == 0 && n > 0 {
        NobodyEnters(n, run);
      }
    } else if limit > 0 || n == 0 {
      var a := NeverStuck(s);
    }
  }

  /** With a limit of zero and one document the function waits for ever once the goroutine is
      started. */
  lemma ZeroLimitWaits()
    ensures var s := Run(Init(1, 0), [Spawn]);
            s.Some? && !s.value.returned && forall a :: !Enabled(s.value, a)
  {
    var s := Init(1, 0);
    assert [Spawn][..0] == [] && Run(s, []) == Some(s);
    var t := Apply(s, Spawn);
    assert Run(s, [Spawn]) == Some(t);
    assert |t.phases| == 1 && t.phases[0].Blocked? && !AllFinished(t);
  }

  /** With a limit of zero no job ever starts. */
  lemma {:induction false} NobodyEnters(n: nat, run: seq<Action>)
    requires Run(Init(n, 0), run).Some?
    ensures var phases := Run(Init(n, 0), run).value.phases;
            |phases| == n && forall i | 0 <= i < n :: phases[i].Unspawned? || phases[i].Blocked?
    ensures Run(Init(n, 0), run).value.limit == 0
  {
    if run != [] {
      NobodyEnters(n, run[..|run| - 1]);
    }
  }
}
