/** AutomaticWriteBatch: write operations are spread over batches of at most limit operations,
    which Commit sends one after the other. */
module AutomaticBatch {
  import opened Wrappers

  const MAX_OPERATIONS: nat := 500

  function Concat<Op>(batches: seq<seq<Op>>): seq<Op> {
    if batches == [] then [] else Concat(batches[..|batches| - 1]) + batches[|batches| - 1]
  }

  lemma ConcatPush<Op>(batches: seq<seq<Op>>, batch: seq<Op>)
    ensures Concat(batches + [batch]) == Concat(batches) + batch
  {
    assert (batches + [batch])[..|batches|] == batches;
  }

  /** All batches hold limit operations, but the last one fewer. */
  ghost predicate Split<Op>(batches: seq<seq<Op>>, limit: nat) {
    && batches != []
    && (forall k | 0 <= k < |batches| - 1 :: |batches[k]| == limit)
    && |batches[|batches| - 1]| < limit
  }

  lemma {:induction false} SplitSize<Op>(batches: seq<seq<Op>>, limit: nat, n: nat)
    requires n <= |batches| && forall k | 0 <= k < n :: |batches[k]| == limit
    ensures |Concat(batches[..n])| == limit * n
  {
    if n > 0 {
      assert batches[..n][..n - 1] == batches[..n - 1];
      SplitSize(batches, limit, n - 1);
      assert limit * n == limit * (n - 1) + limit;
    }
  }

  /** The operations alone decide how they are split. */
  lemma {:induction false} SplitUnique<Op>(a: seq<seq<Op>>, b: seq<seq<Op>>, limit: nat)
    requires Split(a, limit) && Split(b, limit) && Concat(a) == Concat(b)
    ensures a == b
  {
    SplitCount(a, limit);
    SplitCount(b, limit);
    assert a[..|a|] == a && b[..|a|] == b;
    SplitParts(a, b, limit, |a|);
  }

  lemma SplitCount<Op>(a: seq<seq<Op>>, limit: nat)
    requires Split(a, limit)
    ensures |a| - 1 == |Concat(a)| / limit
  {
    var n := |a| - 1;
    SplitSize(a, limit, n);
    QuotientOf(limit, n, |a[n]|);
  }

  lemma QuotientOf(limit: nat, n: nat, rest: nat)
    requires rest < limit
    ensures (limit * n + rest) / limit == n
  {
    var q := (limit * n + rest) / limit;
    assert limit * n + rest == limit * q + (limit * n + rest) % limit;
    if q < n {
      Multiples(limit, q, n);
    } else if q > n {
      Multiples(limit, n, q);
    }
  }

  lemma {:induction false} Multiples(limit: nat, a: nat, b: nat)
    requires a < b
    ensures limit * a + limit <= limit * b
    decreases b
  {
    assert limit * b == limit * (b - 1) + limit;
    if a < b - 1 {
      Multiples(limit, a, b - 1);
    }
  }

  lemma {:induction false} SplitParts<Op>(a: seq<seq<Op>>, b: seq<seq<Op>>, limit: nat, n: nat)
    requires |a| == |b| && n <= |a| && Concat(a[..n]) == Concat(b[..n])
    requires forall k | 0 <= k < |a| - 1 :: |a[k]| == |b[k]| == limit
    ensures a[..n] == b[..n]
  {
    if n > 0 {
      var fa, fb := a[..n - 1], b[..n - 1];
      assert a[..n][..n - 1] == fa && b[..n][..n - 1] == fb;
      SplitSize(a, limit, n - 1);
      SplitSize(b, limit, n - 1);
      assert Concat(a[..n])[..|Concat(fa)|] == Concat(fa) && Concat(b[..n])[..|Concat(fb)|] == Concat(fb);
      assert Concat(a[..n])[|Concat(fa)|..] == a[n - 1] && Concat(b[..n])[|Concat(fb)|..] == b[n - 1];
      SplitParts(a, b, limit, n - 1);
      assert a[..n] == fa + [a[n - 1]] && b[..n] == fb + [b[n - 1]];
    }
  }

  /** The errors of the commits that failed, in order; outcomes[k] is what the k-th returns. */
  function Failures(outcomes: seq<Option<string>>): seq<string> {
    if outcomes == [] then []
    else
      var last := outcomes[|outcomes| - 1];
      Failures(outcomes[..|outcomes| - 1]) + if last.Some? then [last.value] else []
  }

  /** The errors are those of the commits at the given places, and no other commit failed. */
  ghost predicate AreFailures(errors: seq<string>, at: seq<nat>, outcomes: seq<Option<string>>) {
    && |at| == |errors| && (forall j, k | 0 <= j < k < |at| :: at[j] < at[k])
    && (forall k | 0 <= k < |at| :: at[k] < |outcomes| && outcomes[at[k]] == Some(errors[k]))
    && forall i: nat | i < |outcomes| && outcomes[i].Some? :: i in at
  }

  /** One error for each commit that failed, in order, and for no other. */
  lemma {:induction false} FailuresAre(outcomes: seq<Option<string>>) returns (at: seq<nat>)
    ensures AreFailures(Failures(outcomes), at, outcomes)
    decreases |outcomes|
  {
    if outcomes == [] {
      at := [];
    } else {
      var front, last := outcomes[..|outcomes| - 1], outcomes[|outcomes| - 1];
      at := FailuresAre(front);
      assert outcomes == front + [last];
      if last.Some? {
        FailureMore(Failures(front), at, front, last.value);
        at := at + [|front|];
      }
    }
  }

  lemma FailureMore(errors: seq<string>, at: seq<nat>, outcomes: seq<Option<string>>, e: string)
    requires AreFailures(errors, at, outcomes)
    ensures AreFailures(errors + [e], at + [|outcomes|], outcomes + [Some(e)])
  {
    var more, all := at + [|outcomes|], outcomes + [Some(e)];
    forall i: nat | i < |all| && all[i].Some? ensures i in more {
      assert i < |outcomes| ==> i in at;
      assert more[|at|] == |outcomes|;
    }
  }

  /** The batches that Commit is to send. */
  function NonEmpty<Op>(batches: seq<seq<Op>>): seq<seq<Op>>
    requires batches != []
  {
    if batches[|batches| - 1] == [] then batches[..|batches| - 1] else batches
  }

  class AutomaticWriteBatch<Op> {
    var batches: seq<seq<Op>>
    var i: nat
    var size: nat
    const limit: nat

    ghost predicate Valid()
      reads this
    {
      0 < limit <= MAX_OPERATIONS && Split(batches, limit) && i == |batches| - 1 && size == |batches[i]|
    }

    /** The operations issued since the last commit. */
    ghost function Pending(): seq<Op>
      reads this
    {
      Concat(batches)
    }

    /** NewAutomaticWriteBatch. */
    constructor (limit: int)
      ensures Valid() && Pending() == []
      ensures this.limit == if 0 < limit <= 500 then limit else 500
    {
      this.limit := if limit <= 0 || limit > 500 then 500 else limit;
      batches := [[]];
      i := 0;
      size := 0;
    }

    /** Create, Set, Delete and Update: one more operation. */
    method Add(op: Op)
      requires Valid()
      modifies this
      ensures Valid() && Pending() == old(Pending()) + [op]
    {
      ghost var full := batches[..i];
      assert batches == full + [batches[i]];
      ConcatPush(full, batches[i]);
      batches := batches[i := batches[i] + [op]];
      assert batches == full + [batches[i]];
      ConcatPush(full, batches[i]);
      AddOperation();
    }

    /** addOperation. */
    method AddOperation()
      requires 0 < limit <= MAX_OPERATIONS && |batches| == i + 1 && size + 1 == |batches[i]| <= limit
      requires forall k | 0 <= k < i :: |batches[k]| == limit
      modifies this
      ensures Valid() && Pending() == old(Pending())
    {
      size := size + 1;
      if size >= limit {
        ConcatPush(batches, []);
        batches := batches + [[]];
        size := 0;
        i := i + 1;
      }
    }

    /** Commit: sends every batch that holds something, once and in order, and no other, whether
        or not some fail; then starts afresh. outcomes[k] is what the k-th commit returns. */
    method Commit(outcomes: seq<Option<string>>) returns (errors: seq<string>, sent: seq<seq<Op>>)
      requires Valid() && |outcomes| >= |batches|
      modifies this
      ensures Valid() && Pending() == []
      ensures sent == NonEmpty(old(batches)) && Concat(sent) == old(Pending())
      ensures forall k | 0 <= k < |sent| :: 0 < |sent[k]| <= limit && (k < |sent| - 1 ==> |sent[k]| == limit)
      ensures errors == Failures(outcomes[..|sent|])
    {
      errors, sent := [], [];
      for k := 0 to |batches|
        invariant sent == batches[..k] && errors == Failures(outcomes[..k])
        invariant Valid() && batches == old(batches)
        invariant k > i ==> size > 0
      {
        if k == i && size == 0 {
          break;
        }
        assert outcomes[..k + 1][..k] == outcomes[..k];
        sent := sent + [batches[k]];
        if outcomes[k].Some? {
          errors := errors + [outcomes[k].value];
        }
      }
      assert batches[..|batches|] == batches && outcomes[..|sent|] == outcomes[..|sent|];
      assert Concat(batches) == Concat(batches[..i]) + batches[i];
      assert sent == NonEmpty(batches) && Concat(sent) == Concat(batches);
      i := 0;
      size := 0;
      batches := [[]];
    }
  }
}
