/** The coordinator's calls to its workers as a step system: replies, failures and the
    cancellation after the first failure arrive in any order. */
module Coordination {
  import opened Values
  import opened Groups
  import opened Representations
  import opened Aggregators
  import opened Jobs
  import opened Shards
  import opened Distribution

  type Reply = Result<ShardResult, DistributeError>

  datatype Call = Running | Stored(result: ShardResult) | Failed

  datatype Coordinator = Coordinator(calls: seq<Call>, firstErr: Option<DistributeError>, cancelled: bool)

  /** Call i ends: with its worker's reply, or in the transport, also because of a cancellation. */
  datatype Event = Arrives(i: nat) | Breaks(i: nat)

  predicate Possible(s: Coordinator, replies: seq<Reply>, e: Event) {
    e.i < |s.calls| == |replies| && s.calls[e.i].Running?
  }

  /** The first error is recorded and cancels the other calls; later ones are ignored. */
  function Fail(s: Coordinator, i: nat, err: DistributeError): Coordinator
    requires i < |s.calls|
  {
    Coordinator(s.calls[i := Failed], if s.firstErr.None? then Some(err) else s.firstErr, true)
  }

  function Next(s: Coordinator, replies: seq<Reply>, e: Event): Coordinator
    requires Possible(s, replies, e)
  {
    match e
    case Breaks(i) => Fail(s, i, CallFailed)
    case Arrives(i) =>
      match replies[i]
      case Err(err) => Fail(s, i, err)
      case Ok(r) => s.(calls := s.calls[i := Stored(r)])
  }

  function Start(n: nat): Coordinator {
    Coordinator(seq(n, _ => Running), None, false)
  }

  predicate Happens(s: Coordinator, replies: seq<Reply>, events: seq<Event>)
    decreases events
  {
    events == [] || (Possible(s, replies, events[0]) && Happens(Next(s, replies, events[0]), replies, events[1..]))
  }

  function Finally(s: Coordinator, replies: seq<Reply>, events: seq<Event>): Coordinator
    requires Happens(s, replies, events)
    decreases events
  {
    if events == [] then s else Finally(Next(s, replies, events[0]), replies, events[1..])
  }

  predicate Complete(s: Coordinator) {
    forall i :: 0 <= i < |s.calls| ==> !s.calls[i].Running?
  }

  // ---------- what always holds ----------

  /** Stored results are the workers' own; an error is recorded exactly when a call failed, and
      with it the cancellation. */
  predicate Consistent(s: Coordinator, replies: seq<Reply>) {
    && |s.calls| == |replies|
    && (forall i :: 0 <= i < |s.calls| && s.calls[i].Stored? ==> replies[i] == Ok(s.calls[i].result))
    && (s.firstErr.Some? <==> exists i :: 0 <= i < |s.calls| && s.calls[i].Failed?)
    && (s.cancelled <==> s.firstErr.Some?)
  }

  lemma StepIsConsistent(s: Coordinator, replies: seq<Reply>, e: Event)
    requires Possible(s, replies, e) && Consistent(s, replies)
    ensures Consistent(Next(s, replies, e), replies)
    ensures s.firstErr.Some? ==> Next(s, replies, e).firstErr == s.firstErr
  {
    var s' := Next(s, replies, e);
    if i :| 0 <= i < |s.calls| && s.calls[i].Failed? {
      assert s'.calls[i].Failed?;
    }
    if s'.firstErr != s.firstErr {
      assert s'.calls[e.i].Failed?;
    }
  }

  lemma {:induction false} AlwaysConsistent(s: Coordinator, replies: seq<Reply>, events: seq<Event>)
    requires Happens(s, replies, events) && Consistent(s, replies)
    ensures Consistent(Finally(s, replies, events), replies)
    decreases events
  {
    hide Consistent, Next, Possible;
    if events != [] {
      StepIsConsistent(s, replies, events[0]);
      AlwaysConsistent(Next(s, replies, events[0]), replies, events[1..]);
    }
  }

  /** What an event fails with, if it does. */
  function Failure(replies: seq<Reply>, e: Event): Option<DistributeError>
    requires e.i < |replies|
  {
    if e.Breaks? then Some(CallFailed) else if replies[e.i].Err? then Some(replies[e.i].error) else None
  }

  /** The error of the earliest event that fails. */
  function EarliestFailure(replies: seq<Reply>, events: seq<Event>): Option<DistributeError>
    requires forall k :: 0 <= k < |events| ==> events[k].i < |replies|
  {
    if events == [] then None
    else if Failure(replies, events[0]).Some? then Failure(replies, events[0])
    else EarliestFailure(replies, events[1..])
  }

  /** The recorded error is the earliest failure, and is recorded once: nothing that happens
      later replaces it. */
  lemma {:induction false} FirstErrorIsRecordedOnce(s: Coordinator, replies: seq<Reply>, events: seq<Event>)
    requires Happens(s, replies, events)
    ensures forall k :: 0 <= k < |events| ==> events[k].i < |replies|
    ensures Finally(s, replies, events).firstErr
            == if s.firstErr.Some? then s.firstErr else EarliestFailure(replies, events)
    decreases events
  {
    if events != [] {
      FirstErrorIsRecordedOnce(Next(s, replies, events[0]), replies, events[1..]);
      forall k | 0 <= k < |events|
        ensures events[k].i < |replies|
      {
        assert k > 0 ==> events[k] == events[1..][k - 1];
      }
    }
  }

  lemma {:induction false} NothingFails(replies: seq<Reply>, events: seq<Event>)
    requires forall k :: 0 <= k < |events| ==> events[k].i < |replies|
    ensures EarliestFailure(replies, events).None? <==>
            forall k :: 0 <= k < |events| ==> Failure(replies, events[k]).None?
  {
    hide Failure;
    if events != [] {
      NothingFails(replies, events[1..]);
      assert forall k :: 0 < k < |events| ==> events[k] == events[1..][k - 1];
    }
  }

  // ---------- every run completes ----------

  function RunningCalls(calls: seq<Call>): nat {
    if calls == [] then 0 else RunningCalls(calls[..|calls| - 1]) + if calls[|calls| - 1].Running? then 1 else 0
  }

  lemma {:induction false} OneCallEnds(calls: seq<Call>, i: nat, c: Call)
    requires i < |calls| && calls[i].Running? && !c.Running?
    ensures RunningCalls(calls[i := c]) == RunningCalls(calls) - 1
  {
    var n := |calls| - 1;
    if i == n {
      assert calls[i := c][..n] == calls[..n];
    } else {
      OneCallEnds(calls[..n], i, c);
      assert calls[i := c][..n] == calls[..n][i := c];
    }
  }

  lemma {:induction false} SomeCallRuns(calls: seq<Call>)
    ensures RunningCalls(calls) == 0 <==> forall i :: 0 <= i < |calls| ==> !calls[i].Running?
  {
    if calls != [] {
      SomeCallRuns(calls[..|calls| - 1]);
    }
  }

  /** Each event ends one call: a run is complete exactly when every call has had its event. */
  lemma {:induction false} RunsComplete(s: Coordinator, replies: seq<Reply>, events: seq<Event>)
    requires Happens(s, replies, events)
    ensures RunningCalls(s.calls) == |events| + RunningCalls(Finally(s, replies, events).calls)
    ensures Complete(Finally(s, replies, events)) <==> |events| == RunningCalls(s.calls)
    decreases events
  {
    hide RunningCalls;
    if events == [] {
      SomeCallRuns(s.calls);
    } else {
      var c := Next(s, replies, events[0]).calls[events[0].i];
      OneCallEnds(s.calls, events[0].i, c);
      assert Next(s, replies, events[0]).calls == s.calls[events[0].i := c];
      RunsComplete(Next(s, replies, events[0]), replies, events[1..]);
    }
  }

  // ---------- the outcome ----------

  /** The results slice, once every call has stored its result. */
  function Collected(s: Coordinator): seq<ShardResult>
    requires forall i :: 0 <= i < |s.calls| ==> s.calls[i].Stored?
  {
    seq(|s.calls|, i requires 0 <= i < |s.calls| => s.calls[i].result)
  }

  lemma StartIsConsistent(replies: seq<Reply>)
    ensures Consistent(Start(|replies|), replies)
  {
  }

  /** A complete run records no error exactly when no call broke and no worker failed. Then it has
      stored every worker's reply, so what is merged depends on the replies alone, not on the
      order of their arrival. */
  lemma CompleteRun(replies: seq<Reply>, events: seq<Event>)
    requires Happens(Start(|replies|), replies, events)
    requires Complete(Finally(Start(|replies|), replies, events))
    ensures var t := Finally(Start(|replies|), replies, events);
            && (t.firstErr.None? <==>
                  && (forall k :: 0 <= k < |events| ==> !events[k].Breaks?)
                  && (forall i :: 0 <= i < |replies| ==> replies[i].Ok?))
            && |t.calls| == |replies|
            && (t.firstErr.None? ==>
                  forall i :: 0 <= i < |replies| ==> replies[i].Ok? && t.calls[i] == Stored(replies[i].value))
  {
    hide Next, Possible, EarliestFailure;
    StartIsConsistent(replies);
    AlwaysConsistent(Start(|replies|), replies, events);
    FirstErrorIsRecordedOnce(Start(|replies|), replies, events);
    NothingFails(replies, events);
    var t := Finally(Start(|replies|), replies, events);
    if t.firstErr.None? {
      forall i | 0 <= i < |replies|
        ensures replies[i].Ok? && t.calls[i] == Stored(replies[i].value)
      {
        assert !t.calls[i].Running? && !t.calls[i].Failed?;
      }
      forall k | 0 <= k < |events|
        ensures !events[k].Breaks?
      {
        assert Failure(replies, events[k]).None?;
      }
    }
  }

  /** Whatever the interleaving, a distributed run that records no error merges to an aggregate of the
      file's rows, with the single reader's row and skip counts, and where order leaves no trace to
      the single reader's answer. */
  lemma DistributedRun(job: Job, data: bytes, shards: seq<Shard>, replies: seq<Reply>, events: seq<Event>)
    requires job.Valid() && Distributable(job.shape.spec) && PlannedShards(data, job.hasHeader, shards)
    requires |replies| == |shards|
    requires forall i :: 0 <= i < |shards| && replies[i].Ok? ==>
      Answers(job, ContentOf(data, shards, i), shards[i].skipHeader, replies[i].value)
    requires Happens(Start(|shards|), replies, events) && Complete(Finally(Start(|shards|), replies, events))
    requires Finally(Start(|shards|), replies, events).firstErr.None?
    ensures var t := Finally(Start(|shards|), replies, events);
            && (forall i :: 0 <= i < |t.calls| ==> t.calls[i].Stored?)
            && var results := Collected(t);
               && AllAnswersFit(job.shape, results)
               && Represents(job.shape, Merged(job.shape, results, |results|), job.RowsIn(data, job.hasHeader))
               && (Determined(job.shape, job.RowsIn(data, job.hasHeader)) ==>
                     Merged(job.shape, results, |results|) == job.Answer(data))
               && RowsTotal(results, |results|) == |job.RowsIn(data, job.hasHeader)|
               && SkippedTotal(results, |results|) == job.BadIn(data, job.hasHeader)
  {
    hide Next, Possible, Planned, Answers, AllAnswersFit, Merged, GroupBy, Job.RowsIn, Job.BadIn, Represents,
         Determined;
    CompleteRun(replies, events);
    var t := Finally(Start(|shards|), replies, events);
    assert AllAnswer(job, data, shards, Collected(t));
    DistributedEqualsSingle(job, data, shards, Collected(t));
  }

  // ---------- a run of real workers ----------

  /** Calls the workers in the given order, one after another; the results are filed by shard. */
  method CallWorkers(job: Job, data: bytes, shards: seq<Shard>, order: seq<nat>, hashers: seq<Hasher>)
    returns (results: seq<ShardResult>, firstErr: Option<DistributeError>)
    requires job.Valid() && Distributable(job.shape.spec) && PlannedShards(data, job.hasHeader, shards)
    requires (forall k :: 0 <= k < |order| ==> order[k] < |shards|) && forall i :: 0 <= i < |shards| ==> i in order
    requires |hashers| == |shards|
    ensures firstErr.None? <==> job.Readable(data, job.hasHeader)
    ensures firstErr.None? ==> AllAnswer(job, data, shards, results)
  {
    hide Planned, Answers, GroupBy, Job.Readable, Job.Valid, Distributable;
    ReadableInPieces(job, data, shards);
    results := seq(|shards|, _ => ShardResult([], 0, 0));
    firstErr := None;
    for k := 0 to |order|
      invariant |results| == |shards|
      invariant firstErr.None? ==> forall j :: 0 <= j < k ==>
        Answers(job, ContentOf(data, shards, order[j]), shards[order[j]].skipHeader, results[order[j]])
      invariant firstErr.None? ==> forall j :: 0 <= j < k ==>
        job.Readable(ContentOf(data, shards, order[j]), shards[order[j]].skipHeader)
      invariant firstErr.Some? ==>
        exists i :: 0 <= i < |shards| && !job.Readable(ContentOf(data, shards, i), shards[i].skipHeader)
    {
      var i := order[k];
      var reply := RunShard(job, ContentOf(data, shards, i), shards[i].skipHeader, hashers[i]);
      match reply {
        case Err(e) =>
          firstErr := if firstErr.None? then Some(e) else firstErr;
        case Ok(answer) =>
          results := results[i := answer];
      }
    }
    if firstErr.None? {
      forall i | 0 <= i < |shards|
        ensures Answers(job, ContentOf(data, shards, i), shards[i].skipHeader, results[i])
        ensures job.Readable(ContentOf(data, shards, i), shards[i].skipHeader)
      {
        assert i in order;
        var k :| 0 <= k < |order| && order[k] == i;
      }
    }
  }

  /** Dispatches every shard to its worker and merges the answers. */
  method RunDistributed(job: Job, data: bytes, shards: seq<Shard>, order: seq<nat>, hashers: seq<Hasher>, own: Hasher)
    returns (r: Result<(Aggregator, nat, nat), DistributeError>)
    requires job.Valid() && PlannedShards(data, job.hasHeader, shards) && |hashers| == |shards|
    requires (forall k :: 0 <= k < |order| ==> order[k] < |shards|) && forall i :: 0 <= i < |shards| ==> i in order
    ensures r.Ok? <==> Distributable(job.shape.spec) && job.Readable(data, job.hasHeader)
    ensures r.Ok? ==>
      && fresh(r.value.0.Repr()) && r.value.0.Valid() && r.value.0.shape == job.shape
      && Represents(job.shape, r.value.0.View(), job.RowsIn(data, job.hasHeader))
      && (Determined(job.shape, job.RowsIn(data, job.hasHeader)) ==> r.value.0.View() == job.Answer(data))
      && r.value.1 == |job.RowsIn(data, job.hasHeader)| && r.value.2 == job.BadIn(data, job.hasHeader)
  {
    hide Planned, AllAnswer, AllAnswersFit, Merged, GroupBy, Job.RowsIn, Job.BadIn, Job.Readable, Aggregator.Valid,
         Aggregator.View, Aggregator.Repr, Job.Valid, Distributable, Represents, Determined;
    ValidShape(job);
    if !Distributable(job.shape.spec) {
      return Err(NotDistributable);
    }
    var results, firstErr := CallWorkers(job, data, shards, order, hashers);
    if firstErr.Some? {
      return Err(firstErr.value);
    }
    var final := new Aggregator(job.shape, own);
    DistributedEqualsSingle(job, data, shards, results);
    var rows, skipped, err := MergeResults(final, results);
    return Ok((final, rows, skipped));
  }
}
