/**
  The session's event loop: construction, `run`, `abort`, receive completions
  and the per-pass sweep of finished tasks.

  The reactor is modelled by its observable effect on the loop: each call of
  `run_one` followed by `poll` executes one batch of completion handlers, given
  as a sequence of events; an empty batch means `run_one` found no work. The
  session records the handler calls that routing makes (`calls`), the
  subnets with a receive outstanding (`receiving`) and whether the reactor
  has been stopped.
 */
module Sessions {
  import opened Wrappers
  import opened Errors
  import opened Results
  import opened Subnets
  import opened Messages
  import opened Tasks

  datatype Session = Session(
    myId: Id,
    ipv4: Subnet,
    ipv6: Subnet,
    tasks: seq<Task>,
    failure: ErrorCode,
    stopped: bool,
    receiving: set<Family>,
    calls: seq<Call>)

  /** One completion handler run by the reactor. */
  datatype Event =
    | ReceiveCompleted(subnet: Family, failure: ErrorCode, sender: Endpoint, decoded: Option<Decoded>)
    | TaskCreated(task: Task)
    | TaskFinished(id: nat)
    | AbortRequested

  /**
    The session constructor: the IPv4 subnet is created first, then the IPv6
    one; the first that fails aborts construction with its error. The
    identifier is drawn at random by the source and is an input here, as are
    the outcomes of resolving each listening endpoint and of binding sockets.
   */
  method NewSession(myId: Id, ipv4: R<seq<Endpoint>>, ipv6: R<seq<Endpoint>>, bind: Endpoint -> ErrorCode)
    returns (r: R<Session>)
    ensures r.Value? <==> (exists e :: BindsTo(ipv4, Ipv4, bind, e)) && (exists e :: BindsTo(ipv6, Ipv6, bind, e))
    ensures ipv4.Error? ==> r == Error(ipv4.error)
    ensures ipv4.Value? && NoneOfFamily(ipv4.value, Ipv4) ==> r == Error(InvalidIpv4Address)
    ensures ipv4.Value? ==> forall i :: IsFirstOfFamily(ipv4.value, i, Ipv4) && IsFailure(bind(ipv4.value[i])) ==>
      r == Error(bind(ipv4.value[i]))
    ensures (exists e :: BindsTo(ipv4, Ipv4, bind, e)) && ipv6.Error? ==> r == Error(ipv6.error)
    ensures (exists e :: BindsTo(ipv4, Ipv4, bind, e)) && ipv6.Value? && NoneOfFamily(ipv6.value, Ipv6) ==>
      r == Error(InvalidIpv6Address)
    ensures (exists e :: BindsTo(ipv4, Ipv4, bind, e)) && ipv6.Value? ==>
      forall i :: IsFirstOfFamily(ipv6.value, i, Ipv6) && IsFailure(bind(ipv6.value[i])) ==> r == Error(bind(ipv6.value[i]))
    ensures r.Value? ==> r.value.myId == myId && r.value.tasks == [] && r.value.failure == NoError
    ensures r.Value? ==> !r.value.stopped && r.value.receiving == {} && r.value.calls == []
    ensures r.Value? ==> BindsTo(ipv4, Ipv4, bind, r.value.ipv4.local) && BindsTo(ipv6, Ipv6, bind, r.value.ipv6.local)
  {
    var v4 := CreateIpv4Subnet(ipv4, bind);
    if v4.Error? {
      return Error(v4.error);
    }
    var v6 := CreateIpv6Subnet(ipv6, bind);
    if v6.Error? {
      return Error(v6.error);
    }
    return Value(Session(myId, v4.value, v6.value, [], NoError, false, {}, []));
  }

  /** `schedule_receive_on_subnet`: one more receive outstanding on `subnet`. */
  function ScheduleReceive(s: Session, subnet: Family): (r: Session)
    ensures r.receiving == s.receiving + {subnet}
    ensures r == s.(receiving := r.receiving)
  {
    s.(receiving := s.receiving + {subnet})
  }

  /**
    The receive completion handler: a failure is recorded as the session's
    failure and the subnet stops receiving; otherwise the message is routed
    and a new receive is scheduled on the same subnet.
   */
  function OnNewMessage(s: Session, subnet: Family, failure: ErrorCode, sender: Endpoint, decoded: Option<Decoded>): (r: Session)
    ensures IsFailure(failure) ==> r.failure == failure && subnet !in r.receiving && r.calls == s.calls
    ensures !IsFailure(failure) ==> r.failure == s.failure && subnet in r.receiving
    ensures !IsFailure(failure) ==> r.calls == s.calls + HandleNewMessage(subnet, sender, decoded)
    ensures r.tasks == s.tasks && r.stopped == s.stopped
    ensures r.receiving - {subnet} == s.receiving - {subnet}
    ensures r == s.(failure := r.failure, receiving := r.receiving, calls := r.calls)
  {
    var consumed := s.(receiving := s.receiving - {subnet});
    if IsFailure(failure) then
      consumed.(failure := failure)
    else
      var handled := consumed.(calls := consumed.calls + HandleNewMessage(subnet, sender, decoded));
      ScheduleReceive(handled, subnet)
  }

  /** A datagram whose header does not decode is dropped: nothing but the re-armed receive changes. */
  lemma UndecodableDatagramDropped(s: Session, subnet: Family, sender: Endpoint)
    requires subnet in s.receiving
    ensures OnNewMessage(s, subnet, NoError, sender, None) == s
  {
  }

  /** `abort`: stops the reactor and records `RUN_ABORTED` as the failure. */
  function Abort(s: Session): (r: Session)
    ensures r.failure == RunAborted && IsFailure(r.failure)
    ensures r.stopped
    ensures r.tasks == s.tasks && r.calls == s.calls && r.receiving == s.receiving
    ensures r == s.(stopped := r.stopped, failure := r.failure)
  {
    s.(stopped := true, failure := RunAborted)
  }

  /** Executes one completion handler. A completion for a subnet with no receive outstanding cannot be delivered and is ignored. */
  function Apply(s: Session, e: Event): Session {
    match e
    case ReceiveCompleted(subnet, failure, sender, decoded) =>
      if subnet in s.receiving then OnNewMessage(s, subnet, failure, sender, decoded) else s
    case TaskCreated(t) => s.(tasks := CreateNewTask(s.tasks, t))
    case TaskFinished(id) => s.(tasks := MarkFinished(s.tasks, id))
    case AbortRequested => Abort(s)
  }

  /** Runs ready handlers in order until none is left or the reactor is stopped. */
  function Poll(s: Session, events: seq<Event>): (r: Session)
    ensures s.stopped || |events| == 0 ==> r == s
    ensures r.myId == s.myId && r.ipv4 == s.ipv4 && r.ipv6 == s.ipv6
    ensures |s.calls| <= |r.calls| && r.calls[..|s.calls|] == s.calls
    decreases |events|
  {
    if |events| == 0 || s.stopped then s else Poll(Apply(s, events[0]), events[1..])
  }

  /** The body of one loop pass: run the batch, then `destroy_finished_tasks`. */
  function Pass(s: Session, batch: seq<Event>): (r: Session)
    ensures r == Poll(s, batch).(tasks := r.tasks)
    ensures forall i :: 0 <= i < |r.tasks| ==> !r.tasks[i].finished
    ensures forall t: Task :: !t.finished ==> multiset(r.tasks)[t] == multiset(Poll(s, batch).tasks)[t]
    ensures |r.tasks| <= |Poll(s, batch).tasks|
    ensures r.tasks == DestroyFinishedTasks(Poll(s, batch).tasks)
  {
    var p := Poll(s, batch);
    p.(tasks := DestroyFinishedTasks(p.tasks))
  }

  /** `run_one` executes a handler: the reactor is not stopped and has work. */
  predicate RunsHandler(s: Session, batch: seq<Event>) {
    !s.stopped && |batch| > 0
  }

  /** The loop condition of `run`: no failure recorded, and `run_one` ran a handler. */
  predicate Continues(s: Session, batch: seq<Event>) {
    !IsFailure(s.failure) && RunsHandler(s, batch)
  }

  /** The state after the first `n` steps of `step`, all executed regardless of the loop condition. */
  function Iterate(step: (Session, seq<Event>) -> Session, s: Session, batches: seq<seq<Event>>, n: nat): Session
    requires n <= |batches|
    decreases n
  {
    if n == 0 then s else step(Iterate(step, s, batches, n - 1), batches[n - 1])
  }

  /** The loop condition held before each of the first `n` steps of `step`. */
  ghost predicate RanUnder(step: (Session, seq<Event>) -> Session, s: Session, batches: seq<seq<Event>>, n: nat)
    requires n <= |batches|
    decreases n
  {
    n == 0 || (RanUnder(step, s, batches, n - 1) && Continues(Iterate(step, s, batches, n - 1), batches[n - 1]))
  }

  /** The state after the first `n` loop passes, all executed regardless of the loop condition. */
  function After(s: Session, batches: seq<seq<Event>>, n: nat): Session
    requires n <= |batches|
  {
    Iterate(Pass, s, batches, n)
  }

  /** The loop condition held before each of the first `n` passes. */
  ghost predicate LoopRan(s: Session, batches: seq<seq<Event>>, n: nat)
    requires n <= |batches|
  {
    RanUnder(Pass, s, batches, n)
  }

  /** What `run` does before the loop: clear the failure, reset the reactor, start receiving on both subnets. */
  function Init(s: Session): (r: Session)
    ensures r.failure == NoError && !r.stopped
    ensures r.receiving == s.receiving + {Ipv4, Ipv6}
    ensures r.tasks == s.tasks && r.calls == s.calls
    ensures r == s.(failure := r.failure, stopped := r.stopped, receiving := r.receiving)
  {
    var cleared := s.(failure := NoError);
    var reset := cleared.(stopped := false);
    ScheduleReceive(ScheduleReceive(reset, Ipv4), Ipv6)
  }

  /**
    `run`: clears the failure, then makes passes while no failure is recorded
    and the reactor runs a handler, and returns the failure. `passes` is the
    number of loop passes made.
   */
  method Run(s0: Session, batches: seq<seq<Event>>) returns (failure: ErrorCode, s: Session, passes: nat)
    ensures passes <= |batches|
    ensures s == After(Init(s0), batches, passes)
    ensures LoopRan(Init(s0), batches, passes)
    ensures passes < |batches| ==> !Continues(s, batches[passes])
    ensures failure == s.failure
    ensures passes > 0 ==> forall i :: 0 <= i < |s.tasks| ==> !s.tasks[i].finished
  {
    var start := Init(s0);
    s := start;
    passes := 0;
    while passes < |batches| && !IsFailure(s.failure) && RunsHandler(s, batches[passes])
      invariant passes <= |batches|
      invariant s == After(start, batches, passes)
      invariant LoopRan(start, batches, passes)
      invariant passes > 0 ==> forall i :: 0 <= i < |s.tasks| ==> !s.tasks[i].finished
    {
      s := Pass(s, batches[passes]);
      passes := passes + 1;
    }
    failure := s.failure;
  }

  /** The failure recorded before `run` is called has no influence on it. */
  lemma RunClearsFailureFirst(s: Session, e: ErrorCode)
    ensures Init(s.(failure := e)) == Init(s)
  {
  }

  /** Running two runs of handlers back to back is running their concatenation. */
  lemma {:induction false} PollConcat(s: Session, a: seq<Event>, b: seq<Event>)
    ensures Poll(s, a + b) == Poll(Poll(s, a), b)
    decreases |a|
  {
    if |a| == 0 {
      assert a + b == b;
    } else if !s.stopped {
      assert (a + b)[1..] == a[1..] + b;
      PollConcat(Apply(s, a[0]), a[1..], b);
    }
  }

  /** Once recorded, a failure stays recorded for the rest of the batch: no handler clears it. */
  lemma {:induction false} PollKeepsFailure(s: Session, batch: seq<Event>)
    requires IsFailure(s.failure)
    ensures IsFailure(Poll(s, batch).failure)
    decreases |batch|
  {
    if |batch| > 0 && !s.stopped {
      PollKeepsFailure(Apply(s, batch[0]), batch[1..]);
    }
  }

  /** A failure recorded during a pass ends the loop: the sweep keeps it and the condition fails. */
  lemma PassKeepsFailure(s: Session, batch: seq<Event>, next: seq<Event>)
    requires IsFailure(s.failure)
    ensures IsFailure(Pass(s, batch).failure)
    ensures !Continues(Pass(s, batch), next)
  {
    PollKeepsFailure(s, batch);
  }

  /** A batch that requests `abort` ends stopped with `RUN_ABORTED`; the handlers after it are not run. */
  lemma {:induction false} PollAbort(s: Session, batch: seq<Event>)
    requires !s.stopped
    requires AbortRequested in batch
    ensures Poll(s, batch).stopped
    ensures Poll(s, batch).failure == RunAborted
    decreases |batch|
  {
    if batch[0] != AbortRequested {
      assert AbortRequested in batch[1..];
      PollAbort(Apply(s, batch[0]), batch[1..]);
    }
  }

  /**
    After a pass whose batch requests `abort`, the loop makes no further pass,
    and the failure it would return is `RUN_ABORTED`.
   */
  lemma AbortEndsLoop(s: Session, batch: seq<Event>, next: seq<Event>)
    requires !s.stopped
    requires AbortRequested in batch
    ensures Pass(s, batch).failure == RunAborted
    ensures !Continues(Pass(s, batch), next)
  {
    PollAbort(s, batch);
  }

  /**
    A failed receive completion, delivered while a receive is outstanding on
    its subnet, ends the loop after the current pass, whatever the rest of the
    batch does.
   */
  lemma ReceiveFailureEndsLoop(s: Session, batch: seq<Event>, i: nat, next: seq<Event>)
    requires i < |batch| && batch[i].ReceiveCompleted? && IsFailure(batch[i].failure)
    requires !Poll(s, batch[..i]).stopped && batch[i].subnet in Poll(s, batch[..i]).receiving
    ensures IsFailure(Pass(s, batch).failure)
    ensures !Continues(Pass(s, batch), next)
  {
    var p := Poll(s, batch[..i]);
    assert batch == batch[..i] + batch[i..];
    PollConcat(s, batch[..i], batch[i..]);
    assert batch[i..][0] == batch[i];
    assert batch[i..][1..] == batch[i + 1..];
    PollKeepsFailure(Apply(p, batch[i]), batch[i + 1..]);
  }

  /** The loop condition held before each of the first `m` steps when it held before each of the first `n >= m`. */
  lemma {:induction false} RanUnderPrefix(step: (Session, seq<Event>) -> Session, s: Session, batches: seq<seq<Event>>, n: nat, m: nat)
    requires m <= n <= |batches|
    requires RanUnder(step, s, batches, n)
    ensures RanUnder(step, s, batches, m)
    decreases n
  {
    if m < n {
      RanUnderPrefix(step, s, batches, n - 1, m);
    }
  }

  /** The loop condition held before the last of the first `n` steps. */
  lemma RanUnderLast(step: (Session, seq<Event>) -> Session, s: Session, batches: seq<seq<Event>>, m: nat)
    requires m < |batches|
    requires RanUnder(step, s, batches, m + 1)
    ensures Continues(Iterate(step, s, batches, m), batches[m])
  {
  }

  /** A pass that requests `abort` leaves `RUN_ABORTED`, and a stopped reactor, in the state after it. */
  lemma AbortPass(s: Session, batches: seq<seq<Event>>, k: nat, next: seq<Event>)
    requires k < |batches|
    requires LoopRan(s, batches, k + 1)
    requires AbortRequested in batches[k]
    ensures After(s, batches, k + 1).failure == RunAborted
    ensures !Continues(After(s, batches, k + 1), next)
  {
    RanUnderLast(Pass, s, batches, k);
    AbortEndsLoop(After(s, batches, k), batches[k], next);
  }

  /** A loop whose condition fails after `k + 1` steps makes no step after that. */
  lemma {:induction false} NoStepAfterStop(step: (Session, seq<Event>) -> Session, s: Session,
                                          batches: seq<seq<Event>>, passes: nat, k: nat)
    requires passes <= |batches|
    requires RanUnder(step, s, batches, passes)
    requires k < passes
    requires k + 1 < |batches| ==> RanUnder(step, s, batches, k + 1) ==> !RanUnder(step, s, batches, k + 2)
    ensures passes == k + 1
  {
    if passes > k + 1 {
      RanUnderPrefix(step, s, batches, passes, k + 2);
    }
  }

  /** The loop condition fails right after a pass whose batch requests `abort`. */
  lemma AbortStopsNextPass(s: Session, batches: seq<seq<Event>>, k: nat)
    requires k + 1 < |batches|
    requires AbortRequested in batches[k]
    ensures LoopRan(s, batches, k + 1) ==> !LoopRan(s, batches, k + 2)
  {
    if LoopRan(s, batches, k + 1) {
      AbortPass(s, batches, k, batches[k + 1]);
    }
  }

  /** In `run`, no pass follows one whose batch requests `abort`. */
  lemma NoPassAfterAbort(s: Session, batches: seq<seq<Event>>, passes: nat, k: nat)
    requires passes <= |batches|
    requires LoopRan(s, batches, passes)
    requires k < passes
    requires AbortRequested in batches[k]
    ensures passes == k + 1
  {
    if k + 1 < |batches| {
      AbortStopsNextPass(s, batches, k);
    }
    NoStepAfterStop(Pass, s, batches, passes, k);
  }

  /**
    In `run`, a pass whose batch requests `abort` is the last one, and the
    failure `run` returns is `RUN_ABORTED`.
   */
  lemma RunAbortReturnsAborted(s: Session, batches: seq<seq<Event>>, passes: nat, k: nat)
    requires passes <= |batches|
    requires LoopRan(s, batches, passes)
    requires k < passes
    requires AbortRequested in batches[k]
    ensures passes == k + 1
    ensures After(s, batches, passes).failure == RunAborted
  {
    NoPassAfterAbort(s, batches, passes, k);
    AbortPass(s, batches, k, []);
  }
}
