/**
  The deadline registry of `Timer::expires_from_now`.

  Pending registrations live in a multimap keyed by absolute expiration time,
  modelled as a sequence of entries in non-decreasing deadline order. A single
  wake-up is armed with the reactor; `armed` records the deadline most recently
  handed to `schedule_next_tick`. `scheduled` and `permanent` are the reactor's
  counts of scheduled and permanent completion handlers, which the drain step
  manipulates. Times are abstract integers (the steady clock's ticks).
 */
module Timers {
  import opened Wrappers

  /** One registration: its absolute expiration time and the callback it fires. */
  datatype Entry = Entry(deadline: int, callback: nat)

  datatype Timer = Timer(pending: seq<Entry>, armed: Option<int>, scheduled: nat, permanent: nat)

  /**
    One call of `expires_from_now`: the clock reading, the relative timeout, the
    callback, and the reactor's count of scheduled completion handlers right
    after `schedule_next_tick` when the call re-arms (that function is only
    declared, so its effect on the count is an input).
   */
  datatype Request = Request(now: int, timeout: int, callback: nat, ticked: nat)

  /** A timer with nothing pending and no wake-up armed. */
  const Empty := Timer([], None, 0, 0)

  /** The multimap's key order. */
  predicate Sorted(s: seq<Entry>) {
    forall i, j :: 0 <= i < j < |s| ==> s[i].deadline <= s[j].deadline
  }

  /** `x` is the earliest deadline among the pending entries. */
  ghost predicate IsEarliest(x: int, s: seq<Entry>) {
    (exists i :: 0 <= i < |s| && s[i].deadline == x) &&
    (forall i :: 0 <= i < |s| ==> x <= s[i].deadline)
  }

  /** The timer invariant: sorted entries, and a wake-up armed exactly at the earliest deadline. */
  ghost predicate Valid(t: Timer) {
    && Sorted(t.pending)
    && (t.armed.None? <==> |t.pending| == 0)
    && (t.armed.Some? ==> IsEarliest(t.armed.value, t.pending))
  }

  /** Entries with equal deadlines appear in increasing callback order (registration order). */
  predicate TiesInOrder(s: seq<Entry>) {
    forall i, j :: 0 <= i < j < |s| && s[i].deadline == s[j].deadline ==> s[i].callback < s[j].callback
  }

  /**
    The multimap's upper bound for `d`: the position of the first entry whose
    deadline is later than `d` (or the end). A new entry with key `d` goes there.
   */
  function UpperBound(s: seq<Entry>, d: int): (k: nat)
    ensures k <= |s|
    ensures forall i :: 0 <= i < k ==> s[i].deadline <= d
    ensures k < |s| ==> d < s[k].deadline
  {
    if |s| == 0 || d < s[0].deadline then 0 else 1 + UpperBound(s[1..], d)
  }

  /** On a sorted sequence every entry from the upper bound on is later than `d`. */
  lemma UpperBoundSplits(s: seq<Entry>, d: int)
    requires Sorted(s)
    ensures forall i :: UpperBound(s, d) <= i < |s| ==> d < s[i].deadline
  {
  }

  /**
    `timeouts_.emplace`: inserts `e` after every leading entry whose key is not
    greater, so equal keys keep their insertion order. Exactly one entry is
    added and none is lost or changed.
   */
  function Insert(s: seq<Entry>, e: Entry): (r: seq<Entry>)
    ensures |r| == |s| + 1
    ensures multiset(r) == multiset(s) + multiset{e}
  {
    if |s| == 0 || e.deadline < s[0].deadline then
      [e] + s
    else
      assert s == [s[0]] + s[1..];
      [s[0]] + Insert(s[1..], e)
  }

  /**
    Where the `i`-th entry of `Insert(s, e)` comes from: old entries before the
    upper bound keep their position, `e` sits at the upper bound, and the later
    old entries move up by one, in their original order.
   */
  lemma {:induction false} InsertAt(s: seq<Entry>, e: Entry, i: nat)
    requires i <= |s|
    ensures var k := UpperBound(s, e.deadline);
      Insert(s, e)[i] == if i < k then s[i] else if i == k then e else s[i - 1]
    decreases |s|
  {
    if |s| == 0 || e.deadline < s[0].deadline {
    } else if i > 0 {
      InsertAt(s[1..], e, i - 1);
    }
  }

  /** Insertion keeps the multimap's key order. */
  lemma InsertKeepsSorted(s: seq<Entry>, e: Entry)
    requires Sorted(s)
    ensures Sorted(Insert(s, e))
  {
    UpperBoundSplits(s, e.deadline);
    var r := Insert(s, e);
    forall i, j | 0 <= i < j < |r|
      ensures r[i].deadline <= r[j].deadline
    {
      InsertAt(s, e, i);
      InsertAt(s, e, j);
    }
  }

  /**
    The re-arm test of `expires_from_now`: nothing is pending, or the new
    deadline precedes the first key. On a sorted map this means the new
    deadline is strictly earlier than every pending one.
   */
  function ShouldRearm(s: seq<Entry>, d: int): (b: bool)
    requires Sorted(s)
    ensures b <==> forall i :: 0 <= i < |s| ==> d < s[i].deadline
  {
    |s| == 0 || d < s[0].deadline
  }

  /**
    `expires_from_now(timeout, callback)` at clock reading `now`. When the new
    deadline must be armed and a completion handler is already scheduled, the
    drain step is installed as one more permanent handler; `schedule_next_tick`
    then leaves `ticked` scheduled handlers.
   */
  function ExpiresFromNow(t: Timer, now: int, timeout: int, callback: nat, ticked: nat): (r: Timer)
    requires Sorted(t.pending)
    ensures r.pending == Insert(t.pending, Entry(now + timeout, callback))
    ensures |r.pending| == |t.pending| + 1
    ensures multiset(r.pending) == multiset(t.pending) + multiset{Entry(now + timeout, callback)}
    ensures ShouldRearm(t.pending, now + timeout) ==> r.armed == Some(now + timeout)
    ensures !ShouldRearm(t.pending, now + timeout) ==> r.armed == t.armed
    ensures r.permanent ==
      if ShouldRearm(t.pending, now + timeout) && t.scheduled > 0 then t.permanent + 1 else t.permanent
    ensures r.scheduled == if ShouldRearm(t.pending, now + timeout) then ticked else t.scheduled
  {
    var expiration := now + timeout;
    var rearm := ShouldRearm(t.pending, expiration);
    var drain := rearm && t.scheduled != 0;
    Timer(Insert(t.pending, Entry(expiration, callback)),
          if rearm then Some(expiration) else t.armed,
          if rearm then ticked else t.scheduled,
          if drain then t.permanent + 1 else t.permanent)
  }

  /**
    The drain step: removes all but one of the `count` scheduled completion
    handlers (`count - 1` of them, when any are scheduled), so one is left if
    any were scheduled, and removes one permanent handler, itself.
   */
  function Drain(t: Timer): (r: Timer)
    requires t.permanent >= 1
    ensures r.scheduled <= 1
    ensures r.scheduled == 1 <==> t.scheduled > 0
    ensures r.permanent + 1 == t.permanent
    ensures r.pending == t.pending && r.armed == t.armed
  {
    t.(scheduled := if t.scheduled > 0 then 1 else 0, permanent := t.permanent - 1)
  }

  /** Applies the requests in order. */
  function RegisterAll(t: Timer, reqs: seq<Request>): (r: Timer)
    requires Sorted(t.pending)
    ensures Sorted(r.pending)
    decreases |reqs|
  {
    if |reqs| == 0 then t
    else
      InsertKeepsSorted(t.pending, Entry(reqs[0].now + reqs[0].timeout, reqs[0].callback));
      RegisterAll(ExpiresFromNow(t, reqs[0].now, reqs[0].timeout, reqs[0].callback, reqs[0].ticked), reqs[1..])
  }

  /** Insertion splits the old entries at the upper bound and puts `e` between the two parts. */
  lemma InsertSplits(s: seq<Entry>, e: Entry)
    ensures var k := UpperBound(s, e.deadline);
      Insert(s, e) == s[..k] + [e] + s[k..]
  {
    var k := UpperBound(s, e.deadline);
    var r := s[..k] + [e] + s[k..];
    forall i | 0 <= i < |r|
      ensures Insert(s, e)[i] == r[i]
    {
      InsertAt(s, e, i);
    }
  }

  /** An entry earlier than all pending ones becomes the earliest. */
  lemma EarlierBecomesEarliest(s: seq<Entry>, e: Entry)
    requires Sorted(s)
    requires ShouldRearm(s, e.deadline)
    ensures IsEarliest(e.deadline, Insert(s, e))
  {
    var r := Insert(s, e);
    InsertAt(s, e, 0);
    forall i | 0 <= i < |r|
      ensures e.deadline <= r[i].deadline
    {
      InsertAt(s, e, i);
    }
  }

  /** An entry not earlier than the earliest one leaves the earliest deadline unchanged. */
  lemma LaterKeepsEarliest(s: seq<Entry>, e: Entry, x: int)
    requires Sorted(s)
    requires IsEarliest(x, s)
    requires x <= e.deadline
    ensures IsEarliest(x, Insert(s, e))
  {
    UpperBoundSplits(s, e.deadline);
    var r := Insert(s, e);
    var w :| 0 <= w < |s| && s[w].deadline == x;
    InsertAt(s, e, w);
    forall i | 0 <= i < |r|
      ensures x <= r[i].deadline
    {
      InsertAt(s, e, i);
    }
  }

  /** `expires_from_now` keeps the sorted order and the armed wake-up at the earliest deadline. */
  lemma ExpiresFromNowPreservesValid(t: Timer, now: int, timeout: int, callback: nat, ticked: nat)
    requires Valid(t)
    ensures Valid(ExpiresFromNow(t, now, timeout, callback, ticked))
  {
    var e := Entry(now + timeout, callback);
    InsertKeepsSorted(t.pending, e);
    if ShouldRearm(t.pending, e.deadline) {
      EarlierBecomesEarliest(t.pending, e);
    } else {
      LaterKeepsEarliest(t.pending, e, t.armed.value);
    }
  }

  /**
    Starting from an empty, unarmed timer, after any sequence of registrations
    the armed wake-up is the earliest pending deadline.
   */
  lemma {:induction false} ArmedIsEarliest(t: Timer, reqs: seq<Request>)
    requires Valid(t)
    ensures Valid(RegisterAll(t, reqs))
    ensures |RegisterAll(t, reqs).pending| == |t.pending| + |reqs|
    decreases |reqs|
  {
    if |reqs| > 0 {
      var q := reqs[0];
      ExpiresFromNowPreservesValid(t, q.now, q.timeout, q.callback, q.ticked);
      ArmedIsEarliest(ExpiresFromNow(t, q.now, q.timeout, q.callback, q.ticked), reqs[1..]);
    }
  }

  /** From a fresh timer, the armed wake-up is always the earliest of the registered deadlines. */
  lemma FromEmptyArmedIsEarliest(reqs: seq<Request>)
    ensures Valid(RegisterAll(Empty, reqs))
    ensures |RegisterAll(Empty, reqs).pending| == |reqs|
  {
    ArmedIsEarliest(Empty, reqs);
  }

  /** A new entry registered after all others lands after every entry with the same deadline. */
  lemma InsertKeepsTies(s: seq<Entry>, e: Entry)
    requires Sorted(s)
    requires TiesInOrder(s)
    requires forall i :: 0 <= i < |s| ==> s[i].callback < e.callback
    ensures TiesInOrder(Insert(s, e))
  {
    UpperBoundSplits(s, e.deadline);
    var r := Insert(s, e);
    forall i, j | 0 <= i < j < |r| && r[i].deadline == r[j].deadline
      ensures r[i].callback < r[j].callback
    {
      InsertAt(s, e, i);
      InsertAt(s, e, j);
    }
  }

  /** Insertion brings in no callback other than the new one. */
  lemma InsertCallbacksBelow(s: seq<Entry>, e: Entry, bound: nat)
    requires forall i :: 0 <= i < |s| ==> s[i].callback < bound
    requires e.callback < bound
    ensures forall i :: 0 <= i < |Insert(s, e)| ==> Insert(s, e)[i].callback < bound
  {
    forall i | 0 <= i < |Insert(s, e)|
      ensures Insert(s, e)[i].callback < bound
    {
      InsertAt(s, e, i);
    }
  }

  /**
    Registrations with equal deadlines stay in registration order: when the
    i-th request carries callback `base + i`, ties end up ordered by callback.
   */
  lemma {:induction false} TiesKeepRegistrationOrder(t: Timer, reqs: seq<Request>, base: nat)
    requires Sorted(t.pending)
    requires TiesInOrder(t.pending)
    requires forall i :: 0 <= i < |t.pending| ==> t.pending[i].callback < base
    requires forall i :: 0 <= i < |reqs| ==> reqs[i].callback == base + i
    ensures TiesInOrder(RegisterAll(t, reqs).pending)
    decreases |reqs|
  {
    if |reqs| > 0 {
      var q := reqs[0];
      var e := Entry(q.now + q.timeout, q.callback);
      var t' := ExpiresFromNow(t, q.now, q.timeout, q.callback, q.ticked);
      InsertKeepsSorted(t.pending, e);
      InsertKeepsTies(t.pending, e);
      InsertCallbacksBelow(t.pending, e, base + 1);
      TiesKeepRegistrationOrder(t', reqs[1..], base + 1);
    }
  }

  /** The drain step removes itself: installing it and running it leaves the permanent count unchanged. */
  lemma DrainUndoesInstall(t: Timer, now: int, timeout: int, callback: nat, ticked: nat)
    requires Sorted(t.pending)
    requires ShouldRearm(t.pending, now + timeout) && t.scheduled > 0
    ensures var r := Drain(ExpiresFromNow(t, now, timeout, callback, ticked));
      r.permanent == t.permanent && r.scheduled == (if ticked > 0 then 1 else 0)
  {
  }

  /**
    The drain step is reachable from a fresh timer: once a first registration
    has scheduled a wake-up, a second one with an earlier deadline re-arms
    while that wake-up is scheduled and installs the drain step.
   */
  lemma EarlierSecondRegistrationInstallsDrain(a: Request, b: Request)
    requires a.ticked > 0
    requires b.now + b.timeout < a.now + a.timeout
    ensures RegisterAll(Empty, [a, b]).permanent == 1
    ensures RegisterAll(Empty, [a, b]).armed == Some(b.now + b.timeout)
  {
    var t1 := ExpiresFromNow(Empty, a.now, a.timeout, a.callback, a.ticked);
    assert t1.pending == [Entry(a.now + a.timeout, a.callback)];
    assert t1.scheduled == a.ticked && t1.permanent == 0;
    var t2 := ExpiresFromNow(t1, b.now, b.timeout, b.callback, b.ticked);
    assert ShouldRearm(t1.pending, b.now + b.timeout);
    assert [a, b][1..] == [b];
    assert RegisterAll(Empty, [a, b]) == RegisterAll(t1, [b]);
    assert [b][1..] == [];
    assert RegisterAll(t1, [b]) == RegisterAll(t2, []) == t2;
  }
}
