# Kademlia session core: a Dafny model

This project models three sequential pieces of a Kademlia DHT node written in
C++. Dafny proves properties of each model.

- **The timer's deadline registry** (`Timer::expires_from_now`). Pending
  timeouts live in a multimap keyed by absolute expiration time. One wake-up
  is armed with the reactor. The wake-up is re-armed only when the new deadline
  is strictly earlier than every pending one, or when nothing is pending. When
  it re-arms while a completion handler is already scheduled, a "drain"
  handler is installed; that handler trims the scheduled handlers to one and
  then removes itself.
- **The session's message loop.** This covers routing of inbound datagrams by
  header type, the task list (append, and a sweep of finished tasks once per
  loop pass), the `run`/`abort` failure flag, the receive-completion handler,
  the choice of the local IPv4 and IPv6 endpoints, and the initial find-node
  request.
- **The value-or-error type `r<T>`**, as its unit tests describe it.

Modules, one per concept:

- `Wrappers`: `Option`.
- `Errors`: the error codes that appear.
- `Results`: `r<T>`.
- `Timers`: `Timer.h`.
- `Subnets`: endpoints and subnet creation.
- `Messages`: header routing and the initial request.
- `Tasks`: the task list.
- `Sessions`: construction, `run`, `abort` and receive completions.

Collaborators the source only calls become inputs:

- Header deserialization becomes an `Option<Decoded>`.
- Name resolution becomes an error or the list of resolved endpoints, and socket creation becomes the error (if any) that binding each endpoint reports.
- The reactor becomes a sequence of batches of completion events; one batch is
  one `run_one` followed by `poll`.
- The clock reading becomes an integer `now`.

Request handlers are recorded as calls and not executed, because their
bodies are empty.

The model follows the code wherever the code and what the program's own
text expects of it differ. In particular:

- `save` and `load` only throw UNIMPLEMENTED (src/session.cpp:93 and 102),
  although the engine test test/unit_tests/EngineTest.cpp:139-168 expects a
  value saved by one node to be loaded by another. They are not modelled as
  starting store or find-value tasks.
- Sending the initial request to a peer of the other address family is not
  refused, although the comment at src/session.cpp:287-289 says it should
  be. This is recorded under Findings.

## Model

| member | source | states |
|---|---|---|
| `Timers.UpperBound` | src/kademlia/Timer.h:78 | the position where multimap emplace puts a key: every earlier entry's key is not greater, and the entry there (if any) is strictly later |
| `Timers.Insert` | src/kademlia/Timer.h:78 | emplace adds exactly one entry, the new one, and loses or changes none (length and multiset) |
| `Timers.InsertAt` | src/kademlia/Timer.h:78 | each entry after emplace is either an old entry in its old place (before the upper bound), the new entry (at the upper bound), or an old entry shifted by one (after it) |
| `Timers.InsertSplits` | src/kademlia/Timer.h:78 | emplace is exactly "old prefix, new entry, old suffix", split at the upper bound; no pending entry is changed, removed or reordered |
| `Timers.InsertKeepsSorted` | src/kademlia/Timer.h:84 | the pending entries stay in non-decreasing expiration order |
| `Timers.ShouldRearm` | src/kademlia/Timer.h:68 | the re-arm test (empty map, or earlier than the first key) holds iff the new deadline is strictly earlier than every pending deadline; an equal deadline does not re-arm |
| `Timers.ExpiresFromNow` | src/kademlia/Timer.h:50-79 | the new entry is keyed by `now + timeout` and the pending multiset grows by exactly that entry; the armed deadline becomes `now + timeout` iff re-arming, else stays; one drain handler is installed iff re-arming while a completion handler is scheduled (counted before `schedule_next_tick`); the scheduled-handler count is the one `schedule_next_tick` leaves when re-arming and is unchanged otherwise |
| `Timers.Drain` | src/kademlia/Timer.h:58-64 | the drain step leaves one scheduled handler if any were scheduled and none otherwise, removes exactly one permanent handler, and leaves the deadlines untouched |
| `Timers.DrainUndoesInstall` | src/kademlia/Timer.h:58-75 | installing the drain handler and then running it leaves the permanent-handler count as it was, and at most one scheduled handler: one if `schedule_next_tick` left any |
| `Timers.ExpiresFromNowPreservesValid` | src/kademlia/Timer.h:66-78 | sorted order, and "armed iff something is pending, and then armed at the earliest deadline", are kept by every registration |
| `Timers.ArmedIsEarliest` | src/kademlia/Timer.h:68-78 | after any sequence of registrations from a valid timer, the armed deadline is the earliest pending one, and one entry exists per registration |
| `Timers.FromEmptyArmedIsEarliest` | src/kademlia/Timer.h:68-78 | starting from an empty, unarmed timer, the armed deadline always equals the earliest pending deadline |
| `Timers.InsertKeepsTies` | src/kademlia/Timer.h:78 | an entry registered after all pending ones goes after every pending entry with the same deadline |
| `Timers.TiesKeepRegistrationOrder` | src/kademlia/Timer.h:78-84 | across any sequence of registrations, entries with equal deadlines keep their registration order |
| `Timers.EarlierSecondRegistrationInstallsDrain` | src/kademlia/Timer.h:66-78 | from a fresh timer, a registration whose wake-up leaves a scheduled handler, followed by one with an earlier deadline, arms the earlier deadline and installs the drain handler |
| `Messages.HandleNewMessage` | src/session.cpp:336-366 | a header that fails to decode makes no call; a decoded header makes exactly one call, which receives that header; PING, STORE, FIND_NODE and FIND_VALUE requests go to their own handlers, together with the subnet and the sender the datagram came from; every other type goes to the response dispatcher |
| `Messages.DispatchedExactlyOnce` | src/session.cpp:363-376 | the response dispatcher is called once for a decoded non-request header and never otherwise |
| `Messages.GenerateInitialRequest` | src/session.cpp:311-331 | the initial message is a version-1 FIND_NODE request from this node, with the given request id, looking up this node's own id |
| `Messages.InitialRequestReachesFindNode` | src/session.cpp:317-323 | a receiver that decodes the initial request hands it to its find-node handler with the same request id |
| `Messages.SendInitialRequestAsWritten` | src/session.cpp:281-306 | as written: always success, always associated with a 1000 ms timeout, always sent, whatever the families |
| `Messages.AsWrittenSendsAcrossFamilies` | src/session.cpp:287-291 | an IPv4 peer tried on the IPv6 subnet is sent the request and reported as success |
| `Messages.SendInitialRequest` | src/session.cpp:287-291 | corrected: success iff the peer's family matches the subnet's; otherwise `address_family_not_supported`, with nothing sent or associated |
| `Messages.SendAgreesOnMatchingFamily` | src/session.cpp:293-305 | when the families match, the corrected send behaves exactly as written |
| `Subnets.CreateSubnet` | src/session.cpp:164-170 | a resolution failure is passed on; otherwise the first resolved endpoint of the wanted family is bound, a failure to bind it is passed on, and with no endpoint of the family construction fails with that family's invalid-address error; it succeeds iff resolution succeeds, an endpoint of the family exists and binding the first one succeeds |
| `Subnets.CreateIpv4Subnet` | src/session.cpp:159-171 | binds the first resolved IPv4 endpoint; fails with the resolver's error, with INVALID_IPV4_ADDRESS when no IPv4 endpoint was resolved, or with the bind error |
| `Subnets.CreateIpv6Subnet` | src/session.cpp:176-188 | binds the first resolved IPv6 endpoint; fails with the resolver's error, with INVALID_IPV6_ADDRESS when no IPv6 endpoint was resolved, or with the bind error |
| `Sessions.NewSession` | src/session.cpp:68-83 | construction succeeds iff both subnets can be created; the IPv4 subnet is created before the IPv6 one, so any IPv4 failure (resolution, no IPv4 endpoint, bind) is the one reported, and an IPv6 failure is reported only once IPv4 succeeded; a new session has no tasks, no failure and no receive outstanding |
| `Sessions.ScheduleReceive` | src/session.cpp:256-275 | scheduling a receive puts the subnet among those receiving and changes nothing else |
| `Sessions.OnNewMessage` | src/session.cpp:260-272 | a failed completion records its error as the session failure and does not re-arm the receive; a successful one routes the message, re-arms the receive and keeps the failure; the node id, both subnets and the tasks are never changed |
| `Sessions.UndecodableDatagramDropped` | src/session.cpp:344-347 | a datagram whose header does not decode changes nothing: no handler, no dispatcher, no failure |
| `Sessions.Abort` | src/session.cpp:126-133 | abort stops the reactor and sets the failure to RUN_ABORTED; everything else, including the node id and both subnets, is left untouched |
| `Sessions.Poll` | src/session.cpp:116 | running ready handlers does nothing once the reactor is stopped or when none is ready; it never changes the node id or the subnets, and routing only appends handler calls |
| `Sessions.Pass` | src/session.cpp:114-118 | a loop pass is the batch of handlers followed by the sweep: only the task list differs from the state after the handlers, no finished task remains, and the unfinished tasks are exactly those the sweep keeps, each with its number of occurrences and in their original order |
| `Sessions.Init` | src/session.cpp:111-154 | before the loop the failure is cleared, the reactor reset and a receive scheduled on both subnets; the node id, both subnets, tasks and routing are left as they were |
| `Sessions.Run` | src/session.cpp:107-121 | the loop starts from a cleared failure; it makes a pass only while no failure is set and `run_one` runs a handler; it stops at the first pass whose condition fails; it returns the failure flag of the final state; after at least one pass, no finished task remains in it |
| `Sessions.RunClearsFailureFirst` | src/session.cpp:111 | a failure recorded before `run` has no influence on it |
| `Sessions.PollKeepsFailure` | src/session.cpp:260-272 | once a failure is recorded no later handler of the batch clears it |
| `Sessions.PassKeepsFailure` | src/session.cpp:114-118 | a failure recorded before a pass is still recorded after it, so the loop condition then fails |
| `Sessions.PollAbort` | src/session.cpp:126-133 | in a batch that requests abort, the reactor ends stopped with RUN_ABORTED, whatever ran before the request |
| `Sessions.PollConcat` | src/session.cpp:116 | running two runs of handlers back to back equals running their concatenation |
| `Sessions.AbortEndsLoop` | src/session.cpp:114-133 | after a pass whose batch requests abort, the failure is RUN_ABORTED and the loop condition fails before any next batch |
| `Sessions.AbortPass` | src/session.cpp:114-133 | within a run, the state after the pass whose batch requests abort holds RUN_ABORTED and does not satisfy the loop condition |
| `Sessions.NoPassAfterAbort` | src/session.cpp:114-133 | within a run, the pass whose batch requests abort is the last pass made |
| `Sessions.RunAbortReturnsAborted` | src/session.cpp:107-133 | when a pass of `run` requests abort, `run` makes no further pass and the failure it returns is RUN_ABORTED |
| `Sessions.ReceiveFailureEndsLoop` | src/session.cpp:265-266 | a failed receive completion delivered during a pass leaves a failure recorded after that pass, whatever the rest of the batch does, so the loop condition fails |
| `Tasks.CreateNewTask` | src/session.cpp:449-456 | the new task is appended at the end; existing tasks are unchanged |
| `Tasks.DestroyFinishedTasks` | src/session.cpp:461-469 | no finished task remains, and each unfinished task keeps exactly its number of occurrences |
| `Tasks.DestroyDistributes` | src/session.cpp:468 | the sweep works element by element across a concatenation, so unfinished tasks keep their relative order |
| `Tasks.DestroyIdempotent` | src/session.cpp:461-469 | sweeping a swept list changes nothing |
| `Tasks.DestroyKeepsUnfinished` | src/session.cpp:465-468 | a list with no finished task is left exactly as it was |
| `Tasks.CreateThenDestroy` | src/session.cpp:451-468 | after appending a task and sweeping, the old tasks are swept as before and the new one is kept iff it is unfinished |
| `Results.FromValue` | test/unit_tests/test_r.cpp:82-109 | built from a value: truthy, `v()` returns that value, `e()` is the default no-error code |
| `Results.Emplace` | test/unit_tests/test_r.cpp:111-118 | built from component arguments: truthy, and the value has exactly those fields |
| `Results.FromError` | test/unit_tests/test_r.cpp:120-131 | built from an error: falsy, `v()` throws, `e()` returns that error |
| `Results.Copy` | test/unit_tests/test_r.cpp:133-166 | a copy has the same truthiness, value access and error |
| `Results.Move` | test/unit_tests/test_r.cpp:168-186 | for results holding the tests' record (whose move constructor, lines 46-51, copies both fields and leaves the source's fields alone), the moved-to result holds the original value or error with the same variant, the moved-from result is left as it was, and the two compare equal |
| `Results.AssignValue` | test/unit_tests/test_r.cpp:194-209 | assigning a value gives a truthy result holding that value, whatever was held before |
| `Results.AssignError` | test/unit_tests/test_r.cpp:210-237 | assigning an error gives a falsy result holding that error, whether it held a value or another error |
| `Results.R.V` | test/unit_tests/test_r.cpp:89-130 | `v()` returns exactly when the result is truthy, and then returns the held value |
| `Results.R.E` | test/unit_tests/test_r.cpp:89-130 | `e()` is the held error of a falsy result and the default code of a truthy one; a set error code means the result is falsy |
| `Results.ObserversAgree` | test/unit_tests/test_r.cpp:89-130 | the conversion to `bool` agrees with the other observers: truthy iff `v()` returns, and a truthy result reports no error |
| `Results.ObserversDetermine` | test/unit_tests/test_r.cpp:135-165 | two results with the same truthiness, value access and error are equal, so comparing the observers as the copy tests do is complete |
| `Results.CopyIsIdentity` | test/unit_tests/test_r.cpp:133-166 | a copy is indistinguishable from its original |
| `Results.AssignmentForgetsPrevious` | test/unit_tests/test_r.cpp:192-237 | after assignment the result equals a fresh construction from the assigned value or error |
| `Results.CanBeConstructedFromAValue` | test/unit_tests/test_r.cpp:82-109 | the assertions of this test case with the value 42 |
| `Results.CanBeConstructedEmplace` | test/unit_tests/test_r.cpp:111-118 | the assertions of this test case with fields 42 and 69 |
| `Results.CanBeConstructedFromAnError` | test/unit_tests/test_r.cpp:120-131 | the assertions of this test case with `address_in_use` |
| `Results.CanBeCopyConstructed` | test/unit_tests/test_r.cpp:133-166 | the assertions of this test case, for both value and error |
| `Results.CanBeMoveConstructed` | test/unit_tests/test_r.cpp:168-186 | the assertions of this test case except the `moved_` flag |
| `Results.CanBeAssigned` | test/unit_tests/test_r.cpp:192-238 | the assertions of this test case: value over value, error over value, error over error |

## Left out

- Timer firing: `schedule_next_tick` and `getTimeout` are only declared (src/kademlia/Timer.h:86-87). The model records the deadline passed to `schedule_next_tick` as `armed`, and the scheduled-handler count it leaves is an input of each registration (`ticked`). It does not model how the counts change when a wake-up fires, or how callbacks are invoked.
- Timers.ExpiresFromNow: time is an unbounded integer. A steady-clock time point overflowing on `now + timeout` is not modelled.
- Timers.Drain: requires at least one permanent handler. The drain step only runs as a registered permanent handler, and the reactor's behaviour when asked to remove a handler that does not exist is not visible.
- Routing table, response dispatcher, message (de)serialization, `resolve_endpoint` and `create_socket`: their code is not part of this model. Their outcomes are inputs: resolution yields an error or the endpoint list, and `bind` gives what creating a socket on an endpoint reports. A subnet is identified by its bound endpoint.
- The request handler bodies (src/session.cpp:382-431) are empty; only the calls to them are modelled.
- `contact_initial_peer` is compiled out (src/session.cpp:197-239), so it is not modelled.
- `async_save` and `async_load` only throw UNIMPLEMENTED (src/session.cpp:88-102); they have no state to model.
- Random generation of the node id and of request ids: both are inputs.
- Reactor mechanics beyond the loop: `run_one`/`poll` are modelled as batches of events, and `stop` as a flag that makes `poll` and `run_one` run nothing more. `abort` called from another thread is an event like any other; threads are not modelled.
- A task's own protocol (`task_base`) is not shown. A task's completion is an event that sets its `finished` flag.
- Sessions.Init: outstanding receives are a set of subnets. A second `run` on the same session schedules a second receive per subnet, and that second receive is not counted.
- Sessions.Apply: a receive completion for a subnet with no outstanding receive cannot be delivered by the reactor, so it is ignored.
- The `moved_` flag of the test type: equality of the test type ignores it, and it is not modelled.
- The completion callback of `async_send` in `send_initial_request` is empty, and the send itself is I/O. The model records the datagram handed to the subnet.

## Findings

| source | as written | input that shows it | evidently intended | confidence | as-written member | corrected member |
|---|---|---|---|---|---|---|
| src/session.cpp:290-291 | on an address-family mismatch the code builds `address_family_not_supported` and discards it; the request is then associated, sent and reported as success | an IPv4 peer endpoint tried on the IPv6 subnet | return that error before associating or sending (the compiled-out caller at src/session.cpp:224-225 skips a subnet on a non-zero result) | high; not executed | `Messages.AsWrittenSendsAcrossFamilies` | `Messages.SendInitialRequest` |
