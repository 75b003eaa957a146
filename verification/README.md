# Lrlb verification model

A Dafny model of the stateful parts of Lrlb, a load balancing and remote service scheduling
system written in C++, with machine-checked proofs about them:

- **The agent's load balancer** (`HostInfo.dfy`, `Hysteresis.dfy`, `LoadBalance.dfy`,
  `Fairness.dfy`, `LoadBalanceObjects.dfy`, `RouteLb.dfy`, `RouteLbObjects.dfy`, `ReportRuns.dfy`,
  `RequestRuns.dfy`, `Keys.dfy`, `UpdateKeys.dfy`).
  Each modid/cmdid key has a host table and an idle and an overload queue; hosts move between the
  queues on error rates, runs of calls and time windows; the table is reconciled with answers of
  the DNS service, which are pulled again when they are out of date.
- **The reactor's buffers and framing** (`Framing.dfy`, `Buffers.dfy`, `ReactorBuf.dfy`,
  `EventLoop.dfy`, `TcpConn.dfy`, `TcpServer.dfy`, `TcpClient.dfy`, `EndToEnd.dfy`). Length-prefixed messages are cut
  out of byte streams, byte queues grow over buffers borrowed from a pool with linked free lists, and
  output events are armed while bytes wait.
- **The DNS service** (`Subscribe.dfy`, `PubSub.dfy`, `DnsRoute.dfy`, `RouteSnapshots.dfy`,
  `ChangeLog.dfy`, `Notices.dfy`). Clients subscribe to modules, changes are pushed to them by their event loops, and
  a double-buffered route table is reloaded while it is read.
- **The hand-off between threads** (`ThreadQueue.dfy`).

Code that updates objects in place is modelled by classes whose methods are proved against functions
on values; what the source promises is proved about those functions, over all inputs and all runs.
Concurrency is modelled by interleaved steps, one per critical section. `dafny verify dfyconfig.toml`
checks the whole project.

## Reading guide

The main results, by part:

- In every run of requests, reports, updates and resets, every balancer's queues split its hosts by
  their flag and every host respects the limits of its queue (`RouteLb.EveryRunIsSafe`, of the objects by
  `RouteLbObjects.RouteLbObject.Run`); a balancer asked
  for a host has one to take whenever it has hosts at all.
- The number of failures (or successes) that moves a host is known exactly: `Hysteresis.TooFewToMove`,
  `Hysteresis.ConsecutiveMoves` and `Hysteresis.MovesExactlyAt`.
- For any mix of calls, when a host moves is said of the calls alone (`Hysteresis.MovesWhenDue`), and this is
  what the reports of any run do (`ReportRuns.HostMovesWhenDue`).
- The whole schedule of picks has a closed form (`Fairness.Schedule`), from which the probe distance, one
  probe per overloaded host and the balance between idle hosts follow. The requests of a run follow it
  (`RequestRuns.AnswersFollowSchedule`), and probes keep their distance among reports and answers
  (`RequestRuns.ProbeDistance`).
- Any split of any byte stream is cut into the same messages as the unsplit stream (`Framing.AnySplit`),
  every byte string has exactly one split into frames and a rest, which the loop finds (`Framing.ParseSplits`,
  `Framing.OnlySplit`), and framed messages come back unchanged (`Framing.FramingRoundTrip`).
- What one side of a connection has delivered is a prefix of what the other side sent, also after either has
  closed; towards the client, as long as no failed send has broken the stream (`EndToEnd`).
- Every buffer is on exactly one free list or held by exactly one queue, and no operation on one queue or
  connection changes the bytes of another (`Buffers.BufPool.Valid`, `ReactorBufs.ReactorBuf.Valid`,
  `TcpConns.TcpConn.NeighbourKept`), in every run of accepts, sends, writes, reads and closes
  (`TcpServers.TcpServer.Run`).
- Bytes taken by the kernel followed by bytes waiting are the frames of the messages sent, and output is
  armed in the kernel exactly while bytes wait (`TcpConns.TcpConn.Valid`, kept by every method).
- Whoever has read an older table than a published change is told about it, exactly as long as publications
  are up to date (`Notices.EveryRunInforms`, `Notices.CurrentIsExact`).
- Every subscriber of a published module that stays online is pushed it (`PubSub.PublishedIsPushed`).
- Pushes are conserved and never asleep (`PubSub.EveryRunPushesOnce`), answers come from one complete
  load (`RouteSnapshots.EveryAnswerIsOneLoad`), and no logged change is lost while queries succeed and late rows are
  newer (`ChangeLog.NoChangeLost`).

## Where the code departs from its evident intent

- `load_balance.cpp:93` computes the key of a host with the shift applied to `32 + port`. `update` is
  therefore modelled for an arbitrary key function, and every result about balancers holds whatever it
  yields. `Keys.ShiftKeyMatchesPack` shows that, for the ports at which the shift is defined, the key
  agrees with the one `report` uses only at port 0, and `UpdateKeys.ReportsNotTaken` that in no run a report
  for a host with a positive port is then taken.
- `route_lb.cpp:24` asserts that an empty balancer is being pulled, but a reset can come before the first
  answer. `RouteLb.EarlyResetAborts` gives the run, `RouteLb.PullingExactly` the exact condition.
- When a message body finds no room, `tcp_conn.cpp:171` pops the front of the output queue instead of the
  head just appended. `TcpConns.RollbackRestores` states exactly which calls leave the queue as it was, and
  `TcpConns.FailedSendReplacesMessage` gives one that does not; `TcpConns.FailureKeepsQueue` covers the whole
  failing call.
- `reactor_buf.cpp:65` tests the wrong pointer, so growing an input buffer past four megabytes dereferences
  null. `ReadData` returns `Crashed` there.
- `event_loop.cpp:123-140` does not store the reduced mask. The record and the kernel's table are separate
  fields, and the write event is still armed exactly when it should be.
- The start-up code of the pool counts fifty buffers of four megabytes and makes twenty, `m64K` is 65526,
  and the counter divides by 1024 rounding down. `Buffers.BufPool.MemoryBound` shows that real memory
  nevertheless stays within the counter.
- Reading a module id back from its key borrows from the modid when the cmdid is negative
  (`Keys.ModRoundTrip`); likewise for hosts and ports.
- A change row that is inserted between selection and deletion with a version already read is lost, and so
  is every row up to that version when the selection fails and the deletion does not
  (`ChangeLog.PollLosesNothing`, `ChangeLog.PollLoses`).
- The client does not check lengths. `Framing.ClientTest` shows that it hands on more bytes than it has
  exactly for a negative length and for one that overflows when eight is added, `Framing.ParseSplits` which
  inputs have one, and `Framing.NegativeLengthFails` gives one. `DoRead` reports this as `Broken`.
- After a failed write the client closes its socket and goes on writing to it, which fails for ever
  (`tcp_client.cpp:178-181`). `DoWrite` reports this as `spins`; `TcpClients.SpinsIfFailed` shows that the
  loop never ends exactly then.
- When the route data cannot be loaded, `dns_route.cpp:279-291` still publishes and deletes the changes.
  `ChangeLog.PushIsCurrent` states exactly when pushes are up to date, and
  `ChangeLog.FailedLoadPushesOldData` gives a run in which they are not.
- The counter of picks is not initialised. `Fairness.OneProbePerPeriod` shows that probe_num+1 picks hold
  a probe exactly once the counter is not below zero.

## Modelling choices

- Rates are reals, counters unbounded naturals, and every reading of the clock is a parameter.
- Fields without an initialiser (`_access_cnt`, `last_update_time`, the time stamps of a new host) are
  parameters of the constructors.
- Exits of the process (`exit`, failed assertions, the memory limit) and null dereferences are outcomes:
  `aborted`, `Halted`, `SendHalted`, `Crashed`, `ReadHalted`, `ReadCrashed`, `Aborted`.
- What the kernel does with a write, and what it has to read, are inputs.
- Integers on the wire are little-endian, as on the machines the source targets.
- One class `ReactorBuf` has the operations of `reactor_buf`, `input_buf` and `output_buf`.
- Descriptors are not reused in `PubSub`, and every client lives on one loop.

## Model

| member | source | states |
|---|---|---|
| HostModel.ReportKeepsLimits | lrlb_loadbalance_agent/src/load_balance.cpp:144-265 | after any report at any time an idle host has error rate at most err_rate and fewer than contin_err_limit errors in a row, an overloaded one success rate at most succ_rate and fewer than contin_succ_limit successes in a row |
| HostModel.ReportKeepsSeeded | lrlb_loadbalance_agent/src/load_balance.cpp:151-222 | virtual counters stay the real counters plus the seed of the host's queue |
| HostModel.FreshWithinLimits | lrlb_loadbalance_agent/include/host_info.h:6-10 | a new host respects the limits of the idle queue |
| HostModel.SaneIsExact | lrlb_loadbalance_agent/include/main_server.h:8-42 | the limits hold on entering either queue and after a first call that is not checked there if and only if rates are not negative and limits positive |
| HostModel.CountsOrEnters | lrlb_loadbalance_agent/src/load_balance.cpp:225-265 | a report only counts, or the host enters a queue with cleared counters, that queue's seeds and the stamp of that moment |
| HostModel.OverloadTimesOut | lrlb_loadbalance_agent/src/load_balance.cpp:250-263 | the first report after overload_timeout brings an overloaded host back, whatever its result |
| HostModel.IdleWindowDecides | lrlb_loadbalance_agent/src/load_balance.cpp:225-249 | at the end of an idle window, unless the call itself trips a limit, the counters are cleared and the host goes to overload exactly when the window's real error rate reached window_err_rate |
| Hysteresis.Decision | lrlb_loadbalance_agent/src/load_balance.cpp:170-206 | the check on the counters fires only after the needed number of calls, and does fire when they came in a row |
| Hysteresis.TooFewToMove | lrlb_loadbalance_agent/src/load_balance.cpp:151-222 | inside the window, fewer than min(limit, floor(rate*seed/(1-rate))+1) failures (successes), in any order and mix, never move an idle (overloaded) host |
| Hysteresis.ConsecutiveMoves | lrlb_loadbalance_agent/src/load_balance.cpp:176-206 | from any state within the limits, as many failures (successes) in a row as the limit on consecutive calls leaves move the host |
| Hysteresis.MovesExactlyAt | lrlb_loadbalance_agent/src/load_balance.cpp:151-222 | a host that just entered its queue is moved by a pure run of calls exactly with the call that completes the needed number |
| Hysteresis.StaysAndCounts | lrlb_loadbalance_agent/src/load_balance.cpp:151-222 | inside the window, for any mix of calls at no beginning of which a move is due: the host stays, its real counters are the numbers of successes and failures, and its consecutive counters are the lengths of the runs at the end of the calls |
| Hysteresis.MovesWhenDue | lrlb_loadbalance_agent/src/load_balance.cpp:170-222 | a host that just entered its queue leaves it with the first call at which the calls themselves are due: the last ones, as many as the limit, are all of the kind that counts, or the share of that kind exceeds the rate |
| Hysteresis.OverloadIsBounded | lrlb_loadbalance_agent/src/load_balance.cpp:250-263 | as long as a run leaves a host overloaded, every report of the run came before its time-out |
| LoadBalance.NonEmptyServes | lrlb_loadbalance_agent/src/load_balance.cpp:27-48 | a balancer with hosts has a front in the idle or in the overload queue |
| LoadBalance.PickKeepsPartition | lrlb_loadbalance_agent/src/load_balance.cpp:13-65 | a pick keeps the queues a partition of the unchanged table and returns a known host |
| LoadBalance.ReportKeepsPartition | lrlb_loadbalance_agent/src/load_balance.cpp:144-265 | a report keeps the queues duplicate-free, disjoint and in agreement with every host's flag |
| LoadBalance.ReportKeepsInv | lrlb_loadbalance_agent/src/load_balance.cpp:144-265 | a report keeps partition, limits and seeds of all hosts, and the key set |
| LoadBalance.ReportCounts | lrlb_loadbalance_agent/src/load_balance.cpp:151-166 | a report inside the window that does not move the host counts one success or one failure, as it says, and ends the run of the other kind |
| LoadBalance.MovedHostGoesLast | lrlb_loadbalance_agent/src/load_balance.cpp:186-219 | a host that changes state goes to the end of its new queue; no other host changes or moves |
| LoadBalance.UpdateKeepsInv | lrlb_loadbalance_agent/src/load_balance.cpp:81-142 | an update keeps partition, limits and seeds |
| LoadBalance.Reconciliation | lrlb_loadbalance_agent/src/load_balance.cpp:81-142 | after an update the table has exactly the keys of the response; survivors keep their record, their queue and their order in it; new hosts are fresh, idle, behind all surviving idle hosts, and among themselves in the order in which the response first names them |
| LoadBalance.SurvivorsKeepOrder | lrlb_loadbalance_agent/src/load_balance.cpp:119-137 | a surviving host is in the queue it was in, and one stands before another there exactly when it did before the update |
| LoadBalance.NewHostsGoLast | lrlb_loadbalance_agent/src/load_balance.cpp:88-109 | a new host is idle, behind every survivor of the idle queue, and behind exactly those new hosts whose first place in the response is earlier |
| LoadBalance.ReconciledInTwoSteps | lrlb_loadbalance_agent/src/load_balance.cpp:88-137 | adding the new hosts and then dropping the missing ones gives the reconciled table |
| LoadBalance.CommitNamesEachHostOnce | lrlb_loadbalance_agent/src/load_balance.cpp:269-309 | the report sent upstream names every host exactly once, with its own counters and flag |
| Fairness.Schedule | lrlb_loadbalance_agent/src/load_balance.cpp:13-65 | for every pick of a run without changes and any initial counter: which queue serves it, which host of that queue, or that the answer is overload |
| Fairness.IdleKeepsCounter | lrlb_loadbalance_agent/src/load_balance.cpp:44-48 | while no host is overloaded, picks do not count towards the next probe |
| Fairness.PicksOverloadedOnProbe | lrlb_loadbalance_agent/src/load_balance.cpp:27-65 | a pick returns an overloaded host exactly on a probe turn, and with no idle host every other pick is refused |
| Fairness.OneProbePerPeriod | lrlb_loadbalance_agent/src/load_balance.cpp:27-65 | wherever they start in a run, probe_num+1 picks in a row hold exactly one probe, if and only if the picks so far have made up for a counter below zero; the next probe from any pick on is named |
| Fairness.EachOverloadedProbedOnce | lrlb_loadbalance_agent/src/load_balance.cpp:13-65 | m*(probe_num+1) picks, plus those a counter below zero puts off, probe each of the m overloaded hosts exactly once |
| Fairness.IdleShare | lrlb_loadbalance_agent/src/load_balance.cpp:13-65 | how often each idle host has been returned after n picks |
| Fairness.IdleBalanced | lrlb_loadbalance_agent/src/load_balance.cpp:13-65 | after any number of picks two idle hosts differ by at most one |
| Keys.PackInjective | lrlb_loadbalance_agent/src/load_balance.cpp:145 | different pairs have different keys |
| Keys.HostRoundTrip | lrlb_dns/src/subscribe.cpp:58-65 | a host read back from its key is the host packed if and only if its port is not negative |
| Keys.ModRoundTrip | lrlb_dns/src/subscribe.cpp:49-57 | a pushed module is looked up under its own key if and only if its cmdid is not negative |
| Keys.ShiftKeyMatchesPack | lrlb_loadbalance_agent/src/load_balance.cpp:93-96 | the key as update writes it equals the key report uses if and only if the port is 0 |
| Keys.ShiftKeyLowHalf | lrlb_loadbalance_agent/src/load_balance.cpp:93 | the key as update writes it always has a zero low half, whatever the port |
| UpdateKeys.RunKeepsNoPorts | lrlb_loadbalance_agent/src/load_balance.cpp:88-109 | in every run whose updates use the key as written, at ports for which the shift is defined, every key in every table has a zero low half |
| UpdateKeys.ReportsNotTaken | lrlb_loadbalance_agent/src/load_balance.cpp:144-146 | in every such run a report for a host with a positive port changes nothing in the whole agent |
| LoadBalanceObjects.HostInfo.constructor | lrlb_loadbalance_agent/include/host_info.h:6-10 | a new record is idle with the success seed |
| LoadBalanceObjects.HostInfo.SetIdle | lrlb_loadbalance_agent/src/host_info.cpp:12-22 | the record becomes that of a host entering the idle queue |
| LoadBalanceObjects.HostInfo.SetOverload | lrlb_loadbalance_agent/src/host_info.cpp:24-34 | the record becomes that of a host entering the overload queue |
| LoadBalanceObjects.HostInfo.CheckWindow | lrlb_loadbalance_agent/src/host_info.cpp:38-48 | true when there were calls and their real error rate reached window_err_rate |
| LoadBalanceObjects.HostInfo.Count | lrlb_loadbalance_agent/src/load_balance.cpp:151-166 | real, virtual and consecutive counters after one call |
| LoadBalanceObjects.HostInfo.Called | lrlb_loadbalance_agent/src/load_balance.cpp:147-263 | the record after a report, and whether the host has to change queues |
| LoadBalanceObjects.BalancerObject.constructor | lrlb_loadbalance_agent/include/load_balance.h:23 | a new balancer is empty |
| LoadBalanceObjects.BalancerObject.ChoiceOneHost | lrlb_loadbalance_agent/src/load_balance.cpp:27-65 | the lists and counter after a pick, and the address of the chosen host or a refusal |
| LoadBalanceObjects.BalancerObject.ServeIdle | lrlb_loadbalance_agent/src/load_balance.cpp:13-24 | the front of the idle list is the answer and goes to its end |
| LoadBalanceObjects.BalancerObject.ServeOver | lrlb_loadbalance_agent/src/load_balance.cpp:32-36 | the front of the overload list is the answer and goes to its end, and the counter restarts |
| LoadBalanceObjects.BalancerObject.Report | lrlb_loadbalance_agent/src/load_balance.cpp:144-265 | the table and lists after a report; unknown hosts change nothing |
| LoadBalanceObjects.BalancerObject.Update | lrlb_loadbalance_agent/src/load_balance.cpp:81-142 | the reconciled table and lists, status NEW and the time of the update |
| LoadBalanceObjects.BalancerObject.AddNewHosts | lrlb_loadbalance_agent/src/load_balance.cpp:88-109 | every unknown host of the response is filed and appended to the idle list |
| LoadBalanceObjects.BalancerObject.AddHost | lrlb_loadbalance_agent/src/load_balance.cpp:91-106 | an unknown host is filed under its key and last in the idle list; a known one changes nothing |
| LoadBalanceObjects.BalancerObject.DropMissingHosts | lrlb_loadbalance_agent/src/load_balance.cpp:111-137 | exactly the hosts not in the response leave the table and their list |
| LoadBalanceObjects.BalancerObject.MissingFrom | lrlb_loadbalance_agent/src/load_balance.cpp:113-118 | exactly the keys of the table that the response does not name |
| LoadBalanceObjects.BalancerObject.DropHost | lrlb_loadbalance_agent/src/load_balance.cpp:122-136 | the host leaves the table and the list its flag names |
| LoadBalanceObjects.BalancerObject.Commit | lrlb_loadbalance_agent/src/load_balance.cpp:269-309 | nothing is sent for a balancer without hosts; otherwise the entries for the idle list followed by those for the overload list |
| RouteLb.EveryRunIsSafe | lrlb_loadbalance_agent/src/route_lb.cpp:11-171 | in every run of requests, updates, reports and resets all balancers keep partition, limits and seeds |
| RouteLb.OthersUntouched | lrlb_loadbalance_agent/src/route_lb.cpp:11-171 | an event for one key leaves all other entries alone; a reset changes only their status |
| RouteLb.EmptyAnswerRemoves | lrlb_loadbalance_agent/src/route_lb.cpp:70-74 | an answer without hosts removes its key and nothing else |
| ReportRuns.HostHistory | lrlb_loadbalance_agent/src/route_lb.cpp:86-106 | in any run in which no answer leaves a host out, its record is the one the calls reported for it give, whatever comes between them |
| ReportRuns.HostMovesWhenDue | lrlb_loadbalance_agent/src/route_lb.cpp:86-106 | in such a run a host changes state with the first report at which the calls reported for it are due |
| ReportRuns.CommitCountsReports | lrlb_loadbalance_agent/src/route_lb.cpp:99-101 | until then the entry sent upstream for it holds the numbers of successes and failures reported |
| ReportRuns.ReportTouchesOne | lrlb_loadbalance_agent/src/route_lb.cpp:86-106 | a report touches the host it names and no other host, key or pull |
| RequestRuns.RequestsAreThePicks | lrlb_loadbalance_agent/src/route_lb.cpp:19-38 | after any run without reports and answers for a key, its queues and counter are those of as many picks as there were requests for it |
| RequestRuns.AnswersFollowSchedule | lrlb_loadbalance_agent/src/route_lb.cpp:28-29 | and each request is answered with the pick whose turn it is in the schedule |
| RequestRuns.CounterCounts | lrlb_loadbalance_agent/src/load_balance.cpp:29-63 | among any reports, answers and resets, the counter grows by one for each request made while a host is overloaded, and not beyond probe_num |
| RequestRuns.ProbeDistance | lrlb_loadbalance_agent/src/load_balance.cpp:29-63 | from one probe on, whatever comes between the requests, the next probe is made at the first request for which a host is overloaded and exactly probe_num requests were made while one was |
| RouteLb.PullProtocol | lrlb_loadbalance_agent/src/route_lb.cpp:11-171 | over an entry's life pulls <= 1 + updates + resets, the status is PULLING exactly when the last of pull, update and reset was a pull, and an updated entry is never empty again |
| RouteLb.PullsExactlyWhenStale | lrlb_loadbalance_agent/src/route_lb.cpp:31-50 | a pull is sent exactly for an unknown key and for a key whose answer is too old and not being pulled |
| RouteLb.AnswerLasts | lrlb_loadbalance_agent/src/route_lb.cpp:31-36 | after an answer with hosts, the next request for the key pulls again exactly when more than update_timeout has passed since the answer |
| RouteLb.PullingExactly | lrlb_loadbalance_agent/src/route_lb.cpp:18-25 | empty entries are being pulled throughout a run if and only if no reset meets an entry still waiting for its first answer; then no request aborts |
| RouteLb.EarlyResetAborts | lrlb_loadbalance_agent/src/route_lb.cpp:110-119 | request, reset, request aborts |
| RouteLbObjects.RouteLbObject.GetHost | lrlb_loadbalance_agent/src/route_lb.cpp:11-57 | the table, the pulls sent, both return codes and the host served; a balancer that is created is a new object |
| RouteLbObjects.RouteLbObject.Refresh | lrlb_loadbalance_agent/src/route_lb.cpp:143-148 | the key is pulled again exactly when its route is NEW and out of date |
| RouteLbObjects.RouteLbObject.GetRoute | lrlb_loadbalance_agent/src/route_lb.cpp:123-171 | all hosts of a known key, none for an unknown one, the return code, and the table and pulls afterwards; a balancer that is created is a new object |
| RouteLbObjects.RouteLbObject.UpdateHost | lrlb_loadbalance_agent/src/route_lb.cpp:60-83 | a known key is reconciled, or removed on an empty answer; unknown keys change nothing; added records are new objects |
| RouteLbObjects.RouteLbObject.ReportHost | lrlb_loadbalance_agent/src/route_lb.cpp:86-106 | only the named key's balancer takes the report, and its entries are sent upstream exactly when it has hosts |
| RouteLbObjects.RouteLbObject.ResetLbStatus | lrlb_loadbalance_agent/src/route_lb.cpp:110-119 | every entry is NEW and otherwise unchanged |
| RouteLbObjects.RouteLbObject.Pull | lrlb_loadbalance_agent/src/load_balance.cpp:68-78 | the key is queued for the DNS client and its status is PULLING |
| RouteLbObjects.RouteLbObject.Handle | lrlb_loadbalance_agent/src/route_lb.cpp:11-171 | any critical section takes the table to the state the corresponding event of a run gives, a request is told what that event replies, and only new objects join those it may change |
| RouteLbObjects.RouteLbObject.Run | lrlb_loadbalance_agent/src/route_lb.cpp:11-171 | any sequence of requests, answers, reports and resets takes the table through the states of RouteLb.Run, and every request is told what that run replies, so that what is proved of those runs holds of it |
| Framing.IntRoundTrip | lrlb_reactor/include/message.h:7-15 | a 32-bit field of the head decodes to what was encoded |
| Framing.BytesRoundTrip | lrlb_reactor/include/message.h:7-15 | every four bytes are the encoding of the number they decode to |
| Framing.StreamAppend | lrlb_reactor/src/tcp_conn.cpp:156-174 | sending one more message appends its frame to the stream |
| Framing.ParseInTwo | lrlb_reactor/src/tcp_conn.cpp:77-110 | cutting what has arrived and continuing with the remainder cuts the whole |
| Framing.AnySplit | lrlb_reactor/src/tcp_conn.cpp:62-112 | any split of any byte stream, valid or not, delivers the messages and leaves the remainder or failure of the unsplit stream |
| Framing.ParseSplits | lrlb_reactor/src/tcp_conn.cpp:77-110 | every byte string, well formed or not, is the frames of the delivered messages followed by bytes the loop is stuck at; it fails exactly when those start with a complete head of bad length, and otherwise keeps them |
| Framing.OnlySplit | lrlb_reactor/src/tcp_conn.cpp:77-110 | there is only one such split of a byte string, and the loop finds it |
| Framing.BadHeadFails | lrlb_reactor/src/tcp_conn.cpp:82-86 | a bad head behind any messages: they are delivered, then the loop fails |
| Framing.NegativeLengthFails | lrlb_reactor/src/tcp_client.cpp:127-149 | one input that breaks the client: a head that announces a body of length -1 |
| Framing.ClientTest | lrlb_reactor/src/tcp_client.cpp:128-144 | the client's 32-bit test lets a message through that is longer than the bytes it has exactly for negative lengths and for those that overflow when the head is added |
| Framing.ParseStream | lrlb_reactor/src/tcp_conn.cpp:79-109 | a stream of frames is cut into its messages; only the server holds back a final message with an empty body |
| Framing.ParsePrefix | lrlb_reactor/src/tcp_conn.cpp:77-110 | of any messages, also ones it refuses, a receiver delivers a prefix |
| Framing.ParseAll | lrlb_reactor/src/tcp_conn.cpp:77-110 | it delivers all of them if and only if it can read each one and the server is not left with a last empty one |
| Framing.FramingRoundTrip | lrlb_reactor/src/tcp_client.cpp:122-154 | for every list of messages the receiving side can be sent and every split into reads, client and server deliver that list in order, up to a final empty message on the server |
| Framing.DeliveredIsPrefix | lrlb_reactor/src/tcp_conn.cpp:62-112 | while a stream is arriving, what has been delivered is a prefix of what was sent |
| Framing.RemainderBounded | lrlb_reactor/src/tcp_conn.cpp:79-92 | what the server keeps between reads is shorter than the largest frame |
| Buffers.ClassFor | lrlb_reactor/src/buf_pool.cpp:147-167 | the least size class that fits, none beyond the largest |
| Buffers.IoBuf.constructor | lrlb_reactor/src/io_buf.cpp:7-15 | an empty buffer of the given capacity, on no list |
| Buffers.IoBuf.Clear | lrlb_reactor/src/io_buf.cpp:17-19 | no bytes are left |
| Buffers.IoBuf.Adjust | lrlb_reactor/src/io_buf.cpp:22-29 | the unread bytes are the same and start at the front |
| Buffers.IoBuf.Copy | lrlb_reactor/src/io_buf.cpp:31-35 | the unread bytes are the first `length` bytes of the other array, wherever its head is |
| Buffers.IoBuf.Pop | lrlb_reactor/src/io_buf.cpp:37-42 | the given number of bytes, at most all, leave the front |
| Buffers.IoBuf.Append | lrlb_reactor/src/reactor_buf.cpp:145-146 | the given bytes follow the unread ones |
| Buffers.BufPool.constructor | lrlb_reactor/src/buf_pool.cpp:26-144 | six chains of spare buffers of their class, nothing lent, real memory and counter as the code makes them |
| Buffers.BufPool.Fill | lrlb_reactor/src/buf_pool.cpp:28-44 | one more chain of the given number of empty buffers of a class, and the given amount counted |
| Buffers.BufPool.AllocBuf | lrlb_reactor/src/buf_pool.cpp:147-189 | an empty buffer of the least class that fits, lent to the caller and on no list any more: the first on the list of its class, or a new and counted one only when that list is empty; null exactly beyond the largest class; the end of the process exactly when the list is empty and the limit would be reached |
| Buffers.BufPool.Revert | lrlb_reactor/src/buf_pool.cpp:192-207 | a lent buffer goes back, empty, to the list of its class; it is no longer lent, so it cannot be reverted again |
| Buffers.BufPool.ChainsTake | lrlb_reactor/src/buf_pool.cpp:184-187 | unlinking the first buffer leaves acyclic, disjoint chains |
| Buffers.BufPool.ChainsPush | lrlb_reactor/src/buf_pool.cpp:203-204 | linking a buffer in front leaves acyclic, disjoint chains |
| Buffers.UnitsMiss | lrlb_reactor/include/buf_pool.h:9-19 | the counter misses exactly 1014 bytes for each 64K buffer |
| Buffers.BufPool.MemoryBound | lrlb_reactor/src/buf_pool.cpp:169-182 | real memory in terms of the counter, never above it and always below five gigabytes |
| ReactorBufs.ReactorBuf.Grow | lrlb_reactor/src/reactor_buf.cpp:132-143 | the bytes move to a buffer of the least class that fits, no buffer but this one stays lent to the queue, and no other queue changes; refused exactly beyond four megabytes |
| ReactorBufs.ReactorBuf.MakeRoom | lrlb_reactor/src/reactor_buf.cpp:123-144 | the bytes are unchanged, start at the front and have room behind them, unless more than four megabytes would be needed |
| ReactorBufs.ReactorBuf.SendData | lrlb_reactor/src/reactor_buf.cpp:121-149 | exactly the given bytes are appended, or nothing changes; refused exactly beyond four megabytes, halted only next to the memory limit; no other queue changes |
| ReactorBufs.ReactorBuf.ReadData | lrlb_reactor/src/reactor_buf.cpp:36-101 | exactly the bytes that arrived are appended, or nothing changes; bytes are refused exactly beyond four megabytes, by an error for a first buffer and a crash for one to be grown |
| ReactorBufs.ReactorBuf.Pop | lrlb_reactor/src/reactor_buf.cpp:18-26 | the given number of bytes leave the front |
| ReactorBufs.ReactorBuf.Adjust | lrlb_reactor/src/reactor_buf.cpp:113-118 | the bytes do not change |
| ReactorBufs.ReactorBuf.Clear | lrlb_reactor/src/reactor_buf.cpp:28-33 | the buffer is back in the pool and the queue empty |
| ReactorBufs.ReactorBuf.Write2fd | lrlb_reactor/src/reactor_buf.cpp:152-175 | what the kernel took, as many bytes as it accepts, followed by what is left is what was there |
| ReactorBufs.AllTaken | lrlb_reactor/src/tcp_conn.cpp:124-136 | a kernel that keeps taking bytes takes them all, whatever the sizes |
| ReactorBufs.TakenIsOffered | lrlb_reactor/src/tcp_conn.cpp:124-136 | what is taken is the sum the writes offer up to the first that takes nothing or fails, and not more than there is |
| ReactorBufs.ReactorBuf.OtherKept | lrlb_reactor/src/reactor_buf.cpp:18-33 | an operation on one queue leaves every other queue on the pool valid and with its bytes |
| EventLoops.EventLoop.AddIoEvent | lrlb_reactor/src/event_loop.cpp:69-111 | record and kernel hold the old events and the new one, the kernel call cannot fail, other descriptors are untouched |
| EventLoops.EventLoop.DelFd | lrlb_reactor/src/event_loop.cpp:113-120 | exactly this descriptor leaves record, set and kernel |
| EventLoops.EventLoop.DelIoEvent | lrlb_reactor/src/event_loop.cpp:123-140 | the kernel stops watching the events, the record keeps them; the descriptor goes when nothing is left |
| TcpConns.RollbackRestores | lrlb_reactor/src/tcp_conn.cpp:168-174 | the rollback of one failed call restores the queue if and only if the queue consists of copies of the head of the failed message, the first of them possibly cut |
| TcpConns.FailureKeepsQueue | lrlb_reactor/src/tcp_conn.cpp:161-174 | a failed call leaves the queue as it was if and only if not even the head fitted or the queue consists of copies of that head |
| TcpConns.RollbackRestoresAlways | lrlb_reactor/src/tcp_conn.cpp:168-174 | it restores the queue for every message id if and only if the queue is a tail, at most four bytes, of the length field |
| TcpConns.FailedSendReplacesMessage | lrlb_reactor/src/tcp_conn.cpp:168-174 | one failing call: a whole message waits, an oversize one is refused, and the bytes waiting are then a bare head, no longer the frames of the messages sent; the peer never sees the first message |
| TcpConns.TcpConn.constructor | lrlb_reactor/src/tcp_conn.cpp:37-59 | input is armed, output is not, both queues are empty, and no other descriptor of the loop is touched |
| TcpConns.TcpConn.SendMessage | lrlb_reactor/src/tcp_conn.cpp:147-183 | the frame is appended whole and output armed exactly when there is room; otherwise the queue is what the rollback leaves; halted only next to the memory limit; bytes on the wire and bytes waiting stay the frames of the messages sent; only new objects join the pool |
| TcpConns.TcpConn.PutFrame | lrlb_reactor/src/tcp_conn.cpp:156-174 | head and body are queued together, or the queue is what the rollback leaves |
| TcpConns.TcpConn.DoWrite | lrlb_reactor/src/tcp_conn.cpp:115-144 | for every pattern of partial writes the wire grows by exactly the prefix of the waiting bytes that the kernel takes, the loop ends, the connection closes exactly when a write fails, and output stays armed exactly while bytes wait |
| TcpConns.TcpConn.Drain | lrlb_reactor/src/tcp_conn.cpp:124-136 | the loop takes from the queue exactly what the outcomes of the writes say and stops at the first that takes nothing |
| TcpConns.TcpConn.CutMessages | lrlb_reactor/src/tcp_conn.cpp:77-109 | the loop delivers exactly the messages of the unread bytes and leaves their remainder, or finds a bad head |
| TcpConns.TcpConn.DoRead | lrlb_reactor/src/tcp_conn.cpp:62-112 | one read event delivers what the framing of old remainder and new bytes gives, so that the messages delivered are always those of all bytes read; the connection goes on exactly when bytes arrived, fitted and held no bad head; it crashes only beyond four megabytes or next to the memory limit |
| TcpConns.TcpConn.CleanConn | lrlb_reactor/src/tcp_conn.cpp:194-208 | the descriptor leaves the loop and both buffers return to the pool |
| TcpConns.TcpConn.Close | lrlb_reactor/src/tcp_conn.cpp:194-208 | closing between two events keeps the invariant and touches neither other queues nor other descriptors |
| TcpConns.TcpConn.NeighbourKept | lrlb_reactor/src/tcp_conn.cpp:115-183 | a step of one connection keeps the invariant and the bytes of every other on the same pool and loop |
| TcpConns.TcpConn.BesideNew | lrlb_reactor/src/tcp_conn.cpp:54-55 | a new descriptor in the loop leaves the invariant and the bytes of a connection alone |
| TcpServers.TcpServer.constructor | lrlb_reactor/src/tcp_server.cpp:205-210 | a server without connections satisfies the invariant |
| TcpServers.TcpServer.NewConn | lrlb_reactor/src/tcp_server.cpp:291-299 | a connection with empty queues of its own on the shared pool, and input armed |
| TcpServers.TcpServer.Accept | lrlb_reactor/src/tcp_server.cpp:291-299 | one more connection, with nothing sent or read and buffers of its own; the invariant of all connections and the bytes of the earlier ones are kept |
| TcpServers.TcpServer.Close | lrlb_reactor/src/tcp_conn.cpp:194-208 | exactly the descriptor of the connection leaves the loop; the invariant of all connections and the bytes of all others are kept |
| TcpServers.TcpServer.Send | lrlb_reactor/src/tcp_conn.cpp:147-183 | the message is sent on its connection exactly when there is room, and the connection stays open; the invariant of all connections and the bytes of all others are kept |
| TcpServers.TcpServer.Write | lrlb_reactor/src/tcp_conn.cpp:115-144 | the wire of the connection grows by exactly what the kernel takes, and the invariant of all connections and the bytes of all others are kept |
| TcpServers.TcpServer.Read | lrlb_reactor/src/tcp_conn.cpp:62-112 | the connection delivers what its framing gives and closes exactly on a bad head, an error or the end; the invariant of all connections and the bytes of all others are kept |
| TcpServers.TcpServer.Handle | lrlb_reactor/src/tcp_conn.cpp:62-208 | any possible event keeps the invariant of all connections and has exactly its effect on values: on its own connection, on no other, and on the descriptors watched |
| TcpServers.TcpServer.Run | lrlb_reactor/src/tcp_conn.cpp:62-208 | any sequence of accepts, sends, writes, reads and closes in any order follows the run on values, with the invariant of all connections; it stops early only next to the memory limit or at a read |
| TcpServers.RunExtends | lrlb_reactor/src/tcp_conn.cpp:62-208 | no run takes back what a connection has sent, written, read or delivered |
| TcpServers.StepLeavesOthers | lrlb_reactor/src/tcp_conn.cpp:62-208 | an event on one connection leaves the values of all others alone |
| TcpClients.TcpClient.SendMessage | lrlb_reactor/src/tcp_client.cpp:303-335 | the frame is appended whole and output armed, exactly when connected and it fits; otherwise nothing changes |
| TcpClients.TcpClient.DoWrite | lrlb_reactor/src/tcp_client.cpp:162-197 | the wire grows by exactly the prefix of the waiting bytes that the kernel takes; output stays armed exactly while bytes wait; a failing write disconnects the client, and as writes to a closed descriptor fail, the loop is then still going after any number of iterations |
| TcpClients.SpinsIfFailed | lrlb_reactor/src/tcp_client.cpp:168-186 | the loop never ends if and only if a write fails before all bytes are taken |
| TcpClients.TcpClient.Drain | lrlb_reactor/src/tcp_client.cpp:168-186 | the loop takes from the buffer exactly what the outcomes of the writes say, up to the first that takes nothing or fails |
| TcpClients.TcpClient.CutMessages | lrlb_reactor/src/tcp_client.cpp:122-151 | the loop delivers exactly the messages of the unread bytes and leaves their remainder |
| TcpClients.TcpClient.DoRead | lrlb_reactor/src/tcp_client.cpp:79-156 | one read event delivers what the client's framing gives; aborts exactly when the bytes do not fit, hangs up exactly on end of stream and read errors, and changes nothing when the byte count is not available |
| TcpClients.TcpClient.CleanConn | lrlb_reactor/src/tcp_client.cpp:200-208 | the descriptor leaves the loop and the client is not connected |
| EndToEnd.PrefixDelivered | lrlb_reactor/src/tcp_conn.cpp:62-183 | a receiver of any prefix of a stream of messages, also of ones it refuses, has delivered a prefix of them |
| EndToEnd.ServerDelivers | lrlb_reactor/src/tcp_conn.cpp:62-112 | what the server's connection has handed to its router is a prefix of what the client sent, open or closed; once all bytes have arrived it is all of it if and only if the server takes each message and the last is not empty |
| EndToEnd.ClientDelivers | lrlb_reactor/src/tcp_client.cpp:79-156 | what the client has handed to its router is a prefix of what the server sent, open or closed, unless a failed send has broken the stream; once all bytes have arrived it is all of it |
| Subscriptions.SubscribeList.Subscribe | lrlb_dns/src/subscribe.cpp:15-20 | the client is added to the module's set |
| Subscriptions.SubscribeList.Unsubscribe | lrlb_dns/src/subscribe.cpp:23-31 | the client leaves the module's set, and an emptied set leaves the book |
| Subscriptions.SubscribeList.Publish | lrlb_dns/src/subscribe.cpp:102-120 | exactly the pairs of changed modules and their subscribers are added to the pending ones |
| Subscriptions.SubscribeList.PublishOne | lrlb_dns/src/subscribe.cpp:110-117 | every subscriber of the module gets the pair, and nobody else |
| Subscriptions.SubscribeList.MakePublishMap | lrlb_dns/src/subscribe.cpp:82-99 | exactly the pending pairs of online clients move to the result |
| Subscriptions.ClientConn.constructor | lrlb_dns/src/dns_server.cpp:13-16 | a new connection has subscribed to nothing |
| Subscriptions.ClientConn.Request | lrlb_dns/src/dns_server.cpp:42-55 | a module is entered in both lists on first use only |
| Subscriptions.ClientConn.Clear | lrlb_dns/src/dns_server.cpp:18-28 | the client leaves exactly the sets of its own modules, and no empty set remains |
| PubSub.StepKeepsDuality | lrlb_dns/src/dns_server.cpp:13-55 | every step keeps: a client is in a module's set exactly when the module is on the client's list, and no set is empty |
| PubSub.StepKeepsConserved | lrlb_dns/src/subscribe.cpp:82-125 | every step keeps: pairs added are the pairs taken plus the pairs pending, with multiplicity, each taken by its client's loop |
| PubSub.StepKeepsWoken | lrlb_reactor/src/thread_pool.cpp:108-121 | every step keeps: a pending pair of an online client has a push task still to be sent to, queued at or ready on the client's loop |
| PubSub.EveryRunPushesOnce | lrlb_dns/src/subscribe.cpp:33-125 | duality, conservation and wake-up hold in every state of every interleaving |
| PubSub.PublishAdds | lrlb_dns/src/subscribe.cpp:102-120 | after a publication a pair is pending if and only if it was, or its module was published and its client subscribes to it |
| PubSub.PublishedIsPushed | lrlb_dns/src/subscribe.cpp:33-125 | whoever subscribes to a module when it is published, and is still online when publisher and loops have nothing left to do, has been pushed it since |
| PubSub.PushTakes | lrlb_dns/src/subscribe.cpp:82-99 | a run of the push task takes exactly the pending pairs of the clients online on its loop |
| PubSub.PublisherRests | lrlb_reactor/src/thread_pool.cpp:108-121 | the publisher comes to rest after one step for each loop, and each of them has one task more |
| PubSub.RequestSubscribes | lrlb_dns/src/dns_server.cpp:42-55 | a request subscribes its client to its module and changes no other subscription |
| PubSub.CloseCompletes | lrlb_dns/src/dns_server.cpp:18-28 | a close can be carried to its end in any order of the modules, and then no entry of the book mentions the client |
| PubSub.StartInv | lrlb_dns/src/subscribe.cpp:12 | the state before any connection satisfies the invariant of every run |
| PubSub.NothingLeftBehind | lrlb_dns/src/subscribe.cpp:33-125 | when publisher and loops are idle, every pair added for an online client has been taken exactly as often as added |
| PubSub.PushDelivers | lrlb_reactor/src/event_loop.cpp:143-163 | draining and running a loop once takes a pending pair of its online client |
| PubSub.ClosedLeavesNoTrace | lrlb_reactor/src/tcp_conn.cpp:187-208 | after a close no entry of the book mentions the client |
| DnsRoutes.Route.constructor | lrlb_dns/src/dns_route.cpp:63-95 | the visible table lists exactly the hosts of the rows |
| DnsRoutes.Route.LoadInto | lrlb_dns/src/dns_route.cpp:168-179 | the loaded map lists exactly the hosts of the rows |
| DnsRoutes.Route.GetHosts | lrlb_dns/src/dns_route.cpp:99-112 | the visible host set of the key, empty for an unknown key |
| DnsRoutes.Route.LoadRouteData | lrlb_dns/src/dns_route.cpp:153-183 | the spare map lists the rows, or is empty on failure; the visible one is untouched |
| DnsRoutes.Route.Swap | lrlb_dns/src/dns_route.cpp:187-193 | the two maps change places |
| DnsRoutes.Route.Reload | lrlb_dns/src/dns_route.cpp:278-283 | the visible table is one complete load, or unchanged when the load fails |
| RouteSnapshots.StepKeepsInv | lrlb_dns/src/dns_route.cpp:99-193 | no map changes while a reader holds it, and what readers see changes only by a swap to a complete load |
| RouteSnapshots.EveryAnswerIsOneLoad | lrlb_dns/src/dns_route.cpp:99-193 | in every interleaving every answer is the host set of one complete load, the one visible while its reader held the lock |
| RouteSnapshots.LoadBecomesVisible | lrlb_dns/src/dns_route.cpp:153-193 | a load that runs to its end and is swapped in becomes what readers see |
| RouteSnapshots.ReadCompletes | lrlb_dns/src/dns_route.cpp:99-112 | a reader that copies all it finds is given exactly the hosts the visible load lists for its key |
| RouteSnapshots.StartInv | lrlb_dns/src/dns_route.cpp:63-95 | the state after the first load satisfies the invariant of every run |
| ChangeLog.PollLosesNothing | lrlb_dns/src/dns_route.cpp:284-291 | a poll deletes nothing it did not select if and only if its deletion fails, or its selection did not fail on rows to select and every late row is newer |
| ChangeLog.PollLoses | lrlb_dns/src/dns_route.cpp:274-293 | after a whole poll, with rows slipping in between any two of its steps, exactly the rows deleted without having been selected, now or earlier, are lost |
| ChangeLog.NoChangeLost | lrlb_dns/src/dns_route.cpp:261-305 | in every fair run every row inserted is still in the table or has been published |
| ChangeLog.PollClears | lrlb_dns/src/dns_route.cpp:274-292 | a poll whose queries succeed publishes and deletes exactly the rows up to the version read |
| ChangeLog.LateRowIsLost | lrlb_dns/src/dns_route.cpp:284-291 | a row of the version just read, inserted between selection and deletion, is lost |
| ChangeLog.PushIsCurrent | lrlb_dns/src/dns_route.cpp:276-289 | with rows slipping in before and after the load, the visible table has the data of every row a poll publishes if and only if the load succeeded, or had nothing to bring, and the rows after it are newer |
| ChangeLog.LoadsOnlyAdd | lrlb_dns/src/dns_route.cpp:279-301 | no step takes a change out of the visible table, so a push made later carries no older data |
| ChangeLog.LoadBringsUpToDate | lrlb_dns/src/dns_route.cpp:294-301 | a load that succeeds, inside a poll or between polls, brings the table up to date; between polls it changes nothing else |
| ChangeLog.FailedLoadPushesOldData | lrlb_dns/src/dns_route.cpp:276-291 | one failing run: after a failed load the change is published with the old data and its row is deleted |
| Notices.EveryRunInforms | lrlb_dns/src/dns_server.cpp:42-58 | in every interleaving of requests, which subscribe and then read, with polls whose publications are up to date, a client whose answer predates the load of a published change has been put on the push list for it |
| Notices.CurrentIsExact | lrlb_dns/src/dns_route.cpp:276-291 | a new client is informed whatever it asks for if and only if everything published is in the visible table |
| Notices.TellsSubscribers | lrlb_dns/src/subscribe.cpp:102-120 | a publication tells exactly the subscribers of each module selected, and a closed client leaves nothing behind |
| Notices.LogRuns | lrlb_dns/src/dns_route.cpp:261-305 | clients do not disturb the log, which goes the way of its own run |
| ThreadQueues.ThreadQueue.Send | lrlb_reactor/include/thread_queue.h:32-45 | the task is last in the queue, the counter is positive, and received plus queued tasks are the tasks sent |
| ThreadQueues.ThreadQueue.Recv | lrlb_reactor/include/thread_queue.h:49-63 | all queued tasks are received in order, once, and the counter is zero |
| ThreadQueues.TaskLoop.AddTask | lrlb_reactor/src/event_loop.cpp:143-146 | the task is last in the ready list |
| ThreadQueues.TaskLoop.ExecuteReadyTasks | lrlb_reactor/src/event_loop.cpp:150-163 | the ready tasks run in order, once each |
| ThreadQueues.DealTaskMessage | lrlb_reactor/src/thread_pool.cpp:10-49 | connections are opened and tasks become ready in queue order |
| ThreadQueues.EveryMessageDealt | lrlb_reactor/src/thread_pool.cpp:19-47 | no message is dropped or made up: each connection and each task stands behind the earlier ones of its kind |
| ThreadQueues.ThreadPool.GetThread | lrlb_reactor/src/thread_pool.cpp:98-105 | the next queue in turn |
| ThreadQueues.ServedInTurn | lrlb_reactor/src/thread_pool.cpp:98-105 | call number k returns the queue k places on, around the end |
| ThreadQueues.ThreadPool.SendTask | lrlb_reactor/src/thread_pool.cpp:108-121 | every queue gets the task behind what it holds and its counter is positive |
| ThreadQueues.EachQueueOnce | lrlb_reactor/src/thread_pool.cpp:98-105 | any thread_cnt calls in a row return each queue exactly once |

## Left out

- HostModel.ReportKeepsLimits: rates are compared as reals and counters do not wrap at 32 bits, so rounding and overflow of the source's `double` and `uint32_t` are not modelled.
- Buffers.BufPool.AllocBuf: a failed `new` (which ends the process) is not modelled.
- ReactorBufs.ReactorBuf.ReadData: with no bytes announced, only the end of the stream is modelled, not a read that finds bytes after all.
- TcpConns.TcpConn.DoRead: delivering a message is a log entry; what a callback does to the connection in turn is not modelled.
- TcpServers.TcpServer.Accept: the limit on the number of connections and the table by descriptor are not modelled; closed connections stay in the list.
- TcpConns.TcpConn.CleanConn: the close hook is not modelled here; the hook's effect on subscriptions is in `Subscriptions.ClientConn.Clear` and `PubSub`.
- DnsRoutes.Route.constructor: the exit when the first query fails is not modelled.
- Fairness.Schedule: the configured probe_num is a natural number, as are the limits and seeds.
- LoadBalanceObjects.BalancerObject.DropMissingHosts: the order in which missing hosts are deleted is arbitrary, as the iteration order of hash maps is throughout.
- EventLoops.EventLoop.AddIoEvent: takes one event at a time, as the comment above it asks; callbacks are only recorded as set.
- ThreadQueues.ThreadQueue.Send: the eventfd counter is unbounded.
- Connection set-up, sockets, epoll waiting, signals and the dispatch loop of the event loop: inputs or left out.
- MySQL: queries are reads and deletes on an abstract table with success or failure as an input.
- UDP server and client, the API library, the reporter service and the examples: thin wrappers around I/O.
- The configuration file parser: it only splits lines and looks values up.
- Generated protobuf code and vendored headers.
