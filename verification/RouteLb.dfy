/**
 All balancers of one `route_lb`, on values, driven by the requests of the API, the answers
 of the DNS service and the resets made on every reconnect.  One event is one critical
 section of the source's mutex.
 */
module RouteLb {
  import opened Seqs
  import opened HostModel
  import opened LoadBalance

  /** `pulls` logs the keys sent to the DNS client.  `aborted` is set by the assertion in
      `get_host` and by taking the front of an empty list. */
  datatype Router = Router(lbs: map<nat, Balancer>, pulls: seq<nat>, aborted: bool)

  const Start := Router(map[], [], false)

  datatype Event =
    | GetHost(key: nat, now: int, access: int, lastUpdate: int)
    | GetRoute(key: nat, now: int, access: int, lastUpdate: int)
    | UpdateHost(key: nat, hosts: seq<nat>, now: int, stamps: nat -> (int, int))
    | ReportHost(key: nat, host: nat, ok: bool, now: int, stamp: int)
    | ResetAll

  function Pulled(r: Router, key: nat, lb: Balancer): Router {
    r.(lbs := r.lbs[key := lb.(status := PULLING)], pulls := r.pulls + [key])
  }

  /** Stores `lb` and pulls again when its route is out of date. */
  function Refreshed(c: Config, r: Router, key: nat, lb: Balancer, now: int): Router {
    if lb.status == NEW && now - lb.lastUpdate > c.updateTimeout then Pulled(r, key, lb)
    else r.(lbs := r.lbs[key := lb])
  }

  function AfterGetHost(c: Config, r: Router, key: nat, now: int, access: int, lastUpdate: int): Router {
    if key !in r.lbs then Pulled(r, key, Created(access, lastUpdate))
    else
      var lb := r.lbs[key];
      if lb.hosts == map[] then r.(aborted := lb.status != PULLING)
      else if lb.idle == [] && lb.over == [] then r.(aborted := true)
      else Refreshed(c, r, key, Pick(c, lb).0, now)
  }

  function AfterGetRoute(c: Config, r: Router, key: nat, now: int, access: int, lastUpdate: int): Router {
    if key !in r.lbs then Pulled(r, key, Created(access, lastUpdate))
    else Refreshed(c, r, key, r.lbs[key], now)
  }

  ghost function AfterUpdateHost(
    c: Config, r: Router, key: nat, hosts: seq<nat>, now: int, stamps: nat -> (int, int)): Router
  {
    if key !in r.lbs then r
    else if hosts == [] then r.(lbs := r.lbs - {key})
    else r.(lbs := r.lbs[key := Reconciled(c, r.lbs[key], hosts, now, stamps)])
  }

  function AfterReportHost(c: Config, r: Router, key: nat, host: nat, ok: bool, now: int, stamp: int): Router {
    if key !in r.lbs then r
    else r.(lbs := r.lbs[key := ReportAt(c, r.lbs[key], host, ok, now, stamp)])
  }

  function AfterReset(r: Router): Router {
    r.(lbs := map k | k in r.lbs :: r.lbs[k].(status := NEW))
  }

  ghost function Step(c: Config, r: Router, e: Event): Router {
    if r.aborted then r else
    match e
    case GetHost(key, now, access, lastUpdate) => AfterGetHost(c, r, key, now, access, lastUpdate)
    case GetRoute(key, now, access, lastUpdate) => AfterGetRoute(c, r, key, now, access, lastUpdate)
    case UpdateHost(key, hosts, now, stamps) => AfterUpdateHost(c, r, key, hosts, now, stamps)
    case ReportHost(key, host, ok, now, stamp) => AfterReportHost(c, r, key, host, ok, now, stamp)
    case ResetAll => AfterReset(r)
  }

  ghost function Run(c: Config, r: Router, es: seq<Event>): Router
    decreases |es|
  {
    if es == [] then r else Run(c, Step(c, r, es[0]), es[1..])
  }

  // ----- What requests are answered -----

  /** The answer to a request for a host: none, because it was no such request or the process aborts;
      that there are no hosts yet; or the choice of the balancer. */
  datatype Reply = Silent | NotThere | Gave(choice: Choice)

  function ReplyTo(c: Config, r: Router, e: Event): Reply {
    if r.aborted || !e.GetHost? then Silent
    else if e.key !in r.lbs then NotThere
    else
      var lb := r.lbs[e.key];
      if lb.hosts == map[] then if lb.status == PULLING then NotThere else Silent
      else if lb.idle == [] && lb.over == [] then Silent
      else Gave(Pick(c, lb).1)
  }

  ghost function Replies(c: Config, r: Router, es: seq<Event>): (replies: seq<Reply>)
    ensures |replies| == |es|
    decreases |es|
  {
    if es == [] then [] else [ReplyTo(c, r, es[0])] + Replies(c, Step(c, r, es[0]), es[1..])
  }

  lemma {:induction false} ReplyAt(c: Config, r: Router, es: seq<Event>, i: nat)
    requires i < |es|
    ensures Replies(c, r, es)[i] == ReplyTo(c, Run(c, r, es[..i]), es[i])
    decreases |es|
  {
    hide Step, ReplyTo;
    if i > 0 {
      ReplyAt(c, Step(c, r, es[0]), es[1..], i - 1);
      assert es[..i][1..] == es[1..][..i - 1];
    }
  }

  lemma {:induction false} RunAppend(c: Config, r: Router, es: seq<Event>, e: Event)
    ensures Run(c, r, es + [e]) == Step(c, Run(c, r, es), e)
    decreases |es|
  {
    hide Step;
    if es == [] {
      assert (es + [e])[1..] == [];
    } else {
      assert (es + [e])[1..] == es[1..] + [e];
      RunAppend(c, Step(c, r, es[0]), es[1..], e);
    }
  }

  /** An event for one key leaves the entries of all others alone; only a reset touches all, and only
      their status. */
  lemma OthersUntouched(c: Config, r: Router, e: Event, k: nat)
    requires e.ResetAll? || e.key != k
    ensures var r' := Step(c, r, e);
      && (k in r'.lbs <==> k in r.lbs)
      && (k in r.lbs ==> r'.lbs[k] == if e.ResetAll? && !r.aborted then r.lbs[k].(status := NEW) else r.lbs[k])
  {
    hide Pick, ReportAt, Reconciled;
  }

  /** An answer without hosts removes its key and nothing else. */
  lemma EmptyAnswerRemoves(c: Config, r: Router, e: Event)
    requires !r.aborted && e.UpdateHost? && e.hosts == []
    ensures Step(c, r, e).lbs == r.lbs - {e.key} && Step(c, r, e).pulls == r.pulls
  {
  }

  // ----- Safety of every balancer in every run -----

  ghost predicate AllInv(c: Config, r: Router) {
    forall k <- r.lbs :: Inv(c, r.lbs[k])
  }

  lemma StepKeepsInv(c: Config, r: Router, e: Event)
    requires Sane(c) && AllInv(c, r)
    ensures AllInv(c, Step(c, r, e))
  {
    hide WithinLimits, Seeded, Pick, ReportAt, Reconciled;
    match e {
      case GetHost(key, _, _, _) =>
        if key in r.lbs && r.lbs[key].hosts != map[] {
          PickKeepsPartition(c, r.lbs[key]);
        }
      case GetRoute(_, _, _, _) =>
      case UpdateHost(key, hosts, now, stamps) =>
        if key in r.lbs {
          UpdateKeepsInv(c, r.lbs[key], hosts, now, stamps);
        }
      case ReportHost(key, host, ok, now, stamp) =>
        if key in r.lbs {
          ReportKeepsInv(c, r.lbs[key], host, ok, now, stamp);
        }
      case ResetAll =>
    }
  }

  /** In every state of every run the queues of every balancer split its hosts by their flag,
      every host respects the limits of its queue, and its virtual counters are its real
      counters plus the seed of that queue. */
  lemma {:induction false} EveryRunIsSafe(c: Config, r: Router, es: seq<Event>)
    requires Sane(c) && AllInv(c, r)
    ensures AllInv(c, Run(c, r, es))
    decreases |es|
  {
    if es != [] {
      StepKeepsInv(c, r, es[0]);
      EveryRunIsSafe(c, Step(c, r, es[0]), es[1..]);
    }
  }

  // ----- The pull protocol -----

  datatype Mark = ByPull | ByUpdate | ByReset

  /** The history of one entry of the table since it was created. */
  datatype Life = Absent | Alive(pulls: nat, updates: nat, resets: nat, last: Mark)

  ghost function Aged(c: Config, r: Router, key: nat, life: Life, e: Event): Life {
    var r' := Step(c, r, e);
    if key !in r'.lbs then Absent
    else if life.Absent? then Alive(1, 0, 0, ByPull)
    else if r.aborted then life
    else if (e.GetHost? || e.GetRoute?) && e.key == key && r'.pulls != r.pulls then
      life.(pulls := life.pulls + 1, last := ByPull)
    else if e.UpdateHost? && e.key == key then life.(updates := life.updates + 1, last := ByUpdate)
    else if e.ResetAll? then life.(resets := life.resets + 1, last := ByReset)
    else life
  }

  ghost function LifeAfter(c: Config, r: Router, key: nat, life: Life, es: seq<Event>): Life
    decreases |es|
  {
    if es == [] then life else LifeAfter(c, Step(c, r, es[0]), key, Aged(c, r, key, life, es[0]), es[1..])
  }

  ghost predicate Accounted(r: Router, key: nat, life: Life) {
    if key !in r.lbs then life.Absent?
    else
      && life.Alive?
      && (r.lbs[key].status == PULLING <==> life.last == ByPull)
      && life.pulls + (if r.lbs[key].status == NEW then 1 else 0) <= 1 + life.updates + life.resets
      && (life.updates > 0 ==> r.lbs[key].hosts != map[])
  }

  lemma StepKeepsAccount(c: Config, r: Router, key: nat, life: Life, e: Event)
    requires Accounted(r, key, life)
    ensures Accounted(Step(c, r, e), key, Aged(c, r, key, life, e))
  {
    hide Reported, Requeued, Keep, FirstNew;
    if e.UpdateHost? && e.key == key && key in r.lbs && e.hosts != [] {
      assert e.hosts[0] in Reconciled(c, r.lbs[key], e.hosts, e.now, e.stamps).hosts;
    }
  }

  /** Pulls are answered or reset before they are repeated, the status says which of pull,
      update and reset came last, and an updated entry never becomes empty. */
  lemma {:induction false} PullProtocol(c: Config, r: Router, key: nat, life: Life, es: seq<Event>)
    requires Accounted(r, key, life)
    ensures Accounted(Run(c, r, es), key, LifeAfter(c, r, key, life, es))
    decreases |es|
  {
    if es != [] {
      StepKeepsAccount(c, r, key, life, es[0]);
      PullProtocol(c, Step(c, r, es[0]), key, Aged(c, r, key, life, es[0]), es[1..]);
    }
  }

  /** A pull is sent exactly for a key not yet known, and for a key whose last answer is older
      than the update time-out and has been neither pulled nor emptied since. */
  lemma PullsExactlyWhenStale(c: Config, r: Router, e: Event)
    requires !r.aborted && AllInv(c, r)
    ensures var r' := Step(c, r, e);
      && (r'.pulls != r.pulls <==>
            && (e.GetHost? || e.GetRoute?)
            && (e.key in r.lbs ==>
                  && r.lbs[e.key].status == NEW && e.now - r.lbs[e.key].lastUpdate > c.updateTimeout
                  && (e.GetHost? ==> r.lbs[e.key].hosts != map[])))
      && (r'.pulls != r.pulls ==>
            r'.pulls == r.pulls + [e.key] && e.key in r'.lbs && r'.lbs[e.key].status == PULLING)
  {
    hide WithinLimits, Seeded, ReportAt, Reconciled;
    if e.GetHost? && e.key in r.lbs && r.lbs[e.key].hosts != map[] {
      PickKeepsPartition(c, r.lbs[e.key]);
    }
    assert forall k: nat :: |r.pulls + [k]| == |r.pulls| + 1;
  }

  /** An answer with hosts is used for the update time-out: the next request for its key pulls again
      exactly when more time than that has passed since the answer came. */
  lemma AnswerLasts(c: Config, r: Router, u: Event, e: Event)
    requires Sane(c) && !r.aborted && AllInv(c, r)
    requires u.UpdateHost? && u.key in r.lbs && u.hosts != []
    requires (e.GetHost? || e.GetRoute?) && e.key == u.key
    ensures var r' := Step(c, r, u);
      Step(c, r', e).pulls != r'.pulls <==> e.now - u.now > c.updateTimeout
  {
    hide AllInv, Keep, FirstNew;
    StepKeepsInv(c, r, u);
    PullsExactlyWhenStale(c, Step(c, r, u), e);
    assert u.hosts[0] in Reconciled(c, r.lbs[u.key], u.hosts, u.now, u.stamps).hosts;
  }

  // ----- When the assertion in `get_host` holds -----

  ghost predicate EmptyMeansPulling(r: Router) {
    forall k <- r.lbs :: r.lbs[k].hosts == map[] ==> r.lbs[k].status == PULLING
  }

  ghost predicate HasEmpty(r: Router) {
    exists k <- r.lbs :: r.lbs[k].hosts == map[]
  }

  /** Every state of the run meets what the assertion expects. */
  ghost predicate AlwaysPulling(c: Config, r: Router, es: seq<Event>)
    decreases |es|
  {
    EmptyMeansPulling(r) && (es != [] ==> AlwaysPulling(c, Step(c, r, es[0]), es[1..]))
  }

  /** No reset of the run meets an entry that is still waiting for its first answer. */
  ghost predicate NoEarlyReset(c: Config, r: Router, es: seq<Event>)
    decreases |es|
  {
    es != [] ==> !(es[0].ResetAll? && HasEmpty(r)) && NoEarlyReset(c, Step(c, r, es[0]), es[1..])
  }

  lemma StepKeepsPulling(c: Config, r: Router, e: Event)
    requires AllInv(c, r) && EmptyMeansPulling(r) && !r.aborted
    ensures EmptyMeansPulling(Step(c, r, e)) <==> !(e.ResetAll? && HasEmpty(r))
    ensures !Step(c, r, e).aborted
  {
    hide Reported, Requeued, Keep, FirstNew, WithinLimits, Seeded;
    var r' := Step(c, r, e);
    match e {
      case GetHost(key, _, _, _) =>
        if key in r.lbs && r.lbs[key].hosts != map[] {
          PickKeepsPartition(c, r.lbs[key]);
        }
      case UpdateHost(key, hosts, now, stamps) =>
        if key in r.lbs && hosts != [] {
          assert hosts[0] in Reconciled(c, r.lbs[key], hosts, now, stamps).hosts;
        }
      case ReportHost(key, host, ok, now, stamp) =>
        if key in r.lbs && host in r.lbs[key].hosts {
          assert host in ReportAt(c, r.lbs[key], host, ok, now, stamp).hosts;
        }
      case ResetAll =>
        if HasEmpty(r) {
          var k :| k in r.lbs && r.lbs[k].hosts == map[];
          assert r'.lbs[k].hosts == map[] && r'.lbs[k].status == NEW;
        }
      case _ =>
    }
  }

  /** The expectation holds throughout a run exactly when no reset comes too early; and
      then no `get_host` aborts and no empty list is ever asked for its front. */
  lemma {:induction false} PullingExactly(c: Config, r: Router, es: seq<Event>)
    requires Sane(c) && AllInv(c, r) && EmptyMeansPulling(r) && !r.aborted
    ensures AlwaysPulling(c, r, es) <==> NoEarlyReset(c, r, es)
    ensures NoEarlyReset(c, r, es) ==> !Run(c, r, es).aborted
    decreases |es|
  {
    if es != [] {
      StepKeepsInv(c, r, es[0]);
      StepKeepsPulling(c, r, es[0]);
      if EmptyMeansPulling(Step(c, r, es[0])) {
        PullingExactly(c, Step(c, r, es[0]), es[1..]);
      }
    }
  }

  /** A reset between the first request for a key and its answer makes the next request abort. */
  lemma EarlyResetAborts(c: Config, key: nat, now: int, access: int, lastUpdate: int)
    ensures var get := GetHost(key, now, access, lastUpdate);
      Run(c, Start, [get, ResetAll, get]).aborted
  {
    var get := GetHost(key, now, access, lastUpdate);
    var r1 := Step(c, Start, get);
    var r2 := Step(c, r1, ResetAll);
    var r3 := Step(c, r2, get);
    assert r2.lbs[key].hosts == map[] && r2.lbs[key].status == NEW;
    assert r3.aborted;
    assert Run(c, r3, []) == r3 && Run(c, r2, [get]) == r3 && Run(c, r1, [ResetAll, get]) == r3 by {
      assert [ResetAll, get][1..] == [get] && [get][1..] == [];
    }
    assert [get, ResetAll, get][1..] == [ResetAll, get];
  }
}
