/**
 What the requests of a run are answered: they follow the schedule of `Fairness`, and probes keep
 their distance whatever reports, answers and resets come between them.
 */
module RequestRuns {
  import opened HostModel
  import opened LoadBalance
  import opened Fairness
  import opened RouteLb

  predicate Asks(e: Event, key: nat) { e.GetHost? && e.key == key }

  function AsksIn(es: seq<Event>, key: nat): nat {
    if es == [] then 0 else AsksIn(es[..|es| - 1], key) + if Asks(es[|es| - 1], key) then 1 else 0
  }

  ghost predicate Serves(r: Router, key: nat) {
    key in r.lbs && r.lbs[key].hosts != map[] && Partition(r.lbs[key])
  }

  // ----- Requests by themselves -----

  predicate SameQueues(b: Balancer, b': Balancer) {
    b.hosts == b'.hosts && b.idle == b'.idle && b.over == b'.over && b.access == b'.access
  }

  lemma PickSame(c: Config, b: Balancer, b': Balancer)
    requires SameQueues(b, b') && (b.idle != [] || b.over != [])
    ensures SameQueues(Pick(c, b).0, Pick(c, b').0) && Pick(c, b).1 == Pick(c, b').1
  {
  }

  /** No report for the key and no answer for it. */
  predicate Undisturbed(e: Event, key: nat) {
    !((e.ReportHost? || e.UpdateHost?) && e.key == key)
  }

  /** A request picks once; other events leave the queues and the counter alone. */
  lemma RequestStep(c: Config, r: Router, e: Event, key: nat)
    requires !r.aborted && Serves(r, key) && Undisturbed(e, key)
    ensures Serves(Step(c, r, e), key)
    ensures r.lbs[key].idle != [] || r.lbs[key].over != []
    ensures SameQueues(Step(c, r, e).lbs[key], if Asks(e, key) then Pick(c, r.lbs[key]).0 else r.lbs[key])
    ensures Asks(e, key) ==> ReplyTo(c, r, e) == Gave(Pick(c, r.lbs[key]).1)
  {
    hide Pick;
    PickKeepsPartition(c, r.lbs[key]);
    if e.ResetAll? || e.key != key {
      OthersUntouched(c, r, e, key);
    }
  }

  /** After any run without reports and answers for a key, its queues and its counter are those of as
      many picks as there were requests for it. */
  lemma {:induction false} RequestsAreThePicks(c: Config, r: Router, es: seq<Event>, key: nat)
    requires Serves(r, key) && !Run(c, r, es).aborted && forall e <- es :: Undisturbed(e, key)
    ensures r.lbs[key].idle != [] || r.lbs[key].over != []
    ensures Serves(Run(c, r, es), key)
    ensures SameQueues(Run(c, r, es).lbs[key], After(c, r.lbs[key], AsksIn(es, key)))
    decreases |es|
  {
    hide Step, Pick;
    NonEmptyServes(r.lbs[key]);
    if es != [] {
      var init, last := es[..|es| - 1], es[|es| - 1];
      assert es == init + [last];
      RunAppend(c, r, init, last);
      StaysAborted(c, Run(c, r, init), last);
      RequestsAreThePicks(c, r, init, key);
      RequestStep(c, Run(c, r, init), last, key);
      PickSame(c, Run(c, r, init).lbs[key], After(c, r.lbs[key], AsksIn(init, key)));
    }
  }

  lemma StaysAborted(c: Config, r: Router, e: Event)
    ensures r.aborted ==> Step(c, r, e).aborted
  {
  }

  lemma {:induction false} NotYetAborted(c: Config, r: Router, es: seq<Event>, i: nat)
    requires i <= |es| && !Run(c, r, es).aborted
    ensures !Run(c, r, es[..i]).aborted
    decreases |es|
  {
    hide Step;
    if i == |es| {
      assert es[..i] == es;
    } else {
      var init, last := es[..|es| - 1], es[|es| - 1];
      assert es == init + [last] && init[..i] == es[..i];
      RunAppend(c, r, init, last);
      StaysAborted(c, Run(c, r, init), last);
      NotYetAborted(c, r, init, i);
    }
  }

  /** And each request is answered with the pick whose turn it is, which `Schedule` names. */
  lemma AnswersFollowSchedule(c: Config, r: Router, es: seq<Event>, key: nat, i: nat)
    requires Serves(r, key) && !Run(c, r, es).aborted && forall e <- es :: Undisturbed(e, key)
    requires i < |es| && Asks(es[i], key)
    ensures r.lbs[key].idle != [] || r.lbs[key].over != []
    ensures Replies(c, r, es)[i] == Gave(Nth(c, r.lbs[key], AsksIn(es[..i], key)))
  {
    hide Run, Step, Pick, ReplyTo, After;
    NotYetAborted(c, r, es, i);
    RequestsAreThePicks(c, r, es[..i], key);
    RequestStep(c, Run(c, r, es[..i]), es[i], key);
    PickSame(c, Run(c, r, es[..i]).lbs[key], After(c, r.lbs[key], AsksIn(es[..i], key)));
    ReplyAt(c, r, es, i);
  }

  // ----- Requests among reports and answers -----

  ghost predicate HasOverloaded(b: Balancer) {
    exists k <- b.hosts :: b.hosts[k].overload
  }

  /** The request is answered with an overloaded host. */
  ghost predicate Probed(c: Config, r: Router, e: Event, key: nat) {
    && Asks(e, key) && key in r.lbs && ReplyTo(c, r, e).Gave?
    && var choice := ReplyTo(c, r, e).choice;
       choice.Chosen? && choice.key in r.lbs[key].hosts && r.lbs[key].hosts[choice.key].overload
  }

  /** The requests of a run made while some host was overloaded. */
  ghost function Counting(c: Config, r: Router, es: seq<Event>, key: nat): nat {
    if es == [] then 0
    else
      var init, last := es[..|es| - 1], es[|es| - 1];
      var r' := Run(c, r, init);
      Counting(c, r, init, key) + if Asks(last, key) && key in r'.lbs && HasOverloaded(r'.lbs[key]) then 1 else 0
  }

  /** No answer removes the key. */
  ghost predicate Stays(es: seq<Event>, key: nat) {
    forall e <- es | e.UpdateHost? && e.key == key :: e.hosts != []
  }

  ghost predicate NoProbe(c: Config, r: Router, es: seq<Event>, key: nat) {
    forall i | 0 <= i < |es| :: !Probed(c, Run(c, r, es[..i]), es[i], key)
  }

  lemma ServesOn(c: Config, r: Router, e: Event, key: nat)
    requires !r.aborted && Serves(r, key) && Stays([e], key)
    ensures Serves(Step(c, r, e), key)
    ensures !Asks(e, key) ==> Step(c, r, e).lbs[key].access == r.lbs[key].access
  {
    hide Reported, Requeued, Pick, Seqs.Keep, Seqs.FirstNew, Partition;
    assert e in [e];
    var b := r.lbs[key];
    if Undisturbed(e, key) {
      RequestStep(c, r, e, key);
    } else if e.UpdateHost? {
      UpdateKeepsPartition(c, b, e.hosts, e.now, e.stamps);
      assert e.hosts[0] in Reconciled(c, b, e.hosts, e.now, e.stamps).hosts;
    } else {
      ReportKeepsPartition(c, b, e.host, e.ok, e.now, e.stamp);
    }
  }

  /** A request is a probe exactly when a host is overloaded and the counter has reached its limit; it
      then starts again, and otherwise counts if a host is overloaded. */
  lemma ProbeStep(c: Config, r: Router, e: Event, key: nat)
    requires !r.aborted && Serves(r, key) && Asks(e, key)
    ensures Serves(Step(c, r, e), key)
    ensures var b, b' := r.lbs[key], Step(c, r, e).lbs[key];
      && (Probed(c, r, e, key) <==> HasOverloaded(b) && b.access >= c.probeNum)
      && b'.access == (if Probed(c, r, e, key) then 0 else b.access + if HasOverloaded(b) then 1 else 0)
  {
    RequestStep(c, r, e, key);
    var b := r.lbs[key];
    QueuesSay(b);
    if b.idle != [] { assert b.idle[0] in b.idle; }
    if b.over != [] { assert b.over[0] in b.over; }
  }

  lemma ProbedAsks(c: Config, r: Router, e: Event, key: nat)
    ensures Probed(c, r, e, key) ==> Asks(e, key)
  {
  }

  lemma QueuesSay(b: Balancer)
    requires Partition(b)
    ensures HasOverloaded(b) <==> b.over != []
  {
    if b.over != [] {
      assert b.over[0] in b.over;
    }
  }

  /** Without a probe, the counter grows by one for each request made while a host was overloaded,
      whatever else happens, and not beyond its limit. */
  lemma {:induction false} CounterCounts(c: Config, r: Router, es: seq<Event>, key: nat)
    requires Serves(r, key) && !Run(c, r, es).aborted && Stays(es, key) && NoProbe(c, r, es, key)
    ensures Serves(Run(c, r, es), key)
    ensures Run(c, r, es).lbs[key].access == r.lbs[key].access + Counting(c, r, es, key)
    ensures r.lbs[key].access <= c.probeNum ==> Run(c, r, es).lbs[key].access <= c.probeNum
    decreases |es|
  {
    hide Step, Probed, HasOverloaded, Partition;
    if es != [] {
      var init, last := es[..|es| - 1], es[|es| - 1];
      assert es == init + [last];
      RunAppend(c, r, init, last);
      StaysAborted(c, Run(c, r, init), last);
      forall i | 0 <= i < |init| ensures !Probed(c, Run(c, r, init[..i]), init[i], key) {
        assert init[..i] == es[..i];
      }
      CounterCounts(c, r, init, key);
      ServesOn(c, Run(c, r, init), last, key);
      if Asks(last, key) {
        ProbeStep(c, Run(c, r, init), last, key);
      }
    }
  }

  /** The distance of probes: from one probe on, reports, answers and resets may come between the
      requests as they like; the next probe is made at the first request for which a host is
      overloaded and `probeNum` requests have been made while one was. */
  lemma ProbeDistance(c: Config, r: Router, first: Event, es: seq<Event>, next: Event, key: nat)
    requires !r.aborted && Serves(r, key) && Probed(c, r, first, key) && Asks(next, key)
    requires var r1 := Step(c, r, first);
      Stays(es, key) && NoProbe(c, r1, es, key) && !Run(c, r1, es).aborted
    ensures var r1 := Step(c, r, first);
      var r2, n := Run(c, r1, es), Counting(c, r1, es, key);
      && key in r2.lbs && n <= c.probeNum
      && (Probed(c, r2, next, key) <==> HasOverloaded(r2.lbs[key]) && n == c.probeNum)
  {
    hide Step, Probed, HasOverloaded, Partition, NoProbe, Counting, Run;
    ProbedAsks(c, r, first, key);
    ProbeStep(c, r, first, key);
    CounterCounts(c, Step(c, r, first), es, key);
    ProbeStep(c, Run(c, Step(c, r, first), es), next, key);
  }
}
