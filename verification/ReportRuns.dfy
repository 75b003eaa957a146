/**
 What the reports of a run do to one host: its record is the one the calls reported for it give,
 whatever requests, answers, resets and reports for others come between them.
 */
module ReportRuns {
  import opened HostModel
  import opened LoadBalance
  import opened RouteLb
  import H = Hysteresis

  /** The calls a run reports for one host. */
  function CallsTo(es: seq<Event>, key: nat, host: nat): seq<H.Call> {
    if es == [] then []
    else CallsTo(es[..|es| - 1], key, host) + CallIn(es[|es| - 1], key, host)
  }

  function CallIn(e: Event, key: nat, host: nat): seq<H.Call> {
    if e.ReportHost? && e.key == key && e.host == host then [H.Call(e.ok, e.now, e.stamp)] else []
  }

  /** No answer leaves the host out. */
  ghost predicate Keeps(es: seq<Event>, key: nat, host: nat) {
    forall e <- es | e.UpdateHost? && e.key == key :: host in e.hosts
  }

  ghost predicate Knows(r: Router, key: nat, host: nat) {
    key in r.lbs && host in r.lbs[key].hosts
  }

  lemma RecordStep(c: Config, r: Router, e: Event, key: nat, host: nat)
    requires !r.aborted && Knows(r, key, host) && Keeps([e], key, host)
    ensures Knows(Step(c, r, e), key, host)
    ensures Step(c, r, e).lbs[key].hosts[host] == H.Run(c, r.lbs[key].hosts[host], CallIn(e, key, host))
  {
    hide Reported, Requeued, Seqs.Keep, Seqs.FirstNew, PickIdle, PickOver;
    assert e in [e];
    var h := r.lbs[key].hosts[host];
    if e.ResetAll? || e.key != key {
      OthersUntouched(c, r, e, key);
    } else if e.GetHost? {
      PickKeepsHosts(c, r.lbs[key]);
    } else if CallIn(e, key, host) != [] {
      var call := CallIn(e, key, host)[0];
      assert CallIn(e, key, host)[1..] == [];
      assert H.Run(c, Reported(c, h, call.ok, call.now, call.stamp), []) == Reported(c, h, call.ok, call.now, call.stamp);
    }
  }

  lemma {:induction false} RunTwo(c: Config, h: Host, a: seq<H.Call>, b: seq<H.Call>)
    ensures H.Run(c, h, a + b) == H.Run(c, H.Run(c, h, a), b)
    decreases |a|
  {
    hide Reported;
    if a == [] {
      assert a + b == b;
    } else {
      assert (a + b)[1..] == a[1..] + b;
      RunTwo(c, Reported(c, h, a[0].ok, a[0].now, a[0].stamp), a[1..], b);
    }
  }

  /** The record of a host after any run is that of the calls reported for it. */
  lemma {:induction false} HostHistory(c: Config, r: Router, es: seq<Event>, key: nat, host: nat)
    requires Knows(r, key, host) && Keeps(es, key, host) && !Run(c, r, es).aborted
    ensures Knows(Run(c, r, es), key, host)
    ensures Run(c, r, es).lbs[key].hosts[host] == H.Run(c, r.lbs[key].hosts[host], CallsTo(es, key, host))
    decreases |es|
  {
    hide Step, H.Run;
    if es == [] {
      NoCallsRun(c, r.lbs[key].hosts[host]);
    } else {
      var init, last := es[..|es| - 1], es[|es| - 1];
      assert es == init + [last];
      RunAppend(c, r, init, last);
      AbortedAfter(c, Run(c, r, init), last);
      HostHistory(c, r, init, key, host);
      RecordStep(c, Run(c, r, init), last, key, host);
      RunTwo(c, r.lbs[key].hosts[host], CallsTo(init, key, host), CallIn(last, key, host));
    }
  }

  lemma NoCallsRun(c: Config, h: Host)
    ensures H.Run(c, h, []) == h
  {
  }

  lemma AbortedAfter(c: Config, r: Router, e: Event)
    ensures r.aborted ==> Step(c, r, e).aborted
  {
  }

  /** So the hysteresis is that of `report_host`: a host that has just entered its queue changes state
      with the first report at which the calls reported for it since are due, and not before. */
  lemma HostMovesWhenDue(c: Config, r: Router, es: seq<Event>, key: nat, host: nat)
    requires Knows(r, key, host) && Keeps(es, key, host) && !Run(c, r, es).aborted
    requires var h, calls := r.lbs[key].hosts[host], CallsTo(es, key, host);
      && Seeded(c, h) && H.JustEntered(h) && H.InsideWindow(c, h, calls) && calls != []
      && H.NeverDue(c, h.overload, calls[..|calls| - 1])
    ensures Knows(Run(c, r, es), key, host)
    ensures var h := r.lbs[key].hosts[host];
      Run(c, r, es).lbs[key].hosts[host].overload != h.overload <==> H.Due(c, h.overload, CallsTo(es, key, host))
  {
    hide Run, H.Run, H.Due, H.NeverDue;
    HostHistory(c, r, es, key, host);
    H.MovesWhenDue(c, r.lbs[key].hosts[host], CallsTo(es, key, host));
  }

  /** And as long as nothing is due, what `commit` sends for it are the numbers of calls reported. */
  lemma CommitCountsReports(c: Config, r: Router, es: seq<Event>, key: nat, host: nat)
    requires Knows(r, key, host) && Keeps(es, key, host) && !Run(c, r, es).aborted
    requires var h, calls := r.lbs[key].hosts[host], CallsTo(es, key, host);
      && H.JustEntered(h) && H.InsideWindow(c, h, calls) && H.NeverDue(c, h.overload, calls)
    requires Sane(c) && AllInv(c, r)
    ensures Knows(Run(c, r, es), key, host) && Partition(Run(c, r, es).lbs[key])
    ensures var b := Run(c, r, es).lbs[key];
      CallResult(host, H.Outcomes(CallsTo(es, key, host), true), H.Outcomes(CallsTo(es, key, host), false),
                 r.lbs[key].hosts[host].overload)
        in ResultsOf(b.hosts, b.idle, false) + ResultsOf(b.hosts, b.over, true)
  {
    hide Run, H.Run, H.NeverDue, ResultsOf, WithinLimits;
    EveryRunIsSafe(c, r, es);
    HostHistory(c, r, es, key, host);
    H.StaysAndCounts(c, r.lbs[key].hosts[host], CallsTo(es, key, host));
    CommitNamesEachHostOnce(Run(c, r, es).lbs[key]);
  }

  /** A report touches the host it names, and no other host, key or pull. */
  lemma ReportTouchesOne(c: Config, r: Router, e: Event, key: nat, host: nat)
    requires !r.aborted && e.ReportHost? && Knows(r, key, host) && (e.key != key || e.host != host)
    ensures Knows(Step(c, r, e), key, host) && Step(c, r, e).lbs[key].hosts[host] == r.lbs[key].hosts[host]
    ensures Step(c, r, e).lbs.Keys == r.lbs.Keys && Step(c, r, e).pulls == r.pulls
  {
    hide Reported, Requeued;
  }
}
