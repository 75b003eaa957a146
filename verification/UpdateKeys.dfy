/**
 What the key of `update`, as its text reads, means for a whole agent: reports that name a port are
 not taken by any balancer, in any run.
 */
module UpdateKeys {
  import opened Seqs
  import opened Keys
  import opened HostModel
  import opened LoadBalance
  import opened RouteLb

  /** A response files every host under the key `update` computes, at ports for which the shift is
      defined. */
  ghost predicate AsWritten(e: Event) {
    e.UpdateHost? ==> forall k <- e.hosts :: exists ip: int, port: nat | port < 32 :: k == ShiftKey(ip, port)
  }

  ghost predicate NoPorts(r: Router) {
    forall k <- r.lbs, h <- r.lbs[k].hosts :: h % WORD == 0
  }

  lemma StepKeepsNoPorts(c: Config, r: Router, e: Event)
    requires NoPorts(r) && AsWritten(e)
    ensures NoPorts(Step(c, r, e))
  {
    hide Reported, Requeued, ShiftKey, Keep, FirstNew, PickIdle, PickOver;
    if e.UpdateHost? {
      forall k <- e.hosts ensures k % WORD == 0 {
        var ip: int, port: nat :| port < 32 && k == ShiftKey(ip, port);
        ShiftKeyLowHalf(ip, port);
      }
    } else if e.GetHost? && e.key in r.lbs {
      PickKeepsHosts(c, r.lbs[e.key]);
    }
  }

  lemma {:induction false} RunKeepsNoPorts(c: Config, r: Router, es: seq<Event>)
    requires NoPorts(r) && forall e <- es :: AsWritten(e)
    ensures NoPorts(Run(c, r, es))
    decreases |es|
  {
    hide NoPorts, AsWritten;
    if es != [] {
      StepKeepsNoPorts(c, r, es[0]);
      RunKeepsNoPorts(c, Step(c, r, es[0]), es[1..]);
    }
  }

  /** In every run of the agent, a report for a host with a positive port changes nothing. */
  lemma ReportsNotTaken(c: Config, es: seq<Event>, key: nat, ip: int, port: int, ok: bool, now: int, stamp: int)
    requires forall e <- es :: AsWritten(e)
    requires (Int32(ip) || Uint32(ip)) && 0 < port < HALF
    ensures var r := Run(c, Start, es);
      Step(c, r, ReportHost(key, Pack(ip, port), ok, now, stamp)) == r
  {
    hide Reported, Requeued, Run, AsWritten, Pack;
    RunKeepsNoPorts(c, Start, es);
    PackHalves(ip, port);
  }
}
