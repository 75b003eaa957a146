/**
 `route_lb` as an object: a table of balancers updated in place.  Each method is one
 critical section and is proved to do what `RouteLb` says.
 */
module RouteLbObjects {
  import opened HostModel
  import opened LoadBalance
  import opened LoadBalanceObjects
  import opened RouteLb
  import opened Keys

  datatype RetCode = SUCC | OVERLOAD | NOEXIST

  /** What reaches the table: requests for a host or a route, answers of the DNS service, reports, and
      the reset after a reconnection. */
  datatype Request =
    | AskHost(key: nat, now: int, access: int, lastUpdate: int)
    | AskRoute(key: nat, now: int, access: int, lastUpdate: int)
    | Answered(key: nat, rsp: seq<(nat, int)>, now: int, stamps: nat -> (int, int))
    | Reported(key: nat, ip: int, port: int, retcode: int, now: int, stamp: int)
    | Reconnected

  function KeysIn(updateKey: (nat, int) -> nat, rsp: seq<(nat, int)>): seq<nat> {
    seq<nat>(|rsp|, i requires 0 <= i < |rsp| => updateKey(rsp[i].0, rsp[i].1))
  }

  function EventOf(updateKey: (nat, int) -> nat, q: Request): Event {
    match q
    case AskHost(key, now, access, lastUpdate) => Event.GetHost(key, now, access, lastUpdate)
    case AskRoute(key, now, access, lastUpdate) => Event.GetRoute(key, now, access, lastUpdate)
    case Answered(key, rsp, now, stamps) => Event.UpdateHost(key, KeysIn(updateKey, rsp), now, stamps)
    case Reported(key, ip, port, retcode, now, stamp) => Event.ReportHost(key, Pack(ip, port), retcode == 0, now, stamp)
    case Reconnected => ResetAll
  }

  function EventsOf(updateKey: (nat, int) -> nat, qs: seq<Request>): seq<Event> {
    seq(|qs|, i requires 0 <= i < |qs| => EventOf(updateKey, qs[i]))
  }

  /** What a request is told. */
  datatype Told = Nothing | NoSuchHost | Told(answer: Answer)

  /** The address given is that of the host the run on values names. */
  predicate Says(updateKey: (nat, int) -> nat, told: Told, reply: Reply) {
    match reply
    case Silent => told == Nothing
    case NotThere => told == NoSuchHost
    case Gave(Overloaded) => told == Told.Told(Refused)
    case Gave(Chosen(k)) => told.Told? && told.answer.Served? && updateKey(told.answer.ip, told.answer.port) == k
  }

  lemma {:induction false} AbortedSilent(c: Config, r: Router, es: seq<Event>)
    requires r.aborted
    ensures Replies(c, r, es) == seq(|es|, _ => Silent)
    decreases |es|
  {
    if es != [] {
      AbortedSilent(c, r, es[1..]);
    }
  }

  lemma {:induction false} AbortedStays(c: Config, r: Router, es: seq<Event>)
    requires r.aborted
    ensures RouteLb.Run(c, r, es) == r
    decreases |es|
  {
    if es != [] {
      AbortedStays(c, r, es[1..]);
    }
  }

  class RouteLbObject {
    const cfg: Config
    const updateKey: (nat, int) -> nat
    var lbs: map<nat, BalancerObject>
    var dnsQueue: seq<nat>

    ghost function Hosts(): set<HostInfo>
      reads this, lbs.Values
    {
      set k, h | k in lbs && h in lbs[k].hostMap.Values :: h
    }

    /** All objects a critical section may change. */
    ghost function Footprint(): set<object>
      reads this, lbs.Values
    {
      {this} + lbs.Values + Hosts()
    }

    ghost predicate Separate()
      reads this, lbs.Values
    {
      forall j, k | j in lbs && k in lbs && j != k ::
        lbs[j] != lbs[k] && lbs[j].hostMap.Values !! lbs[k].hostMap.Values
    }

    ghost predicate Valid()
      reads this, lbs.Values, Hosts()
    {
      && Separate()
      && forall k <- lbs :: lbs[k].Valid() && lbs[k].cfg == cfg && lbs[k].updateKey == updateKey
    }

    ghost function State(): Router
      reads this, lbs.Values, Hosts()
    {
      Router(map k | k in lbs :: lbs[k].State(), dnsQueue, false)
    }

    constructor (c: Config, updateKey: (nat, int) -> nat)
      ensures Valid() && cfg == c && this.updateKey == updateKey && State() == Start && lbs == map[]
    {
      cfg, this.updateKey := c, updateKey;
      lbs, dnsQueue := map[], [];
    }

    /** Nothing but the balancer under `key` and its hosts has changed. */
    twostate lemma OthersKept(key: nat)
      requires old(Valid()) && lbs == old(lbs) && key in lbs
      requires forall k <- lbs | k != key :: unchanged(lbs[k]) && forall h <- lbs[k].hostMap.Values :: unchanged(h)
      requires lbs[key].Valid() && forall h <- lbs[key].hostMap.Values :: h in old(lbs[key].hostMap.Values) || !old(allocated(h))
      ensures Valid() && State() == old(State()).(lbs := old(State()).lbs[key := lbs[key].State()], pulls := dnsQueue)
    {
      hide BalancerObject.StateNow, Partition, BalancerObject.Listed, BalancerObject.KeyOf;
    }

    /** `pull`. */
    method Pull(key: nat, lb: BalancerObject)
      requires Valid() && key in lbs && lbs[key] == lb
      modifies this`dnsQueue, lb`status
      ensures Valid() && State() == Pulled(old(State()), key, old(lb.State()))
    {
      hide BalancerObject.Valid, BalancerObject.State;
      dnsQueue := dnsQueue + [key];
      lb.SetStatus(PULLING);
      OthersKept(key);
    }

    lemma StatesBefore()
      ensures State().lbs.Keys == lbs.Keys && State().pulls == dnsQueue && !State().aborted
      ensures forall k <- lbs :: State().lbs[k] == lbs[k].State()
    {
      hide BalancerObject.State;
    }

    /** An empty balancer was added under `key`, and nothing else has changed. */
    twostate lemma OneAdded(key: nat, new lb: BalancerObject)
      requires old(Valid()) && key !in old(lbs) && lbs == old(lbs)[key := lb] && fresh(lb)
      requires forall k <- old(lbs) :: unchanged(lbs[k]) && forall h <- lbs[k].hostMap.Values :: unchanged(h)
      requires lb.Valid() && lb.hostMap == map[] && lb.cfg == cfg && lb.updateKey == updateKey
      ensures Valid() && forall k <- old(lbs) :: lbs[k].State() == old(lbs[k].State())
    {
      hide BalancerObject.StateNow, Partition, BalancerObject.Listed, BalancerObject.KeyOf;
    }

    lemma StatesAdded(was: Router, key: nat)
      requires lbs.Keys == was.lbs.Keys + {key} && !was.aborted && was.pulls == dnsQueue
      requires forall k <- was.lbs | k != key :: lbs[k].State() == was.lbs[k]
      ensures State() == was.(lbs := was.lbs[key := lbs[key].State()])
    {
      hide BalancerObject.State;
    }

    /** A new, empty balancer is filed under `key`. */
    method Create(key: nat, access: int, lastUpdate: int) returns (lb: BalancerObject)
      requires Valid() && key !in lbs
      modifies this`lbs
      ensures Valid() && fresh(lb) && lbs == old(lbs)[key := lb] && lb.hostMap == map[]
      ensures lb.State() == Created(access, lastUpdate)
      ensures State() == old(State()).(lbs := old(State()).lbs[key := Created(access, lastUpdate)])
    {
      hide BalancerObject.Valid, BalancerObject.State, Created, State, Valid;
      ghost var r := State();
      StatesBefore();
      lb := new BalancerObject(cfg, updateKey, access, lastUpdate);
      lbs := lbs[key := lb];
      OneAdded(key, lb);
      StatesAdded(r, key);
    }

    method Choose(key: nat, lb: BalancerObject) returns (answer: Answer)
      requires Valid() && key in lbs && lbs[key] == lb && lb.hostMap != map[]
      modifies lb`idleList, lb`overloadList, lb`accessCnt
      ensures Valid()
      ensures old(lb.State().idle != [] || lb.State().over != [])
      ensures var (next, choice) := Pick(cfg, old(lb.State()));
        State() == old(State()).(lbs := old(State()).lbs[key := next]) && lb.State() == next && lb.Answers(answer, choice)
    {
      hide BalancerObject.Valid, BalancerObject.State, BalancerObject.Answers, Pick;
      answer := lb.ChoiceOneHost();
      OthersKept(key);
    }

    method GetHost(key: nat, now: int, access: int, lastUpdate: int)
      returns (ret: RetCode, code: RetCode, answer: Answer, aborted: bool)
      requires Valid()
      modifies this, lbs.Values
      ensures Valid()
      ensures fresh(Footprint() - old(Footprint()))
      ensures State().(aborted := aborted) == AfterGetHost(cfg, old(State()), key, now, access, lastUpdate)
      ensures key !in old(lbs) ==> ret == code == NOEXIST
      ensures key in old(lbs) && old(lbs[key].hostMap) == map[] ==> code == NOEXIST && ret == SUCC
      ensures key in old(lbs) && old(lbs[key].hostMap) != map[] ==>
        && ret == code == (if answer == Refused then OVERLOAD else SUCC)
        && old(lbs[key].State().idle != [] || lbs[key].State().over != [])
        && lbs == old(lbs) && lbs[key].Answers(answer, Pick(cfg, old(lbs[key].State())).1)
    {
      hide Partition, BalancerObject.Valid, BalancerObject.State, BalancerObject.Answers, State, Valid, Pick;
      StatesBefore();
      ret, code, answer, aborted := SUCC, NOEXIST, Refused, false;
      if key in lbs {
        var lb := lbs[key];
        lb.Fields();
        if lb.hostMap == map[] {
          aborted := lb.status != PULLING;
        } else {
          answer := Serve(key, lb, now);
          ret := if answer == Refused then OVERLOAD else SUCC;
          code := ret;
        }
      } else {
        CreateAndPull(key, access, lastUpdate);
        ret := NOEXIST;
      }
    }

    method Serve(key: nat, lb: BalancerObject, now: int) returns (answer: Answer)
      requires Valid() && key in lbs && lbs[key] == lb && lb.hostMap != map[]
      modifies this`dnsQueue, lb`idleList, lb`overloadList, lb`accessCnt, lb`status
      ensures Valid()
      ensures old(lb.State().idle != [] || lb.State().over != [])
      ensures var (next, choice) := Pick(cfg, old(lb.State()));
        State() == Refreshed(cfg, old(State()), key, next, now) && lb.Answers(answer, choice)
    {
      hide Partition, BalancerObject.Valid, BalancerObject.State, State, Valid, Pick;
      answer := Choose(key, lb);
      Refresh(key, lb, now);
    }

    /** Pulls again when the route is out of date. */
    method Refresh(key: nat, lb: BalancerObject, now: int)
      requires Valid() && key in lbs && lbs[key] == lb
      modifies this`dnsQueue, lb`status
      ensures Valid() && State() == Refreshed(cfg, old(State()), key, old(lb.State()), now)
    {
      hide Partition, BalancerObject.Valid, BalancerObject.State, State, Valid;
      StatesBefore();
      lb.Fields();
      if lb.status == NEW && now - lb.lastUpdateTime > cfg.updateTimeout {
        Pull(key, lb);
      }
    }

    method CreateAndPull(key: nat, access: int, lastUpdate: int)
      requires Valid() && key !in lbs
      modifies this
      ensures Valid() && State() == Pulled(old(State()), key, Created(access, lastUpdate))
      ensures lbs.Keys == old(lbs.Keys) + {key} && fresh(lbs[key]) && lbs[key].hostMap == map[]
      ensures forall k <- old(lbs) :: lbs[k] == old(lbs[k])
    {
      hide Partition, BalancerObject.Valid, BalancerObject.State, State, Valid, Created;
      var lb := Create(key, access, lastUpdate);
      Pull(key, lb);
    }

    /** `get_route`; the answer lists every host of the balancer. */
    method GetRoute(key: nat, now: int, access: int, lastUpdate: int) returns (ret: RetCode, rsp: set<(nat, int)>)
      requires Valid()
      modifies this, lbs.Values
      ensures fresh(Footprint() - old(Footprint()))
      ensures Valid() && State() == AfterGetRoute(cfg, old(State()), key, now, access, lastUpdate)
      ensures ret == if key in old(lbs) then SUCC else NOEXIST
      ensures rsp == if key in old(lbs) then set h <- old(lbs[key].hostMap.Values) :: (h.ip, h.port) else {}
    {
      hide Partition, BalancerObject.Valid, BalancerObject.State, State, Valid, Created;
      StatesBefore();
      rsp := {};
      if key in lbs {
        rsp := set h <- lbs[key].hostMap.Values :: (h.ip, h.port);
        Refresh(key, lbs[key], now);
        ret := SUCC;
      } else {
        CreateAndPull(key, access, lastUpdate);
        ret := NOEXIST;
      }
    }

    method UpdateHost(key: nat, rsp: seq<(nat, int)>, now: int, stamps: nat -> (int, int))
      requires Valid()
      modifies this`lbs, lbs.Values
      ensures Valid()
      ensures fresh(Footprint() - old(Footprint()))
      ensures State() == AfterUpdateHost(cfg, old(State()), key, KeysIn(updateKey, rsp), now, stamps)
    {
      hide BalancerObject.Valid, BalancerObject.State, State, Valid, Reconciled;
      StatesBefore();
      if key in lbs {
        if rsp == [] {
          Remove(key);
        } else {
          Reconcile(key, lbs[key], rsp, now, stamps);
        }
      }
    }

    method Remove(key: nat)
      requires Valid() && key in lbs
      modifies this`lbs
      ensures Valid() && State() == old(State()).(lbs := old(State()).lbs - {key}) && lbs == old(lbs) - {key}
    {
      hide BalancerObject.StateNow, Partition, BalancerObject.Listed, BalancerObject.KeyOf;
      lbs := lbs - {key};
    }

    method Reconcile(key: nat, lb: BalancerObject, rsp: seq<(nat, int)>, now: int, stamps: nat -> (int, int))
      requires Valid() && key in lbs && lbs[key] == lb && rsp != []
      modifies lb
      ensures Valid() && fresh(lb.hostMap.Values - old(lb.hostMap.Values))
      ensures
        key in old(State()).lbs && State() == old(State()).(lbs :=
          old(State()).lbs[key := Reconciled(cfg, old(State()).lbs[key], KeysIn(updateKey, rsp), now, stamps)])
    {
      hide BalancerObject.Valid, BalancerObject.State, State, Reconciled;
      StatesBefore();
      lb.Update(rsp, now, stamps);
      assert lb.ResponseKeys(rsp) == KeysIn(updateKey, rsp);
      OthersKept(key);
    }

    /** `report_host`; `sends` says whether `commit` queues a report, `sent` what it holds. */
    method ReportHost(key: nat, ip: int, port: int, retcode: int, now: int, stamp: int)
      returns (sends: bool, sent: seq<HostCallResult>)
      requires Valid()
      modifies lbs.Values, Hosts()
      ensures Valid() && Footprint() == old(Footprint())
      ensures State() == AfterReportHost(cfg, old(State()), key, Pack(ip, port), retcode == 0, now, stamp)
      ensures sends <==> key in lbs && lbs[key].hostMap != map[]
      ensures key in lbs ==>
        var b := lbs[key].State();
        && (forall k <- b.idle :: k in b.hosts) && (forall k <- b.over :: k in b.hosts)
        && lbs[key].Reports(sent, ResultsOf(b.hosts, b.idle, false) + ResultsOf(b.hosts, b.over, true))
    {
      hide BalancerObject.Valid, BalancerObject.State, State, Valid, ReportAt, Pack, ResultsOf, BalancerObject.Reports;
      StatesBefore();
      sends, sent := false, [];
      if key in lbs {
        sends, sent := ReportTo(key, lbs[key], ip, port, retcode, now, stamp);
      }
    }

    method ReportTo(key: nat, lb: BalancerObject, ip: int, port: int, retcode: int, now: int, stamp: int)
      returns (sends: bool, sent: seq<HostCallResult>)
      requires Valid() && key in lbs && lbs[key] == lb
      modifies lb`idleList, lb`overloadList, lb.hostMap.Values
      ensures Valid() && (sends <==> lb.hostMap != map[])
      ensures var b := lb.State();
        && (forall k <- b.idle :: k in b.hosts) && (forall k <- b.over :: k in b.hosts)
        && lb.Reports(sent, ResultsOf(b.hosts, b.idle, false) + ResultsOf(b.hosts, b.over, true))
      ensures key in old(State()).lbs && State() == old(State()).(lbs :=
        old(State()).lbs[key := ReportAt(cfg, old(State()).lbs[key], Pack(ip, port), retcode == 0, now, stamp)])
    {
      hide BalancerObject.Valid, BalancerObject.State, State, ReportAt, Pack, ResultsOf, BalancerObject.Reports;
      StatesBefore();
      lb.Report(ip, port, retcode, now, stamp);
      sends, sent := CommitOf(lb);
      OthersKept(key);
    }

    method CommitOf(lb: BalancerObject) returns (sends: bool, sent: seq<HostCallResult>)
      requires lb.Valid()
      ensures sends <==> lb.hostMap != map[]
      ensures lb.Valid() && lb.State() == old(lb.State())
      ensures var b := lb.State();
        && (forall k <- b.idle :: k in b.hosts) && (forall k <- b.over :: k in b.hosts)
        && lb.Reports(sent, ResultsOf(b.hosts, b.idle, false) + ResultsOf(b.hosts, b.over, true))
    {
      hide BalancerObject.Consistent, BalancerObject.StateNow, BalancerObject.Reports, ResultsOf;
      sends, sent := lb.Commit();
    }

    /** The entries outside `rest` reset. */
    static ghost function ResetBut(r: Router, rest: set<nat>): Router {
      r.(lbs := map k | k in r.lbs :: if k in rest then r.lbs[k] else r.lbs[k].(status := NEW))
    }

    lemma ResetButBounds(r: Router)
      ensures ResetBut(r, r.lbs.Keys) == r && ResetBut(r, {}) == AfterReset(r)
    {
    }

    lemma ResetButOne(r: Router, rest: set<nat>, key: nat)
      requires key in rest && key in r.lbs
      ensures key in ResetBut(r, rest).lbs
      ensures var was := ResetBut(r, rest);
        ResetBut(r, rest - {key}) == was.(lbs := was.lbs[key := was.lbs[key].(status := NEW)])
    {
    }

    method ResetLbStatus()
      requires Valid()
      modifies lbs.Values`status
      ensures Valid() && State() == AfterReset(old(State())) && Footprint() == old(Footprint())
    {
      hide BalancerObject.Valid, BalancerObject.State, State, Valid, ResetBut, AfterReset;
      StatesBefore();
      ghost var r := State();
      var rest := lbs.Keys;
      ResetButBounds(r);
      while rest != {}
        invariant rest <= lbs.Keys == r.lbs.Keys
        invariant Valid() && State() == ResetBut(r, rest)
      {
        var key :| key in rest;
        ResetButOne(r, rest, key);
        ResetOne(key, lbs[key]);
        rest := rest - {key};
      }
      SameFootprint();
    }

    twostate lemma SameFootprint()
      requires lbs == old(lbs) && forall k <- lbs :: lbs[k].hostMap == old(lbs[k].hostMap)
      ensures Footprint() == old(Footprint())
    {
    }

    method ResetOne(key: nat, lb: BalancerObject)
      requires Valid() && key in lbs && lbs[key] == lb
      modifies lb`status
      ensures Valid() && key in old(State()).lbs
      ensures State() == old(State()).(lbs := old(State()).lbs[key := old(State()).lbs[key].(status := NEW)])
    {
      hide BalancerObject.Valid, BalancerObject.State, State;
      StatesBefore();
      lb.Fields();
      if lb.status == PULLING {
        lb.SetStatus(NEW);
      }
      OthersKept(key);
    }

    // ----- Runs -----

    method Ask(key: nat, now: int, access: int, lastUpdate: int) returns (goesOn: bool, told: Told)
      requires Valid()
      modifies this, lbs.Values
      ensures Valid() && fresh(Footprint() - old(Footprint()))
      ensures State().(aborted := !goesOn) == AfterGetHost(cfg, old(State()), key, now, access, lastUpdate)
      ensures Says(updateKey, told, ReplyTo(cfg, old(State()), Event.GetHost(key, now, access, lastUpdate)))
    {
      hide Valid, State, BalancerObject.State, BalancerObject.Answers, Pick;
      StatesBefore();
      if key in lbs {
        lbs[key].Fields();
      }
      ghost var was := State();
      var ret, code, answer, aborted := GetHost(key, now, access, lastUpdate);
      goesOn := !aborted;
      told := if aborted then Nothing else if code == NOEXIST then NoSuchHost else Told.Told(answer);
      if key in was.lbs && was.lbs[key].hosts != map[] {
        StatesBefore();
        AnswerNames(lbs[key], answer, Pick(cfg, was.lbs[key]).1);
      }
    }

    lemma AnswerNames(lb: BalancerObject, answer: Answer, choice: Choice)
      requires Valid() && lb in lbs.Values && lb.Answers(answer, choice)
      ensures Says(updateKey, Told.Told(answer), Gave(choice))
    {
      hide BalancerObject.State;
    }

    /** One critical section.  It goes on unless the assertion in `get_host` fails. */
    method Handle(q: Request) returns (goesOn: bool, told: Told)
      requires Valid()
      modifies Footprint()
      ensures Valid() && fresh(Footprint() - old(Footprint()))
      ensures State().(aborted := !goesOn) == Step(cfg, old(State()), EventOf(updateKey, q))
      ensures Says(updateKey, told, ReplyTo(cfg, old(State()), EventOf(updateKey, q)))
    {
      hide Valid, State, BalancerObject.State, BalancerObject.Answers, BalancerObject.Reports, Pick, ResultsOf, Pack;
      hide AfterGetHost, AfterGetRoute, AfterUpdateHost, AfterReportHost, AfterReset;
      StatesBefore();
      goesOn, told := true, Nothing;
      match q {
        case AskHost(key, now, access, lastUpdate) =>
          goesOn, told := Ask(key, now, access, lastUpdate);
        case AskRoute(key, now, access, lastUpdate) =>
          var ret, rsp := GetRoute(key, now, access, lastUpdate);
        case Answered(key, rsp, now, stamps) =>
          UpdateHost(key, rsp, now, stamps);
        case Reported(key, ip, port, retcode, now, stamp) =>
          var sends, sent := ReportHost(key, ip, port, retcode, now, stamp);
        case Reconnected =>
          ResetLbStatus();
      }
      StatesBefore();
    }

    lemma SilentSaysNothing()
      ensures Says(updateKey, Nothing, Silent)
    {
    }

    /** Any requests, answers, reports and resets in any order take the object through the states of
        `RouteLb.Run`, and every request is told what that run replies, so that everything proved about
        those runs holds of it. */
    method Run(qs: seq<Request>) returns (aborted: bool, tolds: seq<Told>)
      requires Valid()
      modifies Footprint()
      ensures Valid() && fresh(Footprint() - old(Footprint()))
      ensures State().(aborted := aborted) == RouteLb.Run(cfg, old(State()), EventsOf(updateKey, qs))
      ensures |tolds| == |qs|
      ensures forall i | 0 <= i < |qs| :: Says(updateKey, tolds[i], Replies(cfg, old(State()), EventsOf(updateKey, qs))[i])
      decreases |qs|
    {
      hide Valid, State, Step, EventOf, Says, ReplyTo;
      StatesBefore();
      aborted, tolds := false, [];
      if qs != [] {
        assert EventsOf(updateKey, qs)[1..] == EventsOf(updateKey, qs[1..]);
        var goesOn, told := Handle(qs[0]);
        var later;
        StatesBefore();
        if goesOn {
          ghost var now := Footprint();
          aborted, later := Run(qs[1..]);
          assert Footprint() - old(Footprint()) <= (Footprint() - now) + (now - old(Footprint()));
        } else {
          aborted, later := true, seq(|qs| - 1, _ => Nothing);
          AbortedStays(cfg, State().(aborted := true), EventsOf(updateKey, qs[1..]));
          AbortedSilent(cfg, State().(aborted := true), EventsOf(updateKey, qs[1..]));
          SilentSaysNothing();
        }
        tolds := [told] + later;
      }
    }
  }
}
