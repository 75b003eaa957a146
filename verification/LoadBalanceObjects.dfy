/**
 The agent's objects as the source keeps them: `host_info` records updated in place, a table
 of them, and two lists of references.  Every method is proved to do what the functions of
 `HostModel` and `LoadBalance` say.

 `updateKey` is the key under which `update` files a host.  It is left open, so everything
 here holds whatever that computation yields.
 */
module LoadBalanceObjects {
  import opened Seqs
  import opened HostModel
  import opened LoadBalance
  import opened Keys

  class HostInfo {
    const ip: nat
    const port: int
    var vsucc: nat
    var verr: nat
    var rsucc: nat
    var rerr: nat
    var continSucc: nat
    var continErr: nat
    var overload: bool
    var idleTs: int
    var overloadTs: int

    ghost function Value(): Host
      reads this
    {
      Host(vsucc, verr, rsucc, rerr, continSucc, continErr, overload, idleTs, overloadTs)
    }

    constructor (ip: nat, port: int, c: Config, stamps: (int, int))
      ensures this.ip == ip && this.port == port && Value() == Fresh(c, stamps)
    {
      this.ip, this.port := ip, port;
      vsucc, verr, rsucc, rerr, continSucc, continErr := c.initSucc, 0, 0, 0, 0, 0;
      overload := false;
      idleTs, overloadTs := stamps.0, stamps.1;
    }

    method SetIdle(c: Config, stamp: int)
      modifies this
      ensures Value() == HostModel.SetIdle(c, old(Value()), stamp)
    {
      vsucc, verr, rsucc, rerr, continSucc, continErr := c.initSucc, 0, 0, 0, 0, 0;
      overload := false;
      idleTs := stamp;
    }

    method SetOverload(c: Config, stamp: int)
      modifies this
      ensures Value() == HostModel.SetOverload(c, old(Value()), stamp)
    {
      vsucc, verr, rsucc, rerr, continErr, continSucc := 0, c.initErr, 0, 0, 0, 0;
      overload := true;
      overloadTs := stamp;
    }

    method CheckWindow(c: Config) returns (r: bool)
      ensures r == HostModel.CheckWindow(c, Value())
    {
      if rsucc + rerr == 0 {
        return false;
      }
      return rerr as real / (rsucc + rerr) as real >= c.windowErrRate;
    }

    method Count(ok: bool)
      modifies this
      ensures Value() == Counted(old(Value()), ok)
    {
      if ok {
        vsucc, rsucc, continSucc, continErr := vsucc + 1, rsucc + 1, continSucc + 1, 0;
      } else {
        verr, rerr, continErr, continSucc := verr + 1, rerr + 1, continErr + 1, 0;
      }
    }

    /** The part of `report` that concerns one host: count the call, then check the counters,
        then the time window. */
    method Called(c: Config, ok: bool, now: int, stamp: int) returns (move: Move)
      modifies this
      ensures Value() == Reported(c, old(Value()), ok, now, stamp)
      ensures move == MoveOf(old(Value()), Value())
    {
      Count(ok);
      if !overload && !ok {
        var rate := verr as real / (vsucc + verr) as real;
        if rate > c.errRate || continErr >= c.continErrLimit {
          SetOverload(c, stamp);
          return ToOverload;
        }
      } else if overload && ok {
        var rate := vsucc as real / (vsucc + verr) as real;
        if rate > c.succRate || continSucc >= c.continSuccLimit {
          SetIdle(c, stamp);
          return ToIdle;
        }
      }
      if !overload {
        if now - idleTs >= c.idleTimeout {
          var tooMany := CheckWindow(c);
          if tooMany {
            SetOverload(c, stamp);
            return ToOverload;
          }
          SetIdle(c, stamp);
        }
      } else if now - overloadTs >= c.overloadTimeout {
        SetIdle(c, stamp);
        return ToIdle;
      }
      return Stay;
    }
  }

  ghost function ValuesOf(hosts: map<nat, HostInfo>): map<nat, Host>
    reads hosts.Values
  {
    map k | k in hosts :: hosts[k].Value()
  }

  /** The answer to a request for a host. */
  datatype Answer = Refused | Served(ip: nat, port: int)

  /** An entry of the report sent to the reporter service. */
  datatype HostCallResult = HostCallResult(ip: nat, port: int, succ: nat, err: nat, overload: bool)

  class BalancerObject {
    const cfg: Config
    const updateKey: (nat, int) -> nat
    var hostMap: map<nat, HostInfo>
    var idleList: seq<HostInfo>
    var overloadList: seq<HostInfo>
    var accessCnt: int
    var status: Status
    var lastUpdateTime: int

    ghost function KeyOf(h: HostInfo): nat { updateKey(h.ip, h.port) }

    ghost function KeysOf(hs: seq<HostInfo>): (ks: seq<nat>)
      ensures |ks| == |hs|
    {
      seq(|hs|, i requires 0 <= i < |hs| => KeyOf(hs[i]))
    }

    ghost predicate Listed(hosts: map<nat, HostInfo>, hs: seq<HostInfo>) {
      forall h <- hs :: KeyOf(h) in hosts && hosts[KeyOf(h)] == h
    }

    ghost predicate Valid()
      reads this, hostMap.Values
    {
      Consistent()
    }

    // The bodies of `Valid` and `State`, kept apart so that proofs can hide them and still know what
    // leaves `Valid` and `State` alone.
    ghost predicate Consistent()
      reads this, hostMap.Values
    {
      && (forall k <- hostMap :: KeyOf(hostMap[k]) == k)
      && Listed(hostMap, idleList) && Listed(hostMap, overloadList)
      && Partition(State())
    }

    ghost function State(): Balancer
      reads this, hostMap.Values
    {
      StateNow()
    }

    ghost function StateNow(): Balancer
      reads this, hostMap.Values
    {
      Balancer(ValuesOf(hostMap),
               KeysOf(idleList), KeysOf(overloadList), accessCnt, status, lastUpdateTime)
    }

    constructor (c: Config, updateKey: (nat, int) -> nat, access: int, lastUpdate: int)
      ensures Valid() && cfg == c && this.updateKey == updateKey
      ensures State() == Created(access, lastUpdate) && hostMap == map[]
    {
      cfg, this.updateKey := c, updateKey;
      hostMap, idleList, overloadList := map[], [], [];
      accessCnt, status, lastUpdateTime := access, PULLING, lastUpdate;
    }

    method ChoiceOneHost() returns (r: Answer)
      requires Valid() && hostMap != map[]
      modifies this`idleList, this`overloadList, this`accessCnt
      ensures Valid()
      ensures old(State().idle != [] || State().over != [])
      ensures State() == Pick(cfg, old(State())).0 && Answers(r, Pick(cfg, old(State())).1)
    {
      hide Consistent, StateNow, PickIdle, PickOver, Answers;
      CanServe();
      if idleList == [] {
        if accessCnt >= cfg.probeNum {
          r := ServeOver();
        } else {
          CountAccess();
          r := Refused;
          RefusedAnswers();
        }
      } else if overloadList == [] {
        r := ServeIdle();
      } else if accessCnt >= cfg.probeNum {
        r := ServeOver();
      } else {
        CountAccess();
        r := ServeIdle();
      }
    }

    lemma CanServe()
      requires Valid() && hostMap != map[]
      ensures State().idle == [] <==> idleList == []
      ensures State().over == [] <==> overloadList == []
      ensures State().access == accessCnt && (idleList != [] || overloadList != [])
    {
      Fields();
      NonEmptyServes(State());
    }

    /** The answer names the chosen host. */
    ghost predicate Answers(r: Answer, choice: Choice)
      reads this
    {
      match choice
      case Overloaded => r == Refused
      case Chosen(k) => k in hostMap && r == Served(hostMap[k].ip, hostMap[k].port)
    }

    lemma RefusedAnswers()
      ensures Answers(Refused, Overloaded)
    {
    }

    method CountAccess()
      requires Valid()
      modifies this`accessCnt
      ensures Valid() && State() == old(State()).(access := old(accessCnt) + 1)
    {
      accessCnt := accessCnt + 1;
    }

    /** `get_host_from_list` on the idle list. */
    method ServeIdle() returns (r: Answer)
      requires Valid() && idleList != []
      modifies this`idleList
      ensures Valid()
      ensures State() == PickIdle(old(State())).0 && Answers(r, PickIdle(old(State())).1)
    {
      RotatedElems(State().idle);
      var host := idleList[0];
      r := Served(host.ip, host.port);
      idleList := idleList[1..] + [host];
      assert KeysOf(idleList) == Rotated(old(KeysOf(idleList)));
    }

    /** A probe: the counter starts again and the overload list serves. */
    method ServeOver() returns (r: Answer)
      requires Valid() && overloadList != []
      modifies this`overloadList, this`accessCnt
      ensures Valid()
      ensures State() == PickOver(old(State())).0 && Answers(r, PickOver(old(State())).1)
    {
      RotatedElems(State().over);
      accessCnt := 0;
      var host := overloadList[0];
      r := Served(host.ip, host.port);
      overloadList := overloadList[1..] + [host];
      assert KeysOf(overloadList) == Rotated(old(KeysOf(overloadList)));
    }

    /** Removing a reference from a list removes its key from the list's keys. */
    lemma {:induction false} WithoutKeys(hosts: map<nat, HostInfo>, hs: seq<HostInfo>, h: HostInfo)
      requires Listed(hosts, hs) && Listed(hosts, [h])
      ensures Listed(hosts, Without(hs, h))
      ensures KeysOf(Without(hs, h)) == Without(KeysOf(hs), KeyOf(h))
    {
      assert h in [h];
      if hs != [] {
        var t := hs[1..];
        assert KeysOf(hs) == [KeyOf(hs[0])] + KeysOf(t);
        WithoutKeys(hosts, t, h);
        assert hs[0] in hs && (hs[0] == h <==> KeyOf(hs[0]) == KeyOf(h));
        if hs[0] != h {
          assert KeysOf([hs[0]] + Without(t, h)) == [KeyOf(hs[0])] + KeysOf(Without(t, h));
        }
      }
    }

    /** Takes a host from one list and appends it to the other. */
    method Requeue(h: HostInfo, move: Move)
      requires Listed(hostMap, idleList) && Listed(hostMap, overloadList) && Listed(hostMap, [h])
      modifies this`idleList, this`overloadList
      ensures Listed(hostMap, idleList) && Listed(hostMap, overloadList)
      ensures (KeysOf(idleList), KeysOf(overloadList)) ==
              Requeued(old(KeysOf(idleList)), old(KeysOf(overloadList)), KeyOf(h), move)
    {
      assert h in [h];
      match move {
        case ToOverload =>
          WithoutKeys(hostMap, idleList, h);
          idleList := Without(idleList, h);
          overloadList := overloadList + [h];
          assert KeysOf(overloadList) == old(KeysOf(overloadList)) + [KeyOf(h)];
        case ToIdle =>
          WithoutKeys(hostMap, overloadList, h);
          overloadList := Without(overloadList, h);
          idleList := idleList + [h];
          assert KeysOf(idleList) == old(KeysOf(idleList)) + [KeyOf(h)];
        case Stay =>
      }
    }

    method Report(ip: int, port: int, retcode: int, now: int, stamp: int)
      requires Valid()
      modifies this`idleList, this`overloadList, hostMap.Values
      ensures Valid()
      ensures State() == ReportAt(cfg, old(State()), Pack(ip, port), retcode == 0, now, stamp)
    {
      hide Pack, Partition, Reported, Requeued;
      var key := Pack(ip, port);
      if key in hostMap {
        ReportKnown(key, retcode == 0, now, stamp);
      }
    }

    method ReportKnown(key: nat, ok: bool, now: int, stamp: int)
      requires Valid() && key in hostMap
      modifies this`idleList, this`overloadList, hostMap.Values
      ensures Valid()
      ensures State() == ReportAt(cfg, old(State()), key, ok, now, stamp)
    {
      hide Partition, Reported, Requeued, KeysOf, ValuesOf, Listed, MoveOf;
      ghost var b := State();
      ReportKeepsPartition(cfg, b, key, ok, now, stamp);
      ValuesBefore();
      var h := hostMap[key];
      ListedOne(hostMap, key);
      var move := h.Called(cfg, ok, now, stamp);
      ValuesAfter(b.hosts, key);
      Requeue(h, move);
    }

    lemma ListedOne(hosts: map<nat, HostInfo>, key: nat)
      requires key in hosts && KeyOf(hosts[key]) == key
      ensures Listed(hosts, [hosts[key]])
    {
    }

    lemma ValuesBefore()
      ensures ValuesOf(hostMap).Keys == hostMap.Keys
      ensures forall k <- hostMap :: ValuesOf(hostMap)[k] == hostMap[k].Value()
    {
    }

    /** Only the host under `key` has changed. */
    lemma ValuesAfter(was: map<nat, Host>, key: nat)
      requires was.Keys == hostMap.Keys && key in was
      requires forall k <- hostMap | k != key :: hostMap[k].Value() == was[k]
      ensures ValuesOf(hostMap) == was[key := hostMap[key].Value()]
    {
    }

    // ----- update -----

    /** The keys of the hosts named by a response. */
    ghost function ResponseKeys(rsp: seq<(nat, int)>): seq<nat> {
      seq<nat>(|rsp|, i requires 0 <= i < |rsp| => updateKey(rsp[i].0, rsp[i].1))
    }

    method Update(rsp: seq<(nat, int)>, now: int, stamps: nat -> (int, int))
      requires Valid() && rsp != []
      modifies this`hostMap, this`idleList, this`overloadList, this`status, this`lastUpdateTime
      ensures Valid() && fresh(hostMap.Values - old(hostMap.Values))
      ensures State() == Reconciled(cfg, old(State()), ResponseKeys(rsp), now, stamps)
    {
      hide Partition, Listed, ValuesOf, KeysOf, Extended, Restricted, Reconciled, ResponseKeys;
      ReconciledInTwoSteps(cfg, State(), ResponseKeys(rsp), now, stamps);
      var remote := AddNewHosts(rsp, stamps);
      DropMissingHosts(remote);
      PartitionIgnoresStatus(State(), NEW, now);
      lastUpdateTime := now;
      status := NEW;
    }

    /** Step 1 of `update`: files every host of the response that is not known yet. */
    method AddNewHosts(rsp: seq<(nat, int)>, stamps: nat -> (int, int)) returns (remote: set<nat>)
      requires Valid()
      modifies this`hostMap, this`idleList
      ensures Valid() && fresh(hostMap.Values - old(hostMap.Values))
      ensures remote == Elems(ResponseKeys(rsp)) && remote <= hostMap.Keys
      ensures State() == Extended(cfg, old(State()), ResponseKeys(rsp), stamps)
    {
      hide Partition, Listed, ValuesOf, KeysOf, Extended, AddOne;
      ghost var b := State();
      ghost var keys := ResponseKeys(rsp);
      remote := {};
      ExtendedByOne(cfg, b, [], 0, stamps);
      for i := 0 to |rsp|
        invariant Valid() && fresh(hostMap.Values - old(hostMap.Values))
        invariant remote == Elems(keys[..i]) <= hostMap.Keys
        invariant State() == Extended(cfg, b, keys[..i], stamps)
      {
        var key := updateKey(rsp[i].0, rsp[i].1);
        assert keys[..i + 1] == keys[..i] + [key];
        ExtendedByOne(cfg, b, keys[..i], key, stamps);
        remote := remote + {key};
        AddHost(rsp[i].0, rsp[i].1, stamps);
      }
      assert keys[..|rsp|] == keys;
    }

    method AddHost(ip: nat, port: int, stamps: nat -> (int, int))
      requires Valid()
      modifies this`hostMap, this`idleList
      ensures Valid() && fresh(hostMap.Values - old(hostMap.Values))
      ensures hostMap.Keys == old(hostMap.Keys) + {updateKey(ip, port)}
      ensures State() == AddOne(cfg, old(State()), updateKey(ip, port), stamps)
    {
      hide Partition, Fresh, ValuesOf, KeysOf, Listed;
      var key := updateKey(ip, port);
      ghost var b := State();
      AddOneKeepsPartition(cfg, b, key, stamps);
      ValuesBefore();
      if key !in hostMap {
        var hi := new HostInfo(ip, port, cfg, stamps(key));
        ListedMore(idleList, hi, hostMap, key);
        ListedMore(overloadList, hi, hostMap, key);
        hostMap := hostMap[key := hi];
        idleList := idleList + [hi];
        ValuesAdded(b.hosts, key);
      }
    }

    lemma ListedMore(hs: seq<HostInfo>, h: HostInfo, hosts: map<nat, HostInfo>, key: nat)
      requires Listed(hosts, hs) && key !in hosts && KeyOf(h) == key
      ensures Listed(hosts[key := h], hs) && Listed(hosts[key := h], hs + [h])
      ensures KeysOf(hs + [h]) == KeysOf(hs) + [key]
    {
    }

    lemma ValuesAdded(was: map<nat, Host>, key: nat)
      requires hostMap.Keys == was.Keys + {key} && key !in was
      requires forall k <- was :: hostMap[k].Value() == was[k]
      ensures ValuesOf(hostMap) == was[key := hostMap[key].Value()]
    {
    }

    /** Steps 2.1 and 2.2 of `update`: finds and deletes the hosts the response left out. */
    method DropMissingHosts(remote: set<nat>)
      requires Valid() && remote <= hostMap.Keys
      modifies this`hostMap, this`idleList, this`overloadList
      ensures Valid() && hostMap.Values <= old(hostMap.Values)
      ensures State() == Restricted(old(State()), remote)
    {
      hide Partition, Listed, ValuesOf, KeysOf, Restricted, DropOne;
      ghost var b := State();
      var needDelete := MissingFrom(remote);
      ValuesBefore();
      RestrictedToAll(b, remote + needDelete);
      while needDelete != {}
        invariant Valid() && hostMap.Values <= old(hostMap.Values)
        invariant needDelete !! remote && hostMap.Keys == remote + needDelete
        invariant State() == Restricted(b, remote + needDelete)
      {
        var key :| key in needDelete;
        ValuesBefore();
        DropOneRestricts(b, remote + needDelete, key);
        assert remote + needDelete - {key} == remote + (needDelete - {key});
        DropHost(key);
        needDelete := needDelete - {key};
      }
      assert remote + needDelete == remote;
    }

    method MissingFrom(remote: set<nat>) returns (missing: set<nat>)
      ensures missing == hostMap.Keys - remote
    {
      missing := {};
      var rest := hostMap.Keys;
      while rest != {}
        invariant rest <= hostMap.Keys && missing == (hostMap.Keys - rest) - remote
      {
        var key :| key in rest;
        if key !in remote {
          missing := missing + {key};
        }
        rest := rest - {key};
      }
    }

    method DropHost(key: nat)
      requires Valid() && key in hostMap
      modifies this`hostMap, this`idleList, this`overloadList
      ensures Valid() && hostMap == old(hostMap) - {key}
      ensures key in old(State()).hosts && State() == DropOne(old(State()), key)
    {
      hide Partition, Without;
      ghost var b := State();
      DropOneKeepsPartition(b, key);
      var hi := hostMap[key];
      WithoutKeys(hostMap, idleList, hi);
      WithoutKeys(hostMap, overloadList, hi);
      if hi.overload {
        overloadList := Without(overloadList, hi);
      } else {
        idleList := Without(idleList, hi);
      }
      StillListed(hostMap, idleList, key);
      StillListed(hostMap, overloadList, key);
      hostMap := hostMap - {key};
      assert ValuesOf(hostMap) == b.hosts - {key};
    }

    lemma StillListed(hosts: map<nat, HostInfo>, hs: seq<HostInfo>, key: nat)
      requires Listed(hosts, hs) && key !in KeysOf(hs)
      ensures Listed(hosts - {key}, hs)
    {
      forall h <- hs ensures KeyOf(h) != key {
        var i :| 0 <= i < |hs| && hs[i] == h;
        assert KeysOf(hs)[i] == KeyOf(h);
      }
    }

    lemma Fields()
      ensures State().status == status && State().lastUpdate == lastUpdateTime
      ensures State().hosts == map[] <==> hostMap == map[]
    {
      ValuesBefore();
      if hostMap != map[] {
        var k :| k in hostMap;
        assert k in ValuesOf(hostMap);
      }
    }

    method SetStatus(status: Status)
      requires Valid()
      modifies this`status
      ensures Valid() && State() == old(State()).(status := status)
    {
      hide Listed, ValuesOf, KeysOf, Partition;
      PartitionIgnoresStatus(State(), status, lastUpdateTime);
      this.status := status;
    }

    // ----- commit -----

    /** What an entry of the upstream report says about the host it names. */
    ghost function EntryOf(r: HostCallResult): CallResult {
      CallResult(updateKey(r.ip, r.port), r.succ, r.err, r.overload)
    }

    ghost predicate Reports(rs: seq<HostCallResult>, entries: seq<CallResult>) {
      |rs| == |entries| && forall i | 0 <= i < |rs| :: EntryOf(rs[i]) == entries[i]
    }

    /** `commit`; nothing is sent for a balancer without hosts. */
    method Commit() returns (sends: bool, rs: seq<HostCallResult>)
      requires Valid()
      ensures sends <==> hostMap != map[]
      ensures (forall k <- State().idle :: k in State().hosts) && (forall k <- State().over :: k in State().hosts)
      ensures Reports(rs, ResultsOf(State().hosts, State().idle, false) + ResultsOf(State().hosts, State().over, true))
    {
      if hostMap == map[] {
        NothingListed();
        return false, [];
      }
      var idle := CommitList(idleList, false);
      var over := CommitList(overloadList, true);
      sends, rs := true, idle + over;
    }

    lemma NothingListed()
      requires Valid() && hostMap == map[]
      ensures State().idle == [] && State().over == []
    {
      SomeIn(idleList);
      SomeIn(overloadList);
    }

    method CommitList(hs: seq<HostInfo>, overload: bool) returns (rs: seq<HostCallResult>)
      requires Listed(hostMap, hs)
      ensures forall k <- KeysOf(hs) :: k in ValuesOf(hostMap)
      ensures Reports(rs, ResultsOf(ValuesOf(hostMap), KeysOf(hs), overload))
    {
      rs := [];
      for i := 0 to |hs|
        invariant |rs| == i
        invariant forall j | 0 <= j < i ::
          rs[j] == HostCallResult(hs[j].ip, hs[j].port, hs[j].rsucc, hs[j].rerr, overload)
      {
        var hi := hs[i];
        rs := rs + [HostCallResult(hi.ip, hi.port, hi.rsucc, hi.rerr, overload)];
      }
      forall i | 0 <= i < |hs| ensures KeysOf(hs)[i] in hostMap && hostMap[KeysOf(hs)[i]] == hs[i] {
        assert hs[i] in hs;
      }
    }
  }
}
