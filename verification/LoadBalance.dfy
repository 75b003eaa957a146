/**
 The load balancer of one modid/cmdid pair, on values: a host table and two queues.
 Hosts are named by the key under which `update` stores them.
 */
module LoadBalance {
  import opened Seqs
  import opened HostModel

  datatype Status = PULLING | NEW

  datatype Balancer = Balancer(
    hosts: map<nat, Host>,
    idle: seq<nat>, over: seq<nat>,
    access: int, status: Status, lastUpdate: int)

  datatype Choice = Overloaded | Chosen(key: nat)

  /** A balancer just created; `access` and `lastUpdate` have no initialiser. */
  function Created(access: int, lastUpdate: int): Balancer {
    Balancer(map[], [], [], access, PULLING, lastUpdate)
  }

  function Rotated<T>(s: seq<T>): seq<T>
    requires s != []
  {
    s[1..] + [s[0]]
  }

  function PickIdle(b: Balancer): (Balancer, Choice)
    requires b.idle != []
  {
    (b.(idle := Rotated(b.idle)), Chosen(b.idle[0]))
  }

  function PickOver(b: Balancer): (Balancer, Choice)
    requires b.over != []
  {
    (b.(over := Rotated(b.over), access := 0), Chosen(b.over[0]))
  }

  /** `choice_one_host`. */
  function Pick(c: Config, b: Balancer): (Balancer, Choice)
    requires b.idle != [] || b.over != []
  {
    if b.idle == [] then
      if b.access >= c.probeNum then PickOver(b) else (b.(access := b.access + 1), Overloaded)
    else if b.over == [] then PickIdle(b)
    else if b.access >= c.probeNum then PickOver(b)
    else PickIdle(b.(access := b.access + 1))
  }

  /** The queue a host has to be moved to after a call. */
  datatype Move = Stay | ToOverload | ToIdle

  function MoveOf(was: Host, next: Host): Move {
    if was.overload == next.overload then Stay else if next.overload then ToOverload else ToIdle
  }

  function Requeued(idle: seq<nat>, over: seq<nat>, key: nat, move: Move): (seq<nat>, seq<nat>) {
    match move
    case Stay => (idle, over)
    case ToOverload => (Without(idle, key), over + [key])
    case ToIdle => (idle + [key], Without(over, key))
  }

  /** `report`: an unknown key is ignored; a host that changes state changes queues. */
  function ReportAt(c: Config, b: Balancer, key: nat, ok: bool, now: int, stamp: int): Balancer {
    if key !in b.hosts then b
    else
      var next := Reported(c, b.hosts[key], ok, now, stamp);
      var queues := Requeued(b.idle, b.over, key, MoveOf(b.hosts[key], next));
      Balancer(b.hosts[key := next], queues.0, queues.1, b.access, b.status, b.lastUpdate)
  }

  /** `update`: the table after a response naming `keys`, duplicates allowed. */
  ghost function Reconciled(c: Config, b: Balancer, keys: seq<nat>, now: int, stamps: nat -> (int, int)): Balancer {
    var known := b.hosts.Keys;
    Balancer(
      map k | k in keys :: if k in known then b.hosts[k] else Fresh(c, stamps(k)),
      Keep(b.idle, Elems(keys)) + FirstNew(keys, known),
      Keep(b.over, Elems(keys)),
      b.access, NEW, now)
  }

  /** The hosts of `keys` that are not known yet, added to the table and to the idle queue. */
  ghost function Extended(c: Config, b: Balancer, keys: seq<nat>, stamps: nat -> (int, int)): Balancer {
    b.(hosts := map k | k in b.hosts.Keys + Elems(keys) :: if k in b.hosts then b.hosts[k] else Fresh(c, stamps(k)),
       idle := b.idle + FirstNew(keys, b.hosts.Keys))
  }

  /** Only the hosts of `keep` are left. */
  ghost function Restricted(b: Balancer, keep: set<nat>): Balancer {
    b.(hosts := map k | k in b.hosts.Keys * keep :: b.hosts[k], idle := Keep(b.idle, keep), over := Keep(b.over, keep))
  }

  /** One entry of the report sent upstream by `commit`. */
  datatype CallResult = CallResult(key: nat, succ: nat, err: nat, overload: bool)

  function ResultsOf(hosts: map<nat, Host>, queue: seq<nat>, overload: bool): seq<CallResult>
    requires forall k <- queue :: k in hosts
  {
    seq(|queue|, i requires 0 <= i < |queue| =>
      CallResult(queue[i], hosts[queue[i]].rsucc, hosts[queue[i]].rerr, overload))
  }

  // ----- The invariant of every balancer -----

  /** The two queues split the host table, and each host's flag names its queue. */
  ghost predicate Partition(b: Balancer) {
    && NoDup(b.idle) && NoDup(b.over)
    && (forall k :: k in b.idle <==> k in b.hosts && !b.hosts[k].overload)
    && (forall k :: k in b.over <==> k in b.hosts && b.hosts[k].overload)
  }

  ghost predicate Healthy(c: Config, b: Balancer) {
    forall k <- b.hosts :: WithinLimits(c, b.hosts[k]) && Seeded(c, b.hosts[k])
  }

  ghost predicate Inv(c: Config, b: Balancer) {
    Partition(b) && Healthy(c, b)
  }

  lemma RotatedElems<T>(s: seq<T>)
    requires s != []
    ensures forall x :: x in Rotated(s) <==> x in s
    ensures NoDup(s) ==> NoDup(Rotated(s))
  {
    assert s == [s[0]] + s[1..];
    if NoDup(s) {
      NoDupAppend(s[1..], [s[0]]);
    }
  }

  /** A non-empty balancer can always serve a pick: with an empty idle queue the overload
      queue has a front. */
  lemma NonEmptyServes(b: Balancer)
    requires Partition(b) && b.hosts != map[]
    ensures b.idle != [] || b.over != []
  {
    var k :| k in b.hosts;
    assert k in b.idle || k in b.over;
  }

  lemma PickKeepsPartition(c: Config, b: Balancer)
    requires Partition(b) && b.hosts != map[]
    ensures b.idle != [] || b.over != []
    ensures Partition(Pick(c, b).0) && Pick(c, b).0.hosts == b.hosts
    ensures Pick(c, b).1.Chosen? ==> Pick(c, b).1.key in b.hosts
  {
    NonEmptyServes(b);
    if b.idle != [] { RotatedElems(b.idle); }
    if b.over != [] { RotatedElems(b.over); }
  }

  lemma ReportKeepsPartition(c: Config, b: Balancer, key: nat, ok: bool, now: int, stamp: int)
    requires Partition(b)
    ensures Partition(ReportAt(c, b, key, ok, now, stamp))
  {
    hide Reported;
    if key in b.hosts {
      WithoutElems(b.idle, key);
      WithoutElems(b.over, key);
    }
  }

  lemma ReportKeepsInv(c: Config, b: Balancer, key: nat, ok: bool, now: int, stamp: int)
    requires Sane(c) && Inv(c, b)
    ensures Inv(c, ReportAt(c, b, key, ok, now, stamp))
    ensures ReportAt(c, b, key, ok, now, stamp).hosts.Keys == b.hosts.Keys
  {
    hide Reported, WithinLimits, Seeded;
    if key in b.hosts {
      ReportKeepsLimits(c, b.hosts[key], ok, now, stamp);
      ReportKeepsSeeded(c, b.hosts[key], ok, now, stamp);
      ReportKeepsPartition(c, b, key, ok, now, stamp);
    }
  }

  lemma PickKeepsHosts(c: Config, b: Balancer)
    ensures b.idle != [] || b.over != [] ==> Pick(c, b).0.hosts == b.hosts
  {
  }

  lemma UpdateKeepsPartition(c: Config, b: Balancer, keys: seq<nat>, now: int, stamps: nat -> (int, int))
    requires Partition(b)
    ensures Partition(Reconciled(c, b, keys, now, stamps))
  {
    var known := b.hosts.Keys;
    KeepElems(b.idle, Elems(keys));
    KeepElems(b.over, Elems(keys));
    FirstNewElems(keys, known);
    NoDupAppend(Keep(b.idle, Elems(keys)), FirstNew(keys, known));
  }

  lemma UpdateKeepsInv(c: Config, b: Balancer, keys: seq<nat>, now: int, stamps: nat -> (int, int))
    requires Sane(c) && Inv(c, b)
    ensures Inv(c, Reconciled(c, b, keys, now, stamps))
  {
    hide WithinLimits, Seeded;
    var known := b.hosts.Keys;
    UpdateKeepsPartition(c, b, keys, now, stamps);
    forall k | k in keys && k !in known
      ensures WithinLimits(c, Fresh(c, stamps(k))) && Seeded(c, Fresh(c, stamps(k)))
    {
      FreshWithinLimits(c, stamps(k));
    }
  }

  /** A report inside the window that does not move the host counts one success or one failure, as it
      says, and nothing else. */
  lemma ReportCounts(c: Config, b: Balancer, key: nat, ok: bool, now: int, stamp: int)
    requires key in b.hosts
    requires var h := b.hosts[key];
      if h.overload then now - h.overloadTs < c.overloadTimeout else now - h.idleTs < c.idleTimeout
    ensures var h, b' := b.hosts[key], ReportAt(c, b, key, ok, now, stamp);
      key in b'.hosts &&
      var h' := b'.hosts[key];
      h'.overload == h.overload ==>
        && h'.rsucc == h.rsucc + (if ok then 1 else 0) && h'.rerr == h.rerr + (if ok then 0 else 1)
        && h'.continSucc == (if ok then h.continSucc + 1 else 0) && h'.continErr == (if ok then 0 else h.continErr + 1)
        && h'.idleTs == h.idleTs && h'.overloadTs == h.overloadTs
  {
  }

  /** A host that changes state goes to the end of its new queue; no other host is moved, added
      or changed. */
  lemma MovedHostGoesLast(c: Config, b: Balancer, key: nat, ok: bool, now: int, stamp: int)
    requires Partition(b) && key in b.hosts
    ensures var b' := ReportAt(c, b, key, ok, now, stamp);
      && (forall k <- b.hosts | k != key :: k in b'.hosts && b'.hosts[k] == b.hosts[k])
      && (if b'.hosts[key].overload == b.hosts[key].overload then b'.idle == b.idle && b'.over == b.over
          else if b'.hosts[key].overload
          then b'.over == b.over + [key] && b'.idle == Keep(b.idle, b.hosts.Keys - {key})
          else b'.idle == b.idle + [key] && b'.over == Keep(b.over, b.hosts.Keys - {key}))
  {
    hide Reported;
    KeepAll(b.idle, b.hosts.Keys);
    KeepAll(b.over, b.hosts.Keys);
    KeepWithout(b.idle, b.hosts.Keys, key);
    KeepWithout(b.over, b.hosts.Keys, key);
  }

  // ----- Reconciliation -----

  /** Adding the new hosts and then dropping the missing ones reconciles. */
  lemma ReconciledInTwoSteps(c: Config, b: Balancer, keys: seq<nat>, now: int, stamps: nat -> (int, int))
    ensures Reconciled(c, b, keys, now, stamps) ==
            Restricted(Extended(c, b, keys, stamps), Elems(keys)).(status := NEW, lastUpdate := now)
  {
    hide Keep, FirstNew, Fresh;
    var added := FirstNew(keys, b.hosts.Keys);
    FirstNewElems(keys, b.hosts.Keys);
    KeepAppend(b.idle, added, Elems(keys));
    KeepAll(added, Elems(keys));
    assert (b.hosts.Keys + Elems(keys)) * Elems(keys) == Elems(keys);
  }

  ghost function AddOne(c: Config, b: Balancer, key: nat, stamps: nat -> (int, int)): Balancer {
    if key in b.hosts then b
    else b.(hosts := b.hosts[key := Fresh(c, stamps(key))], idle := b.idle + [key])
  }

  lemma ExtendedByOne(c: Config, b: Balancer, keys: seq<nat>, key: nat, stamps: nat -> (int, int))
    ensures Extended(c, b, keys + [key], stamps) == AddOne(c, Extended(c, b, keys, stamps), key, stamps)
    ensures Extended(c, b, [], stamps) == b
  {
    hide Fresh;
    FirstNewAppend(keys, key, b.hosts.Keys);
    assert forall k :: k in keys + [key] <==> k in keys || k == key;
  }

  /** Deletes a host from the table and from the queue its flag names. */
  ghost function DropOne(b: Balancer, key: nat): Balancer
    requires key in b.hosts
  {
    var hosts := b.hosts - {key};
    if b.hosts[key].overload then b.(hosts := hosts, over := Without(b.over, key))
    else b.(hosts := hosts, idle := Without(b.idle, key))
  }

  lemma DropOneRestricts(b: Balancer, keep: set<nat>, key: nat)
    requires Partition(Restricted(b, keep)) && key in Restricted(b, keep).hosts
    ensures DropOne(Restricted(b, keep), key) == Restricted(b, keep - {key})
  {
    var r := Restricted(b, keep);
    KeepWithout(b.idle, keep, key);
    KeepWithout(b.over, keep, key);
    if r.hosts[key].overload {
      WithoutAbsent(r.idle, key);
    } else {
      WithoutAbsent(r.over, key);
    }
  }

  lemma DropOneKeepsPartition(b: Balancer, key: nat)
    requires Partition(b) && key in b.hosts
    ensures Partition(DropOne(b, key))
    ensures key !in DropOne(b, key).idle && key !in DropOne(b, key).over
  {
    WithoutElems(b.idle, key);
    WithoutElems(b.over, key);
  }

  lemma RestrictedToAll(b: Balancer, keep: set<nat>)
    requires Partition(b) && b.hosts.Keys <= keep
    ensures Restricted(b, keep) == b
  {
    KeepAll(b.idle, keep);
    KeepAll(b.over, keep);
  }

  lemma PartitionIgnoresStatus(b: Balancer, status: Status, lastUpdate: int)
    requires Partition(b)
    ensures Partition(b.(status := status, lastUpdate := lastUpdate))
  {
  }

  lemma AddOneKeepsPartition(c: Config, b: Balancer, key: nat, stamps: nat -> (int, int))
    requires Partition(b)
    ensures Partition(AddOne(c, b, key, stamps))
  {
    if key !in b.hosts {
      NoDupAppend(b.idle, [key]);
    }
  }

  /** Surviving host `j` has stayed in its queue and stands to `k` there as it did before. */
  ghost predicate OrderKept(b: Balancer, b': Balancer, j: nat, k: nat) {
    && (j in b'.idle <==> j in b.idle) && (j in b'.over <==> j in b.over)
    && (Before(b'.idle, j, k) <==> Before(b.idle, j, k))
    && (Before(b'.over, j, k) <==> Before(b.over, j, k))
  }

  lemma SurvivorsKeepOrder(
      c: Config, b: Balancer, keys: seq<nat>, now: int, stamps: nat -> (int, int), j: nat, k: nat)
    requires Partition(b) && j in keys && k in keys && j in b.hosts && k in b.hosts
    ensures OrderKept(b, Reconciled(c, b, keys, now, stamps), j, k)
  {
    hide Keep, FirstNew, Before;
    var keep, added := Elems(keys), FirstNew(keys, b.hosts.Keys);
    KeepElems(b.idle, keep);
    KeepElems(b.over, keep);
    FirstNewElems(keys, b.hosts.Keys);
    KeepOrder(b.idle, keep, j, k);
    KeepOrder(b.over, keep, j, k);
    BeforeAppend(Keep(b.idle, keep), added, j, k);
    NotBefore(added, j, k);
  }

  /** New host `k` is idle.  It stands behind every survivor of the idle queue, and behind exactly
      those new hosts that the response names first before it names `k`. */
  ghost predicate AddedInTurn(b: Balancer, b': Balancer, keys: seq<nat>, j: nat, k: nat)
    requires j in keys && k in keys
  {
    && k in b'.idle && k !in b'.over
    && (Before(b'.idle, j, k) <==>
          if j in b.hosts then !b.hosts[j].overload else FirstAt(keys, j) < FirstAt(keys, k))
  }

  lemma NewHostsGoLast(
      c: Config, b: Balancer, keys: seq<nat>, now: int, stamps: nat -> (int, int), j: nat, k: nat)
    requires Partition(b) && j in keys && k in keys && k !in b.hosts
    ensures AddedInTurn(b, Reconciled(c, b, keys, now, stamps), keys, j, k)
  {
    hide Keep, FirstNew, Before;
    var kept, added := Keep(b.idle, Elems(keys)), FirstNew(keys, b.hosts.Keys);
    KeepElems(b.idle, Elems(keys));
    KeepElems(b.over, Elems(keys));
    FirstNewElems(keys, b.hosts.Keys);
    BeforeAppend(kept, added, j, k);
    NotBefore(kept, j, k);
    if j in b.hosts {
      NotBefore(added, j, k);
    } else {
      FirstNewOrder(keys, b.hosts.Keys, j, k);
    }
  }

  /** `update` makes the table agree with the response and disturbs no survivor: survivors keep their
      record, their queue and their order in it, and new hosts are fresh, idle, behind the survivors
      and in the order of the response. */
  lemma Reconciliation(c: Config, b: Balancer, keys: seq<nat>, now: int, stamps: nat -> (int, int))
    requires Partition(b)
    ensures var b' := Reconciled(c, b, keys, now, stamps);
      && b'.hosts.Keys == Elems(keys)
      && (forall k <- keys :: b'.hosts[k] == if k in b.hosts then b.hosts[k] else Fresh(c, stamps(k)))
      && (forall j <- keys, k <- keys | j in b.hosts && k in b.hosts :: OrderKept(b, b', j, k))
      && (forall j <- keys, k <- keys | k !in b.hosts :: AddedInTurn(b, b', keys, j, k))
      && (forall k | k in b'.idle || k in b'.over :: k in keys)
  {
    hide Keep, FirstNew, OrderKept, AddedInTurn;
    var b' := Reconciled(c, b, keys, now, stamps);
    forall j <- keys, k <- keys | j in b.hosts && k in b.hosts ensures OrderKept(b, b', j, k) {
      SurvivorsKeepOrder(c, b, keys, now, stamps, j, k);
    }
    forall j <- keys, k <- keys | k !in b.hosts ensures AddedInTurn(b, b', keys, j, k) {
      NewHostsGoLast(c, b, keys, now, stamps, j, k);
    }
    KeepElems(b.idle, Elems(keys));
    KeepElems(b.over, Elems(keys));
    FirstNewElems(keys, b.hosts.Keys);
  }

  /** The report sent upstream names every host exactly once, with its own flag and counters. */
  lemma CommitNamesEachHostOnce(b: Balancer)
    requires Partition(b)
    ensures var rs := ResultsOf(b.hosts, b.idle, false) + ResultsOf(b.hosts, b.over, true);
      && (forall i, j | 0 <= i < j < |rs| :: rs[i].key != rs[j].key)
      && (forall k <- b.hosts ::
            CallResult(k, b.hosts[k].rsucc, b.hosts[k].rerr, b.hosts[k].overload) in rs)
      && (forall r <- rs :: r.key in b.hosts)
  {
    var idle, over := ResultsOf(b.hosts, b.idle, false), ResultsOf(b.hosts, b.over, true);
    var rs := idle + over;
    forall i, j | 0 <= i < j < |rs| ensures rs[i].key != rs[j].key {
      if i < |idle| <= j {
        assert b.idle[i] in b.idle && b.over[j - |idle|] in b.over;
      }
    }
    forall k <- b.hosts
      ensures CallResult(k, b.hosts[k].rsucc, b.hosts[k].rerr, b.hosts[k].overload) in rs
    {
      if b.hosts[k].overload {
        var i :| 0 <= i < |b.over| && b.over[i] == k;
        assert rs[|idle| + i] == over[i];
      } else {
        var i :| 0 <= i < |b.idle| && b.idle[i] == k;
        assert rs[i] == idle[i];
      }
    }
  }
}
