/**
 Readers of the route table against the thread that loads and swaps it, as interleaved steps.
 A reader copies its hosts one by one under the read lock; rows are loaded one by one without
 any lock; the swap needs the write lock.
 */
module RouteSnapshots {
  import opened Seqs
  import opened DnsRoutes

  /** A load in progress: rows already inserted, and rows still to come. */
  datatype Loader = Idle | Loading(done: seq<Row>, rest: seq<Row>) | Loaded(rows: seq<Row>)

  /** A reader holding the lock on map `cell`; `epoch` is the load that was visible when it
      took the lock. */
  datatype Reader = Reader(key: nat, cell: nat, epoch: nat, got: set<nat>)

  datatype Answer = Answer(key: nat, hosts: set<nat>, epoch: nat)

  /** `loads` lists the complete loads made visible so far, the first one at start-up. */
  datatype State = State(
    cells: seq<Table>, data: nat,
    loader: Loader, readers: map<nat, Reader>,
    loads: seq<seq<Row>>, answers: seq<Answer>)

  datatype Event =
    | LoadBegin(rows: seq<Row>)
    | LoadFail
    | LoadRow
    | LoadDone
    | Swap
    | Lock(r: nat, key: nat)
    | Copy(r: nat, host: nat)
    | Unlock(r: nat)

  ghost predicate Shape(s: State) {
    && |s.cells| == 2 && s.data < 2 && s.loads != []
    && forall r <- s.readers :: s.readers[r].cell < 2
  }

  function Temp(s: State): nat
    requires s.data < 2
  {
    1 - s.data
  }

  function Now(s: State): nat
    requires s.loads != []
  {
    |s.loads| - 1
  }

  function Insert(t: Table, row: Row): Table {
    t[row.key := At(t, row.key) + {row.host}]
  }

  /** Events that are not enabled change nothing.  A reader copies what it finds in the map it looks
      at, and unlocks when nothing is left there to copy; that the copy is then no mixture of two
      loads is proved, not required. */
  function Step(s: State, e: Event): (s': State)
    requires Shape(s)
    ensures Shape(s')
  {
    match e
    case LoadBegin(rows) =>
      if !s.loader.Idle? then s
      else s.(cells := s.cells[Temp(s) := map[]], loader := Loading([], rows))
    case LoadFail =>
      if !s.loader.Idle? then s else s.(cells := s.cells[Temp(s) := map[]])
    case LoadRow =>
      if !s.loader.Loading? || s.loader.rest == [] then s
      else
        var row := s.loader.rest[0];
        s.(cells := s.cells[Temp(s) := Insert(s.cells[Temp(s)], row)],
           loader := Loading(s.loader.done + [row], s.loader.rest[1..]))
    case LoadDone =>
      if !s.loader.Loading? || s.loader.rest != [] then s else s.(loader := Loaded(s.loader.done))
    case Swap =>
      if !s.loader.Loaded? || s.readers != map[] then s
      else s.(data := Temp(s), loader := Idle, loads := s.loads + [s.loader.rows])
    case Lock(r, key) =>
      if r in s.readers then s else s.(readers := s.readers[r := Reader(key, s.data, Now(s), {})])
    case Copy(r, host) =>
      if r !in s.readers then s
      else
        var q := s.readers[r];
        if host !in At(s.cells[q.cell], q.key) then s
        else s.(readers := s.readers[r := q.(got := q.got + {host})])
    case Unlock(r) =>
      if r !in s.readers then s
      else
        var q := s.readers[r];
        if !(At(s.cells[q.cell], q.key) <= q.got) then s
        else s.(readers := s.readers - {r}, answers := s.answers + [Answer(q.key, q.got, q.epoch)])
  }

  /** An answer is exactly what one complete load says about its key. */
  ghost predicate FromOneLoad(loads: seq<seq<Row>>, a: Answer) {
    a.epoch < |loads| && forall host: nat :: host in a.hosts <==> Row(a.key, host) in loads[a.epoch]
  }

  ghost predicate Inv(s: State) {
    && Shape(s)
    && Lists(s.cells[s.data], s.loads[Now(s)])
    && (match s.loader
        case Idle => true
        case Loading(done, rest) => Lists(s.cells[Temp(s)], done)
        case Loaded(rows) => Lists(s.cells[Temp(s)], rows))
    && (forall r <- s.readers ::
          var q := s.readers[r];
          q.cell == s.data && q.epoch == Now(s) && q.got <= At(s.cells[q.cell], q.key))
    && (forall a <- s.answers :: FromOneLoad(s.loads, a))
  }

  lemma StepKeepsInv(s: State, e: Event)
    requires Inv(s)
    ensures Inv(Step(s, e))
    // no map is changed while a reader holds it
    ensures forall r <- s.readers :: Step(s, e).cells[s.readers[r].cell] == s.cells[s.readers[r].cell]
    // what readers see changes only by a swap, and never to a partial load
    ensures !e.Swap? ==> Step(s, e).cells[Step(s, e).data] == s.cells[s.data]
  {
    hide Lists, FromOneLoad;
    EmptyLists();
    MoreLoads(s, Step(s, e));
    if e.LoadRow? && s.loader.Loading? && s.loader.rest != [] {
      ListsMore(s.cells[Temp(s)], s.loader.done, s.loader.rest[0]);
    }
    if e.Unlock? && e.r in s.readers && At(s.cells[s.data], s.readers[e.r].key) <= s.readers[e.r].got {
      ReadIsLoad(s, s.readers[e.r]);
    }
  }

  lemma EmptyLists()
    ensures Lists(map[], [])
  {
  }

  lemma MoreLoads(s: State, s': State)
    requires s.loads <= s'.loads
    ensures forall a <- s.answers :: FromOneLoad(s.loads, a) ==> FromOneLoad(s'.loads, a)
  {
  }

  lemma ReadIsLoad(s: State, q: Reader)
    requires Inv(s) && q.cell == s.data && q.epoch == Now(s) && q.got == At(s.cells[q.cell], q.key)
    ensures FromOneLoad(s.loads, Answer(q.key, q.got, q.epoch))
  {
  }

  function Run(s: State, es: seq<Event>): State
    requires Shape(s)
    decreases |es|
  {
    if es == [] then s else Run(Step(s, es[0]), es[1..])
  }

  /** Snapshot atomicity: in every run every answer given is the host set of one complete load,
      the one that was visible while its reader held the lock. */
  lemma {:induction false} EveryAnswerIsOneLoad(s: State, es: seq<Event>)
    requires Inv(s)
    ensures Inv(Run(s, es))
    decreases |es|
  {
    if es != [] {
      StepKeepsInv(s, es[0]);
      EveryAnswerIsOneLoad(Step(s, es[0]), es[1..]);
    }
  }

  // ----- What loads and reads bring about -----

  lemma {:induction false} RunAppend(s: State, es: seq<Event>, es': seq<Event>)
    requires Shape(s)
    ensures Shape(Run(s, es)) && Run(s, es + es') == Run(Run(s, es), es')
    decreases |es|
  {
    if es == [] {
      assert es + es' == es';
    } else {
      assert (es + es')[1..] == es[1..] + es';
      RunAppend(Step(s, es[0]), es[1..], es');
    }
  }

  lemma {:induction false} LoadsRows(s: State)
    requires Inv(s) && s.loader.Loading?
    ensures var s' := Run(s, seq(|s.loader.rest|, _ => LoadRow));
      && Inv(s') && s'.loader == Loading(s.loader.done + s.loader.rest, [])
      && s'.data == s.data && s'.readers == s.readers && s'.loads == s.loads && s'.answers == s.answers
    decreases |s.loader.rest|
  {
    hide Inv;
    var rest := s.loader.rest;
    var es := seq(|rest|, _ => LoadRow);
    InvShape(s);
    if rest == [] {
      assert s.loader.done + rest == s.loader.done;
    } else {
      var s1 := Step(s, LoadRow);
      StepKeepsInv(s, LoadRow);
      assert es[1..] == seq(|rest| - 1, _ => LoadRow);
      LoadsRows(s1);
      assert s.loader.done + [rest[0]] + rest[1..] == s.loader.done + rest;
    }
  }

  lemma InvShape(s: State)
    requires Inv(s)
    ensures Shape(s)
  {
  }

  /** A load that runs to its end and is swapped in, with nobody reading then, becomes what readers see. */
  lemma LoadBecomesVisible(s: State, rows: seq<Row>)
    requires Inv(s) && s.loader.Idle? && s.readers == map[]
    ensures var es := [LoadBegin(rows)] + seq(|rows|, _ => LoadRow) + [LoadDone, Swap];
      var s' := Run(s, es);
      Inv(s') && s'.loads == s.loads + [rows] && Lists(s'.cells[s'.data], rows) && s'.loader.Idle?
  {
    var begin, rest, end := [LoadBegin(rows)], seq(|rows|, _ => LoadRow), [LoadDone, Swap];
    RunAppend(s, begin + rest, end);
    RunAppend(s, begin, rest);
    var s1 := Step(s, LoadBegin(rows));
    assert begin[1..] == [] && Run(s, begin) == s1;
    StepKeepsInv(s, LoadBegin(rows));
    LoadsRows(s1);
    assert [] + rows == rows;
    var s2 := Run(s1, rest);
    StepKeepsInv(s2, LoadDone);
    var s3 := Step(s2, LoadDone);
    StepKeepsInv(s3, Swap);
    var s4 := Step(s3, Swap);
    assert end[1..] == [Swap] && [Swap][1..] == [] && Run(s4, []) == s4 && Run(s3, [Swap]) == s4;
  }

  lemma {:induction false} CopiesAll(s: State, r: nat, hosts: seq<nat>)
    requires Inv(s) && r in s.readers && forall h <- hosts :: h in At(s.cells[s.readers[r].cell], s.readers[r].key)
    ensures var s' := Run(s, seq(|hosts|, i requires 0 <= i < |hosts| => Copy(r, hosts[i])));
      && s' == s.(readers := s'.readers)
      && s'.readers == s.readers[r := s.readers[r].(got := s.readers[r].got + Elems(hosts))]
    decreases |hosts|
  {
    var es := seq(|hosts|, i requires 0 <= i < |hosts| => Copy(r, hosts[i]));
    if hosts == [] {
      assert s.readers[r].got + Elems(hosts) == s.readers[r].got;
    } else {
      var s1 := Step(s, Copy(r, hosts[0]));
      StepKeepsInv(s, Copy(r, hosts[0]));
      var later := hosts[1..];
      assert es[1..] == seq(|later|, i requires 0 <= i < |later| => Copy(r, later[i]));
      CopiesAll(s1, r, later);
      assert Elems(hosts) == {hosts[0]} + Elems(later);
      assert s.readers[r].got + {hosts[0]} + Elems(later) == s.readers[r].got + Elems(hosts);
    }
  }

  /** A reader that copies all it finds is given exactly the hosts the visible load lists for its key. */
  lemma ReadCompletes(s: State, r: nat, key: nat, hosts: seq<nat>)
    requires Inv(s) && r !in s.readers && Elems(hosts) == At(s.cells[s.data], key)
    ensures var es := [Lock(r, key)] + seq(|hosts|, i requires 0 <= i < |hosts| => Copy(r, hosts[i])) + [Unlock(r)];
      var s' := Run(s, es);
      && s'.readers == s.readers && s'.answers == s.answers + [Answer(key, Elems(hosts), Now(s))]
      && forall host: nat :: host in Elems(hosts) <==> Row(key, host) in s.loads[Now(s)]
  {
    var begin, copies, end := [Lock(r, key)], seq(|hosts|, i requires 0 <= i < |hosts| => Copy(r, hosts[i])), [Unlock(r)];
    RunAppend(s, begin + copies, end);
    RunAppend(s, begin, copies);
    var s1 := Step(s, Lock(r, key));
    assert begin[1..] == [] && Run(s, begin) == s1;
    StepKeepsInv(s, Lock(r, key));
    CopiesAll(s1, r, hosts);
    var s2 := Run(s1, copies);
    var s3 := Step(s2, Unlock(r));
    assert end[1..] == [] && Run(s2, end) == s3;
    assert s2.readers[r].got == Elems(hosts);
    assert s2.readers - {r} == s.readers;
  }

  lemma StartInv(t: Table, rows: seq<Row>)
    requires Lists(t, rows)
    ensures Inv(State([t, map[]], 0, Idle, map[], [rows], []))
  {
  }
}
