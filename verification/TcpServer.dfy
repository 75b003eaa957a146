/**
 All connections of one event loop over one buffer pool.  Whatever the order of accepts, reads, writes,
 sends and closes on them, the invariant of every connection holds between any two steps.
 */
module TcpServers {
  import opened Keys
  import opened Framing
  import opened Buffers
  import opened ReactorBufs
  import opened EventLoops
  import opened TcpConns

  /** What can happen to a server: a client connects, a message is sent, the kernel takes bytes, bytes
      arrive, a connection is closed. */
  datatype ServerEvent =
    | Connects(fd: int)
    | Sends(i: nat, body: seq<byte>, msgid: int32)
    | Takes(i: nat, outcomes: nat -> WriteOutcome)
    | Arrives(i: nat, arrival: Arrival)
    | Closes(i: nat)

  // ----- The server on values -----

  /** All connections ever accepted, and the descriptors the loop watches. */
  datatype ServerValue = ServerValue(conns: seq<ConnValue>, fds: set<int>)

  /** The event is possible: its descriptor is not in use, its connection exists and is open. */
  predicate Possible(v: ServerValue, e: ServerEvent) {
    match e
    case Connects(fd) => fd != -1 && fd !in v.fds && forall c <- v.conns :: c.fd != fd
    case _ => e.i < |v.conns| && v.conns[e.i].fd != -1
  }

  /** Connection `i` has become `w`; if it was closed its descriptor is gone. */
  function Replaced(v: ServerValue, i: nat, w: ConnValue): ServerValue
    requires i < |v.conns|
  {
    ServerValue(v.conns[i := w], if w.fd == -1 then v.fds - {v.conns[i].fd} else v.fds)
  }

  function StepOf(v: ServerValue, e: ServerEvent): ServerValue
    requires Possible(v, e)
  {
    match e
    case Connects(fd) => ServerValue(v.conns + [NewValue(fd)], v.fds + {fd})
    case Sends(i, body, msgid) => Replaced(v, i, AfterSend(v.conns[i], body, msgid))
    case Takes(i, outcomes) => Replaced(v, i, AfterWrite(v.conns[i], outcomes))
    case Arrives(i, arrival) => Replaced(v, i, AfterRead(v.conns[i], arrival))
    case Closes(i) => Replaced(v, i, Closed(v.conns[i]))
  }

  /** Events not possible when their turn comes are passed over. */
  function RunOf(v: ServerValue, es: seq<ServerEvent>): ServerValue
    decreases |es|
  {
    if es == [] then v else RunOf(if Possible(v, es[0]) then StepOf(v, es[0]) else v, es[1..])
  }

  /** The connections there were are still there, and nothing they have sent, written, read or
      delivered is taken back. */
  predicate Extends(was: ServerValue, now: ServerValue) {
    && |was.conns| <= |now.conns|
    && forall i | 0 <= i < |was.conns| ::
        && was.conns[i].wire <= now.conns[i].wire && was.conns[i].sent <= now.conns[i].sent
        && was.conns[i].arrived <= now.conns[i].arrived && was.conns[i].delivered <= now.conns[i].delivered
  }

  lemma StepExtends(v: ServerValue, e: ServerEvent)
    requires Possible(v, e)
    ensures Extends(v, StepOf(v, e))
  {
    hide Taken, Feed, AfterFailure, Frame;
  }

  lemma {:induction false} RunExtends(v: ServerValue, es: seq<ServerEvent>)
    ensures Extends(v, RunOf(v, es))
    decreases |es|
  {
    hide StepOf, Possible;
    if es != [] {
      var v' := if Possible(v, es[0]) then StepOf(v, es[0]) else v;
      if Possible(v, es[0]) {
        StepExtends(v, es[0]);
      }
      RunExtends(v', es[1..]);
    }
  }

  /** An event on one connection leaves the values of all others alone. */
  lemma StepLeavesOthers(v: ServerValue, e: ServerEvent, j: nat)
    requires Possible(v, e) && j < |v.conns| && (e.Connects? || e.i != j)
    ensures StepOf(v, e).conns[j] == v.conns[j]
  {
  }

  class TcpServer {
    const loop: EventLoop
    const pool: BufPool<ReactorBuf>
    var conns: seq<TcpConn>

    /** Closed connections stay in the list, with the descriptor they then have. */
    ghost predicate Apart(c: TcpConn, d: TcpConn)
      reads c, d
    {
      {c.ibuf, c.obuf} !! {d.ibuf, d.obuf} && (c.fd != -1 ==> c.fd != d.fd)
    }

    /** All connections are on this loop and pool, and no two share anything else. */
    ghost predicate Shape(cs: seq<TcpConn>)
      reads cs
    {
      Spread(cs)
    }

    // The body of `Shape`, kept apart so that proofs can hide it and still know when `Shape` is kept.
    ghost predicate Spread(cs: seq<TcpConn>)
      reads cs
    {
      && (forall c <- cs :: c.loop == loop && c.ibuf.pool == pool && c.obuf.pool == pool)
      && forall i, j | 0 <= i < |cs| && 0 <= j < |cs| && i != j :: cs[i] != cs[j] && Apart(cs[i], cs[j])
    }

    lemma SpreadMore(cs: seq<TcpConn>, c: TcpConn)
      requires Shape(cs) && c !in cs && c.loop == loop && c.ibuf.pool == pool && c.obuf.pool == pool
      requires forall d <- cs :: {c.ibuf, c.obuf} !! {d.ibuf, d.obuf} && d.fd != c.fd
      ensures Shape(cs + [c])
    {
    }

    /** All objects a step may change. */
    ghost function Footprint(): set<object>
      reads this, pool
    {
      {this, loop, pool} + pool.known + Arrays()
      + (set c <- conns) + (set c <- conns :: c.ibuf) + (set c <- conns :: c.obuf)
    }

    ghost function Arrays(): set<object>
      reads pool
    {
      set b <- pool.known :: b.data
    }

    /** The loop and the pool by themselves. */
    ghost predicate Ready()
      reads loop, pool, pool.known, pool.owner.Values
    {
      loop.Valid() && pool.Valid() && forall b <- pool.owner :: pool.owner[b].buf == b
    }

    ghost predicate Valid()
      reads *
    {
      Shape(conns) && Ready() && forall c <- conns :: c.Valid()
    }

    /** `v` is the server on values. */
    ghost predicate Shows(v: ServerValue)
      reads *
    {
      && |v.conns| == |conns| && v.fds == loop.ioEvs.Keys
      && forall i | 0 <= i < |conns| :: conns[i].Shows(v.conns[i])
    }

    /** Every server shows some value. */
    lemma HasValue() returns (v: ServerValue)
      requires Valid()
      ensures Shows(v)
    {
      hide TcpConn.Armed, TcpConn.InOrder, TcpConn.InStep, TcpConn.Buffered, Ready, Spread;
      v := ServerValue([], loop.ioEvs.Keys);
      while |v.conns| < |conns|
        invariant |v.conns| <= |conns| && v.fds == loop.ioEvs.Keys
        invariant forall i | 0 <= i < |v.conns| :: conns[i].Shows(v.conns[i])
      {
        var c := conns[|v.conns|];
        assert c in conns && c.Valid();
        v := v.(conns := v.conns + [c.Value()]);
      }
    }

    /** A server without connections. */
    constructor (loop: EventLoop, pool: BufPool<ReactorBuf>)
      requires loop.Valid() && pool.Valid() && pool.owner == map[]
      ensures this.loop == loop && this.pool == pool && conns == [] && Valid() && Shows(ServerValue([], loop.ioEvs.Keys))
    {
      this.loop, this.pool, this.conns := loop, pool, [];
    }

    /** `new tcp_conn`, with its two buffers, and its entry in the list. */
    method NewConn(fd: int) returns (c: TcpConn)
      requires Ready() && fd != -1 && fd !in loop.ioEvs
      modifies this`conns, loop
      ensures Ready() && c.Valid() && conns == old(conns) + [c]
      ensures fresh(c) && fresh(c.ibuf) && fresh(c.obuf) && c.fd == fd
      ensures c.loop == loop && c.ibuf.pool == pool && c.obuf.pool == pool
      ensures c.Shows(NewValue(fd))
      ensures loop.kernel == old(loop.kernel)[fd := {EPOLLIN}] && loop.ioEvs.Keys == old(loop.ioEvs.Keys) + {fd}
    {
      hide BufPool.ValidBut, Parse, Stream;
      var ibuf := new ReactorBuf(pool);
      var obuf := new ReactorBuf(pool);
      c := new TcpConn(fd, loop, ibuf, obuf);
      conns := conns + [c];
    }

    lemma OwnBuffers()
      requires Valid()
      ensures forall c <- conns :: c.loop == loop && c.obuf.pool == pool && c.ibuf.pool == pool
    {
      hide TcpConn.Valid, BufPool.ValidBut;
    }

    twostate lemma Joined(new c: TcpConn)
      requires conns == old(conns) + [c] && fresh(c) && fresh(c.ibuf) && fresh(c.obuf) && unchanged(pool)
      ensures fresh(Footprint() - old(Footprint()))
    {
    }

    lemma OneMore(was: ServerValue, c: TcpConn, w: ConnValue)
      requires conns != [] && conns[|conns| - 1] == c && |was.conns| == |conns| - 1 && c.Shows(w)
      requires forall i | 0 <= i < |was.conns| :: conns[i].Shows(was.conns[i])
      ensures Shows(ServerValue(was.conns + [w], loop.ioEvs.Keys))
    {
      hide TcpConn.Shows;
    }

    /** A connection is accepted, on a descriptor that is not in use. */
    method Accept(fd: int, ghost v: ServerValue) returns (c: TcpConn)
      requires Valid() && Shows(v) && fd != -1 && fd !in loop.ioEvs && forall d <- conns :: d.fd != fd
      modifies this`conns, loop
      ensures Valid() && conns == old(conns) + [c] && forall d <- old(conns) :: d.SameBytes()
      ensures fresh(c) && fresh(c.ibuf) && fresh(c.obuf) && fresh(Footprint() - old(Footprint()))
      ensures Shows(ServerValue(v.conns + [NewValue(fd)], v.fds + {fd}))
    {
      hide TcpConn.Valid, TcpConn.SameBytes, TcpConn.Shows, BufPool.ValidBut, EventLoop.Valid, Spread, Footprint;
      OwnBuffers();
      c := NewConn(fd);
      Joined(c);
      SpreadMore(old(conns), c);
      forall i | 0 <= i < |old(conns)|
        ensures old(conns)[i].Valid() && old(conns)[i].SameBytes() && old(conns)[i].Shows(v.conns[i])
      {
        var d := old(conns)[i];
        assert d in old(conns);
        d.BesideNew(fd);
        d.StillShows(v.conns[i]);
      }
      OneMore(v, c, NewValue(fd));
    }

    /** `clean_conn` called from outside. */
    method Close(i: nat, ghost v: ServerValue)
      requires Valid() && Shows(v) && i < |conns| && conns[i].IsOpen()
      modifies conns[i], loop, conns[i].ibuf, conns[i].obuf, pool, pool.known
      ensures Valid() && !conns[i].IsOpen() && loop.ioEvs == old(loop.ioEvs) - {old(conns[i].fd)}
      ensures conns[i].delivered == old(conns[i].delivered) && conns[i].wire == old(conns[i].wire)
      ensures conns[i].sent == old(conns[i].sent) && conns[i].arrived == old(conns[i].arrived)
      ensures fresh(Footprint() - old(Footprint()))
      ensures i < |v.conns| && Shows(Replaced(v, i, Closed(v.conns[i])))
      ensures forall j | 0 <= j < |conns| && j != i :: conns[j].SameBytes()
    {
      hide TcpConn.Valid, TcpConn.Buffered, TcpConn.PoolIsolated, TcpConn.LoopIsolated, TcpConn.SameBytes;
      hide AfterSend, AfterWrite, AfterRead, Closed;
      hide BufPool.ValidBut, EventLoop.Valid, Footprint;
      OwnBuffers();
      ghost var w := Closed(v.conns[i]);
      conns[i].Close();
      OthersKept(i);
      forall j | 0 <= j < |conns| && j != i ensures conns[j].Shows(v.conns[j]) {
        conns[j].StillShows(v.conns[j]);
      }
      conns[i].LoopKeys();
      OneChanged(v, i, w);
      OnlyNewObjects(i);
    }

    /** A step of connection `i` needs no old object of others. */
    twostate lemma OnlyNewObjects(i: nat)
      requires unchanged(this) && i < |conns| && conns[i].obuf.pool == pool && conns[i].OnlyNew()
      ensures fresh(Footprint() - old(Footprint()))
    {
    }

    /** Only the value of connection `i` has changed. */
    lemma OneChanged(was: ServerValue, i: nat, w: ConnValue)
      requires |was.conns| == |conns| && i < |conns| && conns[i].Shows(w)
      requires loop.ioEvs.Keys == was.fds - if w.fd == -1 then {was.conns[i].fd} else {}
      requires forall j | 0 <= j < |conns| && j != i :: conns[j].Shows(was.conns[j])
      ensures Shows(Replaced(was, i, w))
    {
      hide TcpConn.Shows;
    }

    /** A step of connection `i` leaves all the others as they were. */
    twostate lemma OthersKept(i: nat)
      requires old(Valid()) && unchanged(this) && i < |conns|
      requires conns[i].Valid() && conns[i].PoolIsolated() && conns[i].LoopIsolated()
      requires old(conns[i].fd) != -1 && (conns[i].fd == old(conns[i].fd) || conns[i].fd == -1)
      requires forall j | 0 <= j < |conns| && j != i ::
        unchanged(conns[j]) && unchanged(conns[j].ibuf) && unchanged(conns[j].obuf)
      ensures Valid() && forall j | 0 <= j < |conns| && j != i :: conns[j].SameBytes()
    {
      hide TcpConn.Valid, TcpConn.Buffered, TcpConn.PoolIsolated, TcpConn.LoopIsolated, TcpConn.SameBytes, BufPool.ValidBut;
      conns[i].Surroundings();
      forall j | 0 <= j < |conns| && j != i ensures conns[j].Valid() && conns[j].SameBytes() {
        conns[i].NeighbourKept(conns[j]);
      }
    }

    method Send(i: nat, body: seq<byte>, msgid: int32, ghost v: ServerValue) returns (r: SendResult)
      requires Valid() && Shows(v) && i < |conns| && conns[i].IsOpen()
      modifies conns[i], loop, conns[i].obuf, pool, pool.known, conns[i].obuf.Arrays()
      ensures !r.SendHalted? ==> Valid() && forall j | 0 <= j < |conns| && j != i :: conns[j].SameBytes()
      ensures !r.SendHalted? ==> fresh(Footprint() - old(Footprint()))
      ensures !r.SendHalted? ==> i < |v.conns| && Shows(Replaced(v, i, AfterSend(v.conns[i], body, msgid)))
      ensures r.SendHalted? ==> pool.NearLimit()
      ensures !r.SendHalted? ==> conns[i].IsOpen() && (r.Sent? <==> old(conns[i].HasRoom(body)))
      ensures !r.SendHalted? ==> conns[i].wire == old(conns[i].wire)
      ensures !r.SendHalted? ==> conns[i].delivered == old(conns[i].delivered) && conns[i].arrived == old(conns[i].arrived)
      ensures conns[i].sent == old(conns[i].sent) + if r.Sent? then [Message(msgid, body)] else []
    {
      hide TcpConn.Valid, TcpConn.Buffered, TcpConn.PoolIsolated, TcpConn.LoopIsolated, TcpConn.SameBytes, BufPool.NearLimit, TcpConn.HasRoom;
      hide AfterSend, AfterWrite, AfterRead, Closed;
      hide BufPool.ValidBut, EventLoop.Valid, Footprint;
      OwnBuffers();
      ghost var w := AfterSend(v.conns[i], body, msgid);
      r := conns[i].SendMessage(body, msgid);
      if !r.SendHalted? {
        OthersKept(i);
        forall j | 0 <= j < |conns| && j != i ensures conns[j].Shows(v.conns[j]) {
          conns[j].StillShows(v.conns[j]);
        }
        conns[i].LoopKeys();
        OneChanged(v, i, w);
        OnlyNewObjects(i);
      }
    }

    method Write(i: nat, outcomes: nat -> WriteOutcome, ghost v: ServerValue)
      requires Valid() && Shows(v) && i < |conns| && conns[i].IsOpen()
      modifies conns[i], loop, conns[i].ibuf, conns[i].obuf, pool, pool.known, conns[i].obuf.Arrays()
      ensures Valid() && forall j | 0 <= j < |conns| && j != i :: conns[j].SameBytes()
      ensures fresh(Footprint() - old(Footprint()))
      ensures i < |v.conns| && Shows(Replaced(v, i, AfterWrite(v.conns[i], outcomes)))
      ensures conns[i].Wrote(outcomes) && conns[i].sent == old(conns[i].sent)
      ensures conns[i].delivered == old(conns[i].delivered) && conns[i].arrived == old(conns[i].arrived)
    {
      hide TcpConn.Valid, TcpConn.Buffered, TcpConn.PoolIsolated, TcpConn.LoopIsolated, TcpConn.SameBytes;
      hide AfterSend, AfterWrite, AfterRead, Closed;
      hide BufPool.ValidBut, EventLoop.Valid, Footprint, Taken;
      OwnBuffers();
      ghost var w := AfterWrite(v.conns[i], outcomes);
      conns[i].DoWrite(outcomes);
      OthersKept(i);
      forall j | 0 <= j < |conns| && j != i ensures conns[j].Shows(v.conns[j]) {
        conns[j].StillShows(v.conns[j]);
      }
      conns[i].LoopKeys();
      OneChanged(v, i, w);
      OnlyNewObjects(i);
    }

    method Read(i: nat, arrival: Arrival, ghost v: ServerValue) returns (outcome: ReadOutcome)
      requires Valid() && Shows(v) && i < |conns| && conns[i].IsOpen()
      modifies conns[i], loop, conns[i].ibuf, conns[i].obuf, pool, pool.known, conns[i].ibuf.Arrays()
      ensures !outcome.ReadCrashed? ==> Valid() && forall j | 0 <= j < |conns| && j != i :: conns[j].SameBytes()
      ensures !outcome.ReadCrashed? ==> fresh(Footprint() - old(Footprint()))
      ensures !outcome.ReadCrashed? ==> i < |v.conns| && Shows(Replaced(v, i, AfterRead(v.conns[i], arrival)))
      ensures outcome.ReadCrashed? ==> pool.NearLimit() || (arrival.Bytes? && !old(conns[i].Fits(arrival)))
      ensures !outcome.ReadCrashed? ==> conns[i].wire == old(conns[i].wire) && conns[i].sent == old(conns[i].sent)
      ensures !outcome.ReadCrashed? ==>
        if old(conns[i].Fits(arrival)) && arrival.chunk != [] then conns[i].Fed(arrival.chunk)
        else !conns[i].IsOpen() && conns[i].arrived == old(conns[i].arrived) && conns[i].delivered == old(conns[i].delivered)
    {
      hide TcpConn.Valid, TcpConn.Buffered, TcpConn.PoolIsolated, TcpConn.LoopIsolated, TcpConn.SameBytes, BufPool.NearLimit, TcpConn.Fits, Parse;
      hide AfterSend, AfterWrite, AfterRead, Closed;
      hide BufPool.ValidBut, EventLoop.Valid, Footprint;
      OwnBuffers();
      ghost var w := AfterRead(v.conns[i], arrival);
      outcome := conns[i].DoRead(arrival);
      if !outcome.ReadCrashed? {
        OthersKept(i);
        forall j | 0 <= j < |conns| && j != i ensures conns[j].Shows(v.conns[j]) {
          conns[j].StillShows(v.conns[j]);
        }
        conns[i].LoopKeys();
        OneChanged(v, i, w);
        OnlyNewObjects(i);
      }
    }

    // ----- Runs -----

    predicate Enabled(e: ServerEvent)
      reads this, loop, conns
    {
      match e
      case Connects(fd) => fd != -1 && fd !in loop.ioEvs && forall c <- conns :: c.fd != fd
      case _ => e.i < |conns| && conns[e.i].IsOpen()
    }

    lemma EnabledIsPossible(e: ServerEvent, v: ServerValue)
      requires Shows(v)
      ensures Enabled(e) <==> Possible(v, e)
    {
      hide TcpConn.Valid, TcpConn.Buffered, BufPool.ValidBut, EventLoop.Valid, Spread;
      forall i | 0 <= i < |conns| ensures v.conns[i].fd == conns[i].fd {
        assert conns[i].Shows(v.conns[i]);
      }
      if e.Connects? && Possible(v, e) {
        forall c <- conns ensures c.fd != e.fd {
          var i :| 0 <= i < |conns| && conns[i] == c;
          assert v.conns[i] in v.conns;
        }
      }
    }

    /** One event, which has its effect unless the process ends. */
    method Handle(e: ServerEvent, ghost v: ServerValue) returns (goesOn: bool)
      requires Valid() && Shows(v) && Possible(v, e)
      modifies Footprint()
      ensures goesOn ==> Valid() && Shows(StepOf(v, e)) && fresh(Footprint() - old(Footprint()))
      ensures !goesOn && e.Arrives? ==> pool.NearLimit() || (e.i < |old(conns)| && !old(conns[e.i].Fits(e.arrival)))
      ensures !goesOn && !e.Arrives? ==> pool.NearLimit()
    {
      hide Valid, Shows, TcpConn.SameBytes, TcpConn.HasRoom, TcpConn.Fits, TcpConn.Fed, TcpConn.Wrote, BufPool.NearLimit;
      hide AfterSend, AfterWrite, AfterRead, Closed;
      InFootprint();
      EnabledIsPossible(e, v);
      goesOn := true;
      match e {
        case Connects(fd) =>
          var c := Accept(fd, v);
        case Sends(i, body, msgid) =>
          var r := Send(i, body, msgid, v);
          goesOn := !r.SendHalted?;
        case Takes(i, outcomes) =>
          Write(i, outcomes, v);
        case Arrives(i, arrival) =>
          var outcome := Read(i, arrival, v);
          goesOn := !outcome.ReadCrashed?;
        case Closes(i) =>
          Close(i, v);
      }
    }

    lemma InFootprint()
      requires Valid()
      ensures forall c <- conns :: c.obuf.Arrays() <= Footprint() && c.ibuf.Arrays() <= Footprint()
    {
      hide TcpConn.Valid, BufPool.ValidBut;
    }

    /** Any events in any order.  As long as the process goes on, the invariant of every connection holds
        after each of them, and the server is where the run on values is. */
    method Run(es: seq<ServerEvent>, ghost v: ServerValue) returns (n: nat)
      requires Valid() && Shows(v)
      modifies Footprint()
      ensures n <= |es| && (n == |es| ==> Valid() && Shows(RunOf(v, es)))
      ensures n < |es| ==> pool.NearLimit() || es[n].Arrives?
      decreases |es|
    {
      hide Valid, Shows, BufPool.NearLimit, Footprint, StepOf, Possible, Enabled;
      n := 0;
      if es == [] {
        return;
      }
      EnabledIsPossible(es[0], v);
      var goesOn := true;
      ghost var next := v;
      if Enabled(es[0]) {
        goesOn := Handle(es[0], v);
        next := StepOf(v, es[0]);
      }
      if goesOn {
        n := Run(es[1..], next);
        n := n + 1;
      }
    }
  }
}
