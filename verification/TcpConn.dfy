/**
 A server-side connection: its two byte queues, its entry in the event loop, the bytes the
 kernel has taken and the messages handed to the router.
 */
module TcpConns {
  import opened Keys
  import opened Framing
  import opened Buffers
  import opened ReactorBufs
  import opened EventLoops

  datatype SendResult = Sent | NotSent | SendHalted
  datatype ReadOutcome = Running | ClosedNow | ReadCrashed

  /** What the failed-body path leaves: the head is appended and eight bytes are popped from
      the front. */
  function RolledBack(queue: seq<byte>, id: int, len: int): seq<byte> {
    (queue + Head(id, len))[HEAD_LEN..]
  }

  /** The queue after a message that found no room. */
  function AfterFailure(queue: seq<byte>, id: int, len: int): seq<byte> {
    if |queue| + HEAD_LEN > M4M then queue else RolledBack(queue, id, len)
  }

  /** The queue repeats the head of the failed message, aligned at its end. */
  ghost predicate RepeatsHead(queue: seq<byte>, head: seq<byte>)
    requires |head| == HEAD_LEN
  {
    forall i | 0 <= i < |queue| :: queue[i] == head[(i - |queue|) % HEAD_LEN]
  }

  lemma {:induction false} Periodic(queue: seq<byte>, head: seq<byte>, i: nat)
    requires |head| == HEAD_LEN && (queue + head)[HEAD_LEN..] == queue && i < |queue|
    ensures queue[i] == head[(i - |queue|) % HEAD_LEN]
    decreases |queue| - i
  {
    assert queue[i] == (queue + head)[HEAD_LEN + i];
    if i + HEAD_LEN < |queue| {
      Periodic(queue, head, i + HEAD_LEN);
    }
  }

  /** The rollback of one failed call restores the queue exactly when the queue is made of copies of
      the head of the failed message, the first of which may be cut. */
  lemma RollbackRestores(queue: seq<byte>, id: int, len: int)
    ensures RolledBack(queue, id, len) == queue <==> RepeatsHead(queue, Head(id, len))
  {
    hide Head;
    var head, n := Head(id, len), |queue|;
    if RolledBack(queue, id, len) == queue {
      forall i | 0 <= i < n ensures queue[i] == head[(i - n) % HEAD_LEN] {
        Periodic(queue, head, i);
      }
    }
    if RepeatsHead(queue, head) {
      forall i | 0 <= i < n ensures RolledBack(queue, id, len)[i] == queue[i] {
        if i + HEAD_LEN < n {
          assert queue[i + HEAD_LEN] == head[(i + HEAD_LEN - n) % HEAD_LEN];
        }
      }
    }
  }

  /** A failed call as a whole leaves the queue as it was exactly when not even the head fitted, or the
      rollback restores it. */
  lemma FailureKeepsQueue(queue: seq<byte>, id: int, len: int)
    ensures AfterFailure(queue, id, len) == queue <==>
      |queue| + HEAD_LEN > M4M || RepeatsHead(queue, Head(id, len))
  {
    hide RolledBack, RepeatsHead, Head;
    RollbackRestores(queue, id, len);
  }

  /** It restores the queue whatever the message id exactly when the queue is a tail of the length
      field, at most four bytes long; in particular when it is empty. */
  lemma RollbackRestoresAlways(queue: seq<byte>, len: int)
    ensures (forall id | Int32(id) :: RolledBack(queue, id, len) == queue)
       <==> |queue| <= 4 && queue == EncodeInt(len)[4 - |queue|..]
  {
    hide EncodeInt, RolledBack, RepeatsHead, Head;
    forall id ensures
      && (RolledBack(queue, id, len) == queue <==> RepeatsHead(queue, Head(id, len)))
      && (|queue| <= 4 ==> (RepeatsHead(queue, Head(id, len)) <==> queue == EncodeInt(len)[4 - |queue|..]))
      && (|queue| > 4 && RepeatsHead(queue, Head(id, len)) ==> queue[|queue| - 5] == EncodeInt(id)[3])
    {
      RollbackRestores(queue, id, len);
      RepeatedBytes(queue, id, len);
    }
    assert Int32(0) && Int32(0x0101_0101);
    DistinctIds();
  }

  lemma Wrap(d: int)
    requires -HEAD_LEN <= d < 0
    ensures d % HEAD_LEN == d + HEAD_LEN
  {
  }

  lemma RepeatedBytes(queue: seq<byte>, id: int, len: int)
    ensures |queue| <= 4 ==> (RepeatsHead(queue, Head(id, len)) <==> queue == EncodeInt(len)[4 - |queue|..])
    ensures |queue| > 4 && RepeatsHead(queue, Head(id, len)) ==> queue[|queue| - 5] == EncodeInt(id)[3]
  {
    hide EncodeInt;
    var head, n := Head(id, len), |queue|;
    if n <= 4 {
      var tail := EncodeInt(len)[4 - n..];
      forall i | 0 <= i < n ensures head[(i - n) % HEAD_LEN] == tail[i] {
        Wrap(i - n);
      }
    } else {
      var i := n - 5;
      Wrap(i - n);
      assert RepeatsHead(queue, head) ==> queue[i] == head[(i - n) % HEAD_LEN];
    }
  }

  lemma DistinctIds()
    ensures EncodeInt(0)[3] != EncodeInt(0x0101_0101)[3]
  {
  }

  /** A call that breaks the stream: one message waits whole, and a second, too large to be queued,
      leaves its own head in place of the first.  The peer never sees the first message. */
  lemma FailedSendReplacesMessage()
    ensures var m := Message(1, []);
      var queue := AfterFailure(Stream([m]), 2, M4M);
      && |Stream([m])| + HEAD_LEN + M4M > M4M
      && queue == Head(2, M4M) != Stream([m])
      && Parse(Client, queue) == ([], Open(queue))
  {
    hide Head, EncodeInt, DecodeInt;
    var m, head := Message(1, []), Head(2, M4M);
    assert Stream([m]) == Head(1, 0);
    assert (Head(1, 0) + head)[HEAD_LEN..] == head;
    HeadsDiffer(1, 2, 0, M4M);
    HeadLength(2, M4M);
  }

  lemma HeadsDiffer(id: int, id': int, len: int, len': int)
    requires Int32(id) && Int32(id') && id != id'
    ensures Head(id, len) != Head(id', len')
  {
    hide EncodeInt, DecodeInt;
    IntRoundTrip(id);
    IntRoundTrip(id');
    assert Head(id, len)[..4] == EncodeInt(id) && Head(id', len')[..4] == EncodeInt(id');
  }

  lemma HeadLength(id: int, len: int)
    requires Int32(len)
    ensures LenIn(Head(id, len)) == len
  {
    hide EncodeInt, DecodeInt;
    IntRoundTrip(len);
    assert Head(id, len)[4..8] == EncodeInt(len);
  }

  // ----- A connection on values -----

  datatype ConnValue = ConnValue(
    fd: int, wire: seq<byte>, waiting: seq<byte>, sent: seq<Message>, intact: bool,
    arrived: seq<byte>, unread: seq<byte>, delivered: seq<Message>)

  function NewValue(fd: int): ConnValue {
    ConnValue(fd, [], [], [], true, [], [], [])
  }

  function Closed(v: ConnValue): ConnValue {
    v.(fd := -1, waiting := [], unread := [])
  }

  function AfterSend(v: ConnValue, body: seq<byte>, msgid: int32): ConnValue {
    if |v.waiting| + HEAD_LEN + |body| <= M4M then
      v.(waiting := v.waiting + Frame(Message(msgid, body)), sent := v.sent + [Message(msgid, body)])
    else
      var waiting := AfterFailure(v.waiting, msgid, |body|);
      v.(waiting := waiting, intact := v.intact && waiting == v.waiting)
  }

  /** The kernel has taken `n` bytes. */
  function Moved(v: ConnValue, n: nat): ConnValue
    requires n <= |v.waiting|
  {
    v.(wire := v.wire + v.waiting[..n], waiting := v.waiting[n..])
  }

  lemma MovedKeeps(v: ConnValue, n: nat)
    requires n <= |v.waiting|
    ensures Moved(v, n).wire + Moved(v, n).waiting == v.wire + v.waiting
  {
    assert v.waiting == v.waiting[..n] + v.waiting[n..];
  }

  function AfterWrite(v: ConnValue, outcomes: nat -> WriteOutcome): ConnValue {
    var (n, failed) := Taken(outcomes, 0, |v.waiting|);
    if failed then Closed(Moved(v, n)) else Moved(v, n)
  }

  function AfterRead(v: ConnValue, arrival: Arrival): ConnValue {
    if !arrival.Bytes? || arrival.chunk == [] || |v.unread| + |arrival.chunk| > M4M then Closed(v)
    else
      var (ms, input) := Feed(Server, Open(v.unread), arrival.chunk);
      var v' := v.(arrived := v.arrived + arrival.chunk, delivered := v.delivered + ms);
      if input.Failed? then Closed(v') else v'.(unread := input.buf)
  }

  class TcpConn {
    const ibuf: ReactorBuf
    const obuf: ReactorBuf
    const loop: EventLoop
    var fd: int

    /** Bytes the kernel has accepted, and messages handed to the router, in order. */
    var wire: seq<byte>
    var delivered: seq<Message>
    /** All messages sent; `intact` as long as no rollback changed the queue. */
    ghost var sent: seq<Message>
    ghost var intact: bool
    /** All bytes read. */
    ghost var arrived: seq<byte>

    predicate IsOpen()
      reads this
    {
      fd != -1
    }

    ghost predicate Buffered()
      reads ibuf, obuf, ibuf.pool, obuf.pool, ibuf.pool.known, obuf.pool.known
      reads ibuf.pool.owner.Values, obuf.pool.owner.Values
    {
      ibuf != obuf && ibuf.pool == obuf.pool && ibuf.Valid() && obuf.Valid()
    }

    /** The bytes read but not yet cut into messages. */
    ghost function Unread(): seq<byte>
      requires Buffered()
      reads ibuf, obuf, ibuf.pool, obuf.pool, ibuf.pool.known, obuf.pool.known
      reads ibuf.pool.owner.Values, obuf.pool.owner.Values, ibuf.Arrays()
    {
      ibuf.Contents()
    }

    /** The bytes sent but not yet taken by the kernel. */
    ghost function Waiting(): seq<byte>
      requires Buffered()
      reads ibuf, obuf, ibuf.pool, obuf.pool, ibuf.pool.known, obuf.pool.known
      reads ibuf.pool.owner.Values, obuf.pool.owner.Values, obuf.Arrays()
    {
      obuf.Contents()
    }

    function UnreadLength(): (n: nat)
      requires Buffered()
      reads ibuf, obuf, ibuf.pool, obuf.pool, ibuf.pool.known, obuf.pool.known
      reads ibuf.pool.owner.Values, obuf.pool.owner.Values, ibuf.Arrays()
      ensures n == |Unread()|
    {
      ibuf.Length()
    }

    function WaitingLength(): (n: nat)
      requires Buffered()
      reads ibuf, obuf, ibuf.pool, obuf.pool, ibuf.pool.known, obuf.pool.known
      reads ibuf.pool.owner.Values, obuf.pool.owner.Values, obuf.Arrays()
      ensures n == |Waiting()|
    {
      obuf.Length()
    }

    function Peek(n: nat): (bytes: seq<byte>)
      requires Buffered() && n <= |Unread()|
      reads ibuf, obuf, ibuf.pool, obuf.pool, ibuf.pool.known, obuf.pool.known
      reads ibuf.pool.owner.Values, obuf.pool.owner.Values, ibuf.Arrays()
      ensures bytes == Unread()[..n]
    {
      ibuf.Front(n)
    }

    /** Buffers made meanwhile are new objects. */
    twostate predicate OnlyNew()
      reads obuf.pool
    {
      forall b <- obuf.pool.known :: b in old(obuf.pool.known) || (fresh(b) && fresh(b.data))
    }

    /** There is room for a message with this body. */
    ghost predicate HasRoom(body: seq<byte>)
      reads ibuf, obuf, ibuf.pool, obuf.pool, ibuf.pool.known, obuf.pool.known
      reads ibuf.pool.owner.Values, obuf.pool.owner.Values, obuf.Arrays()
    {
      Buffered() && |Waiting()| + HEAD_LEN + |body| <= M4M
    }

    /** What arrives is bytes, and there is room for them. */
    ghost predicate Fits(arrival: Arrival)
      reads ibuf, obuf, ibuf.pool, obuf.pool, ibuf.pool.known, obuf.pool.known
      reads ibuf.pool.owner.Values, obuf.pool.owner.Values, ibuf.Arrays()
    {
      Buffered() && arrival.Bytes? && |Unread()| + |arrival.chunk| <= M4M
    }

    /** The wire has grown by what the kernel takes of the waiting bytes, and a failure has closed the
        connection. */
    twostate predicate Wrote(outcomes: nat -> WriteOutcome)
      reads this
    {
      && old(Buffered())
      && var (n, failed) := Taken(outcomes, 0, |old(Waiting())|);
         wire == old(wire) + old(Waiting())[..n] && IsOpen() == !failed
    }

    /** The framing loop has been fed with these bytes, and a bad head has closed the connection. */
    twostate predicate Fed(chunk: seq<byte>)
      reads this, ibuf, obuf, ibuf.pool, obuf.pool, ibuf.pool.known, obuf.pool.known
      reads ibuf.pool.owner.Values, obuf.pool.owner.Values, ibuf.Arrays()
    {
      && old(Buffered()) && Buffered()
      && var (ms, input) := Feed(Server, Open(old(Unread())), chunk);
         && arrived == old(arrived) + chunk && delivered == old(delivered) + ms
         && (if IsOpen() then input == Open(Unread()) else input == Failed)
    }

    ghost function Value(): ConnValue
      requires Buffered()
      reads this, ibuf, obuf, ibuf.pool, obuf.pool, ibuf.pool.known, obuf.pool.known
      reads ibuf.pool.owner.Values, obuf.pool.owner.Values, ibuf.Arrays(), obuf.Arrays()
    {
      ConnValue(fd, wire, Waiting(), sent, intact, arrived, Unread(), delivered)
    }

    ghost predicate Shows(v: ConnValue)
      reads this, ibuf, obuf, ibuf.pool, obuf.pool, ibuf.pool.known, obuf.pool.known
      reads ibuf.pool.owner.Values, obuf.pool.owner.Values, ibuf.Arrays(), obuf.Arrays()
    {
      Buffered() && Value() == v
    }

    /** Both queues hold the bytes they held. */
    twostate predicate SameBytes()
      reads ibuf, obuf, ibuf.pool, obuf.pool, ibuf.pool.known, obuf.pool.known
      reads ibuf.pool.owner.Values, obuf.pool.owner.Values, ibuf.Arrays(), obuf.Arrays()
    {
      && Buffered() && old(Buffered())
      && Unread() == old(Unread()) && Waiting() == old(Waiting())
    }

    /** No buffer lent to a queue of another connection has changed. */
    twostate predicate PoolIsolated()
      reads obuf, obuf.pool, obuf.pool.known, obuf.Arrays()
    {
      forall b <- old(obuf.pool.owner) | old(obuf.pool.owner[b]) != ibuf && old(obuf.pool.owner[b]) != obuf ::
        b in obuf.pool.known && obuf.Kept(b)
    }

    /** Only a close takes a descriptor from the loop, and no other descriptor's events have changed. */
    twostate predicate LoopIsolated()
      reads this, loop
    {
      && loop.Valid() && loop.ioEvs.Keys == old(loop.ioEvs.Keys) - (if IsOpen() then {} else {old(fd)})
      && forall f <- old(loop.ioEvs) | f != old(fd) ::
          f in loop.ioEvs && f in loop.kernel && f in old(loop.kernel)
          && loop.ioEvs[f] == old(loop.ioEvs[f]) && loop.kernel[f] == old(loop.kernel[f])
    }

    /** Input stays armed, and output is armed in the kernel exactly while bytes wait. */
    ghost predicate Armed(waiting: seq<byte>)
      reads loop, this
    {
      && loop.Valid()
      && (IsOpen() ==>
            && fd in loop.kernel && EPOLLIN in loop.kernel[fd]
            && (EPOLLOUT in loop.kernel[fd] <==> waiting != []))
    }

    /** What the kernel took and what still waits make up the frames of the messages sent; once the
        connection is closed, what the kernel took is a prefix of them.  The client can read each of
        these messages. */
    ghost predicate InOrder(waiting: seq<byte>)
      reads this
    {
      && (forall m <- sent :: Readable(Client, m))
      && (intact ==> if IsOpen() then wire + waiting == Stream(sent) else wire <= Stream(sent))
    }

    /** The messages handed to the router are those of all bytes read, and what is left over from
        them is still unread. */
    ghost predicate InStep(unread: seq<byte>)
      reads this
    {
      && delivered == Parse(Server, arrived).0
      && (IsOpen() ==> Parse(Server, arrived).1 == Open(unread))
    }

    ghost predicate Valid()
      reads this, loop, ibuf, obuf, ibuf.pool, obuf.pool, ibuf.pool.known, obuf.pool.known
      reads ibuf.pool.owner.Values, obuf.pool.owner.Values, ibuf.Arrays(), obuf.Arrays()
    {
      Buffered() && Armed(Waiting()) && InOrder(Waiting()) && InStep(Unread())
    }

    constructor (fd: int, loop: EventLoop, ibuf: ReactorBuf, obuf: ReactorBuf)
      requires fd != -1 && loop.Valid() && fd !in loop.ioEvs
      requires ibuf != obuf && ibuf.pool == obuf.pool && ibuf.Valid() && obuf.Valid()
      requires ibuf.buf == null && obuf.buf == null
      modifies loop
      ensures Valid() && this.fd == fd && this.loop == loop && this.ibuf == ibuf && this.obuf == obuf
      ensures wire == [] && delivered == [] && sent == [] && intact && arrived == []
      ensures Shows(NewValue(fd))
      ensures loop.kernel == old(loop.kernel)[fd := {EPOLLIN}]
      ensures fd in loop.ioEvs && loop.ioEvs == old(loop.ioEvs)[fd := loop.ioEvs[fd]]
    {
      hide BufPool.ValidBut;
      this.fd, this.loop, this.ibuf, this.obuf := fd, loop, ibuf, obuf;
      wire, delivered, sent, intact, arrived := [], [], [], true, [];
      new;
      loop.AddIoEvent(fd, {EPOLLIN});
      assert loop.ioEvs[fd].mask == {EPOLLIN};
    }

    /** What a valid connection says about the loop and the pool it shares. */
    lemma Surroundings()
      requires Valid()
      ensures loop.Valid() && obuf.pool.Valid() && forall b <- obuf.pool.owner :: obuf.pool.owner[b].buf == b
    {
      hide BufPool.ValidBut, Parse, Stream;
    }

    lemma LentKnown()
      requires Buffered()
      ensures obuf.pool.owner.Keys <= obuf.pool.known
    {
      hide BufPool.ValidBut;
      obuf.pool.Lent();
    }

    /** `obuf.send_data`, seen from the connection. */
    method Put(bytes: seq<byte>) returns (room: Room)
      requires Buffered()
      modifies obuf, obuf.pool, obuf.pool.known, obuf.Arrays()
      ensures Buffered() && PoolIsolated() && OnlyNew() && Unread() == old(Unread())
      ensures Waiting() == old(Waiting()) + if room.Granted? then bytes else []
      ensures room.TooLarge? <==> |old(Waiting())| + |bytes| > M4M
      ensures room.Halted? ==> obuf.pool.NearLimit()
    {
      hide BufPool.ValidBut, BufPool.NearLimit;
      room := obuf.SendData(bytes);
      obuf.OtherKept(ibuf);
    }

    /** `obuf.pop`. */
    method Unput(n: nat)
      requires Buffered() && 0 < n <= |Waiting()|
      modifies obuf.pool.known
      ensures Buffered() && PoolIsolated() && OnlyNew() && Unread() == old(Unread())
      ensures Waiting() == old(Waiting())[n..]
    {
      hide BufPool.ValidBut;
      obuf.Pop(n);
      obuf.OtherKept(ibuf);
    }

    /** The queue part of `send_message`: head, then body, with the rollback. */
    method PutFrame(body: seq<byte>, msgid: int32) returns (r: SendResult)
      requires Buffered()
      modifies obuf, obuf.pool, obuf.pool.known, obuf.Arrays()
      ensures Buffered() && PoolIsolated() && OnlyNew() && Unread() == old(Unread())
      ensures r.SendHalted? ==> obuf.pool.NearLimit()
      ensures !r.SendHalted? ==> (r.NotSent? <==> |old(Waiting())| + HEAD_LEN + |body| > M4M)
      ensures r.Sent? ==> Waiting() == old(Waiting()) + Frame(Message(msgid, body))
      ensures r.NotSent? ==> Waiting() == AfterFailure(old(Waiting()), msgid, |body|)
    {
      hide ReactorBuf.Valid, ReactorBuf.Contents, BufPool.ValidBut, BufPool.NearLimit, Head, Unread, Waiting;
      ghost var was := Waiting();
      var head := Head(msgid, |body|);
      var room := Put(head);
      if !room.Granted? {
        return if room.TooLarge? then NotSent else SendHalted;
      }
      room := Put(body);
      assert was + head + body == was + Frame(Message(msgid, body));
      match room {
        case Granted => r := Sent;
        case Halted => r := SendHalted;
        case TooLarge =>
          Unput(HEAD_LEN);
          r := NotSent;
      }
    }

    /** `send_message`: a message is queued whole, and waiting bytes arm the output event. */
    method SendMessage(body: seq<byte>, msgid: int32) returns (r: SendResult)
      requires Valid() && IsOpen()
      modifies this, loop, obuf, obuf.pool, obuf.pool.known, obuf.Arrays()
      ensures r.SendHalted? ==> obuf.pool.NearLimit() && sent == old(sent)
      ensures !r.SendHalted? ==> Valid() && (r.Sent? <==> old(HasRoom(body)))
      ensures !r.SendHalted? ==> fd == old(fd) && wire == old(wire) && delivered == old(delivered) && arrived == old(arrived)
      ensures !r.SendHalted? ==> Unread() == old(Unread()) && PoolIsolated() && OnlyNew() && LoopIsolated()
      ensures r.Sent? ==>
        var m := Message(msgid, body);
        intact == old(intact) && sent == old(sent) + [m] && Waiting() == old(Waiting()) + Frame(m)
      ensures r.NotSent? ==>
        && sent == old(sent) && Waiting() == AfterFailure(old(Waiting()), msgid, |body|)
        && intact == (old(intact) && Waiting() == old(Waiting()))
      ensures !r.SendHalted? ==> Shows(AfterSend(old(Value()), body, msgid))
    {
      hide ReactorBuf.Valid, ReactorBuf.Contents, BufPool.ValidBut, BufPool.NearLimit, Head, Parse;
      var activate := WaitingLength() == 0;
      ghost var was := Waiting();
      r := PutFrame(body, msgid);
      match r {
        case SendHalted =>
        case NotSent =>
          intact := intact && Waiting() == was;
        case Sent =>
          NoteSent(was, Message(msgid, body), activate);
      }
    }

    /** The output event is armed when the queue was empty before. */
    method NoteSent(ghost was: seq<byte>, ghost m: Message, activate: bool)
      requires Buffered() && Waiting() == was + Frame(m) && IsOpen() && Readable(Client, m)
      requires Armed(was) && InOrder(was) && InStep(Unread()) && activate == (was == [])
      modifies this`sent, loop
      ensures Valid() && sent == old(sent) + [m] && Waiting() == old(Waiting())
      ensures LoopIsolated()
    {
      hide ReactorBuf.Valid, ReactorBuf.Contents, BufPool.ValidBut, Stream, Parse;
      StreamAppend(sent, m);
      sent := sent + [m];
      if activate {
        loop.AddIoEvent(fd, {EPOLLOUT});
      }
      assert wire + (was + Frame(m)) == wire + was + Frame(m);
    }

    method ClearInput()
      requires Buffered()
      modifies ibuf, ibuf.pool, ibuf.pool.known
      ensures Buffered() && PoolIsolated() && Unread() == [] && Waiting() == old(Waiting()) && OnlyNew()
    {
      hide BufPool.ValidBut;
      ibuf.Clear();
      ibuf.OtherKept(obuf);
    }

    method ClearOutput()
      requires Buffered()
      modifies obuf, obuf.pool, obuf.pool.known
      ensures Buffered() && PoolIsolated() && Waiting() == [] && Unread() == old(Unread()) && OnlyNew()
    {
      hide BufPool.ValidBut;
      obuf.Clear();
      obuf.OtherKept(ibuf);
    }

    method ClearBoth()
      requires Buffered()
      modifies ibuf, obuf, ibuf.pool, ibuf.pool.known
      ensures Buffered() && PoolIsolated() && OnlyNew() && Unread() == [] && Waiting() == []
    {
      hide ReactorBuf.Valid, ReactorBuf.Contents, BufPool.ValidBut;
      ClearInput();
      ClearOutput();
    }

    /** `clean_conn`, apart from the close hook and the server's table. */
    method CleanConn()
      requires Buffered() && loop.Valid() && delivered == Parse(Server, arrived).0
      requires (forall m <- sent :: Readable(Client, m)) && (intact ==> wire <= Stream(sent))
      modifies this`fd, loop, ibuf, obuf, ibuf.pool, ibuf.pool.known
      ensures Valid() && PoolIsolated() && OnlyNew() && LoopIsolated() && !IsOpen() && Unread() == [] && Waiting() == []
      ensures loop.ioEvs == old(loop.ioEvs) - {old(fd)} && loop.kernel == old(loop.kernel) - {old(fd)}
    {
      hide ReactorBuf.Valid, ReactorBuf.Contents, BufPool.ValidBut, BufPool.NearLimit, Parse, Stream;
      loop.DelFd(fd);
      ClearBoth();
      fd := -1;
    }

    /** `obuf.write2fd`. */
    method WriteOut(outcome: WriteOutcome) returns (written: seq<byte>, failed: bool)
      requires Buffered() && Waiting() != []
      modifies obuf.pool.known, obuf.Arrays()
      ensures Buffered() && PoolIsolated() && OnlyNew() && Unread() == old(Unread())
      ensures written + Waiting() == old(Waiting()) && failed == outcome.WriteFailed?
      ensures |written| == Accepted(outcome, |old(Waiting())|)
    {
      hide BufPool.ValidBut, Accepted;
      written, failed := obuf.Write2fd(outcome);
      obuf.OtherKept(ibuf);
    }

    /** `clean_conn` on a connection between two events. */
    method Close()
      requires Valid() && IsOpen()
      modifies this`fd, loop, ibuf, obuf, ibuf.pool, ibuf.pool.known
      ensures Valid() && PoolIsolated() && OnlyNew() && LoopIsolated() && !IsOpen() && Shows(Closed(old(Value())))
      ensures loop.ioEvs == old(loop.ioEvs) - {old(fd)} && loop.kernel == old(loop.kernel) - {old(fd)}
    {
      hide ReactorBuf.Valid, ReactorBuf.Contents, BufPool.ValidBut, Parse, Stream;
      CleanConn();
    }

    /** One write; what the kernel accepts is on the wire. */
    method WriteOnce(outcome: WriteOutcome) returns (n: nat, failed: bool)
      requires Buffered() && Waiting() != []
      modifies this`wire, obuf.pool.known, obuf.Arrays()
      ensures Buffered() && PoolIsolated() && OnlyNew() && Unread() == old(Unread())
      ensures old(wire) <= wire && wire + Waiting() == old(wire + Waiting()) && |wire| == |old(wire)| + n
      ensures n == Accepted(outcome, |old(Waiting())|) && failed == outcome.WriteFailed? && (failed ==> n == 0)
    {
      hide ReactorBuf.Valid, ReactorBuf.Contents, BufPool.ValidBut;
      var written;
      written, failed := WriteOut(outcome);
      assert wire + written + Waiting() == wire + old(Waiting());
      wire := wire + written;
      n := |written|;
    }

    /** `do_write`: the kernel takes prefixes of the waiting bytes until it takes none.  The
        outcomes of the writes are an input; the loop ends because the queue shrinks. */
    method DoWrite(outcomes: nat -> WriteOutcome)
      requires Valid() && IsOpen()
      modifies this, loop, ibuf, obuf, obuf.pool, obuf.pool.known, obuf.Arrays()
      ensures Valid() && PoolIsolated() && OnlyNew() && LoopIsolated()
      ensures delivered == old(delivered) && sent == old(sent) && intact == old(intact) && arrived == old(arrived)
      ensures Wrote(outcomes) && Shows(AfterWrite(old(Value()), outcomes))
      ensures IsOpen() ==> fd == old(fd) && Unread() == old(Unread()) && wire + Waiting() == old(wire + Waiting())
    {
      hide ReactorBuf.Valid, ReactorBuf.Contents, BufPool.ValidBut, Parse, Stream, Taken, Unread, Waiting;
      ghost var v := Value();
      var failed := Flush(outcomes);
      MovedKeeps(v, Taken(outcomes, 0, |v.waiting|).0);
      Settle(failed);
    }

    /** The bytes that have left the queue are a prefix of it. */
    method Flush(outcomes: nat -> WriteOutcome) returns (failed: bool)
      requires Buffered()
      modifies this`wire, obuf.pool.known, obuf.Arrays()
      ensures Buffered() && PoolIsolated() && OnlyNew() && failed == Taken(outcomes, 0, |old(Waiting())|).1
      ensures Value() == Moved(old(Value()), Taken(outcomes, 0, |old(Waiting())|).0)
    {
      hide ReactorBuf.Valid, ReactorBuf.Contents, BufPool.ValidBut, Taken, Unread, Waiting;
      failed := Drain(outcomes);
      MovedPrefix(old(wire), old(Waiting()), wire, Waiting(), |wire| - |old(wire)|);
    }

    /** After the writes: a failure closes the connection, and an empty queue disarms the output event. */
    method Settle(failed: bool)
      requires Buffered() && IsOpen() && InOrder(Waiting()) && InStep(Unread())
      requires loop.Valid() && fd in loop.kernel && EPOLLIN in loop.kernel[fd]
      requires Waiting() != [] ==> EPOLLOUT in loop.kernel[fd]
      modifies this`fd, loop, ibuf, obuf, obuf.pool, obuf.pool.known
      ensures Valid() && PoolIsolated() && OnlyNew() && LoopIsolated() && IsOpen() == !failed
      ensures Value() == if failed then Closed(old(Value())) else old(Value())
    {
      hide ReactorBuf.Valid, ReactorBuf.Contents, BufPool.ValidBut, Parse, Stream;
      LentKnown();
      if failed {
        CleanConn();
      } else if WaitingLength() == 0 {
        Disarm();
      }
    }

    /** The loop of `do_write`. */
    method Drain(outcomes: nat -> WriteOutcome) returns (failed: bool)
      requires Buffered()
      modifies this`wire, obuf.pool.known, obuf.Arrays()
      ensures Buffered() && PoolIsolated() && OnlyNew() && Unread() == old(Unread())
      ensures old(wire) <= wire && wire + Waiting() == old(wire + Waiting())
      ensures (|wire| - |old(wire)|, failed) == Taken(outcomes, 0, |old(Waiting())|)
    {
      hide ReactorBuf.Valid, ReactorBuf.Contents, BufPool.ValidBut, Accepted, Unread, Waiting;
      LentKnown();
      var i: nat := 0;
      failed := false;
      ghost var total, start := |Waiting()|, |wire|;
      while WaitingLength() != 0
        invariant Buffered() && PoolIsolated() && OnlyNew() && Unread() == old(Unread())
        invariant old(wire) <= wire && wire + Waiting() == old(wire + Waiting()) && !failed
        invariant Taken(outcomes, 0, total) ==
          (|wire| - start + Taken(outcomes, i, |Waiting()|).0, Taken(outcomes, i, |Waiting()|).1)
        decreases |Waiting()|
      {
        var n;
        n, failed := WriteOnce(outcomes(i));
        if failed || n == 0 {
          return;
        }
        i := i + 1;
      }
    }

    /** `del_io_event(_connfd, EPOLLOUT)` on an empty queue. */
    method Disarm()
      requires Buffered() && Waiting() == [] && InOrder([]) && InStep(Unread()) && IsOpen()
      requires loop.Valid() && fd in loop.kernel && EPOLLIN in loop.kernel[fd]
      modifies loop
      ensures Valid() && LoopIsolated() && Waiting() == [] && Unread() == old(Unread())
    {
      hide ReactorBuf.Valid, ReactorBuf.Contents, BufPool.ValidBut, Parse;
      assert EPOLLIN in loop.ioEvs[fd].mask - {EPOLLOUT};
      loop.DelIoEvent(fd, {EPOLLOUT});
    }

    // ----- Reading -----

    method Receive(arrival: Arrival) returns (r: ReadResult)
      requires Buffered()
      modifies ibuf, ibuf.pool, ibuf.pool.known, ibuf.Arrays()
      ensures Buffered() && PoolIsolated() && OnlyNew() && Waiting() == old(Waiting())
      ensures r.Got? ==> arrival.Bytes? && r.n == |arrival.chunk| && Unread() == old(Unread()) + arrival.chunk
      ensures arrival.Bytes? ==> (r.ReadError? || r.Crashed? <==> |old(Unread())| + |arrival.chunk| > M4M)
      ensures (r.Crashed? ==> arrival.Bytes?) && (r.ReadHalted? ==> ibuf.pool.NearLimit())
    {
      hide BufPool.ValidBut, BufPool.NearLimit;
      r := ibuf.ReadData(arrival);
      ibuf.OtherKept(obuf);
    }

    /** `ibuf.pop`. */
    method Drop(n: nat)
      requires Buffered() && n <= |Unread()|
      modifies ibuf.pool.known
      ensures Buffered() && PoolIsolated() && OnlyNew() && Waiting() == old(Waiting()) && Unread() == old(Unread())[n..]
    {
      hide BufPool.ValidBut;
      ibuf.pool.Lent();
      if n > 0 {
        ibuf.Pop(n);
        ibuf.OtherKept(obuf);
      }
    }

    method AdjustInput()
      requires Buffered()
      modifies ibuf.pool.known, ibuf.Arrays()
      ensures Buffered() && PoolIsolated() && OnlyNew() && Waiting() == old(Waiting()) && Unread() == old(Unread())
    {
      hide BufPool.ValidBut;
      ibuf.Adjust();
      ibuf.OtherKept(obuf);
    }

    /** The framing loop of `do_read`. */
    method CutMessages() returns (bad: bool)
      requires Buffered()
      modifies this`delivered, ibuf.pool.known
      ensures Buffered() && PoolIsolated() && OnlyNew() && Waiting() == old(Waiting())
      ensures delivered == old(delivered) + Parse(Server, old(Unread())).0
      ensures Parse(Server, old(Unread())).1 == if bad then Failed else Open(Unread())
    {
      hide ReactorBuf.Valid, ReactorBuf.Contents, BufPool.ValidBut, DecodeInt, Parse;
      LentKnown();
      ghost var ms: seq<Message> := [];
      assert [] + Parse(Server, Unread()).0 == Parse(Server, Unread()).0;
      while UnreadLength() > HEAD_LEN
        invariant Buffered() && PoolIsolated() && OnlyNew() && Waiting() == old(Waiting())
        invariant delivered == old(delivered) + ms
        invariant Parse(Server, old(Unread())) == (ms + Parse(Server, Unread()).0, Parse(Server, Unread()).1)
        decreases |Unread()|
      {
        ghost var buf := Unread();
        var head := Peek(HEAD_LEN);
        assert head[..4] == buf[..4] && head[4..8] == buf[4..8];
        var id, len := DecodeInt(head[..4]), DecodeInt(head[4..8]);
        if len > LENGTH_LIMIT || len < 0 {
          ParseEnds(Server, ms, buf);
          return true;
        }
        if UnreadLength() < HEAD_LEN + len {
          break;
        }
        ParseNext(Server, ms, buf);
        Deliver(id, len);
        ms := ms + [Message(id, buf[HEAD_LEN..HEAD_LEN + len])];
      }
      ParseEnds(Server, ms, Unread());
      return false;
    }

    /** One message leaves the queue for the router. */
    method Deliver(id: int32, len: nat)
      requires Buffered() && HEAD_LEN + len <= |Unread()|
      modifies this`delivered, ibuf.pool.known
      ensures Buffered() && PoolIsolated() && OnlyNew() && Waiting() == old(Waiting())
      ensures delivered == old(delivered) + [Message(id, old(Unread())[HEAD_LEN..HEAD_LEN + len])]
      ensures Unread() == old(Unread())[HEAD_LEN + len..]
    {
      hide ReactorBuf.Valid, ReactorBuf.Contents, BufPool.ValidBut;
      Drop(HEAD_LEN);
      var body := Peek(len);
      assert body == old(Unread())[HEAD_LEN..HEAD_LEN + len];
      delivered := delivered + [Message(id, body)];
      Drop(len);
    }

    /** The framing loop on what was unread and what has just arrived. */
    method CutArrived(ghost unread: seq<byte>, ghost chunk: seq<byte>) returns (bad: bool)
      requires Buffered() && Unread() == unread + chunk && Parse(Server, arrived) == (delivered, Open(unread))
      modifies this`delivered, this`arrived, ibuf.pool.known
      ensures Buffered() && PoolIsolated() && OnlyNew() && Waiting() == old(Waiting())
      ensures arrived == old(arrived) + chunk
      ensures delivered == old(delivered) + Feed(Server, Open(unread), chunk).0
      ensures Feed(Server, Open(unread), chunk).1 == if bad then Failed else Open(Unread())
      ensures Parse(Server, arrived) == (delivered, Feed(Server, Open(unread), chunk).1)
    {
      hide ReactorBuf.Valid, ReactorBuf.Contents, BufPool.ValidBut, Parse;
      ParseInTwo(Server, arrived, chunk);
      arrived := arrived + chunk;
      bad := CutMessages();
    }

    /** `do_read`: one read event feeds the framing loop; end of stream, errors and bad heads
        close the connection. */
    method DoRead(arrival: Arrival) returns (outcome: ReadOutcome)
      requires Valid() && IsOpen()
      modifies this, loop, ibuf, obuf, ibuf.pool, ibuf.pool.known, ibuf.Arrays()
      ensures outcome.ReadCrashed? ==> ibuf.pool.NearLimit() || (arrival.Bytes? && !old(Fits(arrival)))
      ensures !outcome.ReadCrashed? ==> PoolIsolated() && OnlyNew() && LoopIsolated()
      ensures !outcome.ReadCrashed? ==> Valid() && wire == old(wire) && sent == old(sent) && intact == old(intact)
      ensures outcome.Running? ==> fd == old(fd) && Waiting() == old(Waiting())
      ensures !outcome.ReadCrashed? ==> (outcome.Running? <==> IsOpen()) && Shows(AfterRead(old(Value()), arrival))
      ensures !outcome.ReadCrashed? ==>
        if old(Fits(arrival)) && arrival.chunk != [] then Fed(arrival.chunk)
        else !IsOpen() && arrived == old(arrived) && delivered == old(delivered)
    {
      hide ReactorBuf.Valid, ReactorBuf.Contents, BufPool.ValidBut, BufPool.NearLimit, Parse, Stream;
      var r := Receive(arrival);
      if r.Crashed? || r.ReadHalted? {
        return ReadCrashed;
      }
      if r.ReadError? || r.n == 0 {
        CleanConn();
        return ClosedNow;
      }
      var bad := CutArrived(old(Unread()), arrival.chunk);
      if bad {
        CleanConn();
        return ClosedNow;
      }
      AdjustInput();
      return Running;
    }

    twostate lemma LoopKeys()
      requires LoopIsolated()
      ensures loop.ioEvs.Keys == old(loop.ioEvs.Keys) - if fd == -1 then {old(fd)} else {}
    {
    }

    twostate lemma StillShows(v: ConnValue)
      requires old(Shows(v)) && unchanged(this) && SameBytes()
      ensures Shows(v)
    {
      hide Buffered;
    }

    /** A new descriptor in the loop disturbs nothing. */
    twostate lemma BesideNew(f: int)
      requires old(Valid()) && f != fd && loop.Valid() && loop.kernel == old(loop.kernel)[f := {EPOLLIN}]
      requires unchanged(this) && unchanged(ibuf) && unchanged(obuf) && unchanged(obuf.pool)
      requires unchanged(obuf.pool.known) && unchanged(obuf.pool.owner.Values)
      requires unchanged(ibuf.Arrays()) && unchanged(obuf.Arrays())
      ensures Valid() && SameBytes()
    {
      hide ReactorBuf.Valid, ReactorBuf.Contents, BufPool.ValidBut, Parse, Stream, EventLoop.Valid;
      assert Buffered() && Unread() == old(Unread()) && Waiting() == old(Waiting());
    }

    /** A step of one connection keeps every queue it does not own. */
    twostate lemma QueueKept(q: ReactorBuf)
      requires old(Buffered()) && Buffered() && PoolIsolated()
      requires old(q.Valid()) && q.pool == obuf.pool && q != ibuf && q != obuf && unchanged(q)
      ensures q.Valid() && q.Contents() == old(q.Contents())
    {
      hide BufPool.ValidBut;
      if q.buf != null {
        assert obuf.Kept(q.buf);
        obuf.pool.LentBuffer(q.buf);
      }
    }

    /** A step of one connection keeps the invariant, the bytes and the messages of every other
        connection on the same pool and loop. */
    twostate lemma NeighbourKept(other: TcpConn)
      requires old(Valid()) && old(other.Valid()) && Valid() && PoolIsolated() && LoopIsolated()
      requires other.loop == loop && other.obuf.pool == obuf.pool && other.fd != old(fd)
      requires {ibuf, obuf} !! {other.ibuf, other.obuf}
      requires unchanged(other) && unchanged(other.ibuf) && unchanged(other.obuf)
      ensures other.Valid() && other.SameBytes()
    {
      hide BufPool.ValidBut, ReactorBuf.Valid, ReactorBuf.Contents, PoolIsolated, Stream, Parse;
      QueueKept(other.ibuf);
      QueueKept(other.obuf);
    }
  }
}
