/**
 The client side of a connection, once it is set up: two fixed buffers of four megabytes and
 an entry in the event loop.
 */
module TcpClients {
  import opened Keys
  import opened Framing
  import opened Buffers
  import opened ReactorBufs
  import opened EventLoops

  /** What a read event ends in.  `Skipped` leaves everything for the next event, `Aborted` is the
      failed assertion on buffer space, `Broken` a length the source accepts although the bytes are
      not there (see `ClientTest`). */
  datatype ClientRead = Reading | Skipped | Hungup | Aborted | Broken

  /** A closed descriptor stays closed. */
  ghost predicate KeepsFailing(outcomes: nat -> WriteOutcome) {
    forall i: nat :: outcomes(i).WriteFailed? ==> outcomes(i + 1).WriteFailed?
  }

  /** Whether the loop of `do_write`, with `n` bytes left before write number `i`, is still going after
      `k` more iterations.  A failed write does not end it. */
  function Looping(outcomes: nat -> WriteOutcome, i: nat, n: nat, k: nat): bool
    decreases k
  {
    n > 0 &&
    (k == 0 ||
     if outcomes(i).WriteFailed? then Looping(outcomes, i + 1, n, k - 1)
     else Accepted(outcomes(i), n) > 0 && Looping(outcomes, i + 1, n - Accepted(outcomes(i), n), k - 1))
  }

  ghost predicate Spins(outcomes: nat -> WriteOutcome, i: nat, n: nat) {
    forall k: nat :: Looping(outcomes, i, n, k)
  }

  lemma {:induction false} FailingLoops(outcomes: nat -> WriteOutcome, i: nat, n: nat, k: nat)
    requires KeepsFailing(outcomes) && outcomes(i).WriteFailed? && n > 0
    ensures Looping(outcomes, i, n, k)
    decreases k
  {
    if k > 0 {
      FailingLoops(outcomes, i + 1, n, k - 1);
    }
  }

  /** An iteration that takes bytes decides nothing about the rest. */
  lemma LoopingOn(outcomes: nat -> WriteOutcome, i: nat, n: nat, j: nat, m: nat)
    requires 0 < Accepted(outcomes(i), n) && j == i + 1 && m == n - Accepted(outcomes(i), n)
    ensures Spins(outcomes, i, n) <==> Spins(outcomes, j, m)
  {
    if Spins(outcomes, i, n) {
      forall k: nat ensures Looping(outcomes, j, m, k) {
        var l: nat := k + 1;
        assert Looping(outcomes, i, n, l);
      }
    }
    if Spins(outcomes, j, m) {
      forall k: nat ensures Looping(outcomes, i, n, k) {
        if k > 0 {
          var l: nat := k - 1;
          assert Looping(outcomes, j, m, l);
        }
      }
    }
  }

  /** The loop never ends exactly when a write fails before all bytes are taken. */
  lemma {:induction false} SpinsIfFailed(outcomes: nat -> WriteOutcome, i: nat, n: nat)
    requires KeepsFailing(outcomes)
    ensures Taken(outcomes, i, n).1 <==> Spins(outcomes, i, n)
    decreases n
  {
    var a := Accepted(outcomes(i), n);
    if n == 0 {
      assert !Looping(outcomes, i, n, 0);
    } else if outcomes(i).WriteFailed? {
      forall k: nat ensures Looping(outcomes, i, n, k) {
        FailingLoops(outcomes, i, n, k);
      }
    } else if a == 0 {
      assert !Looping(outcomes, i, n, 1);
    } else {
      SpinsIfFailed(outcomes, i + 1, n - a);
      LoopingOn(outcomes, i, n, i + 1, n - a);
    }
  }

  class TcpClient {
    const ibuf: IoBuf
    const obuf: IoBuf
    const loop: EventLoop
    const fd: int
    var connected: bool
    var wire: seq<byte>
    var delivered: seq<Message>
    /** All messages sent, and all bytes read. */
    ghost var sent: seq<Message>
    ghost var arrived: seq<byte>

    ghost predicate Buffered()
      reads ibuf, obuf
    {
      && ibuf != obuf && ibuf.data != obuf.data
      && ibuf.Valid() && obuf.Valid() && ibuf.capacity == obuf.capacity == M4M
      && ibuf.head == 0 && obuf.head == 0
    }

    ghost predicate Valid()
      reads this, ibuf, obuf, ibuf.data, obuf.data, loop
    {
      && Buffered() && loop.Valid()
      && (connected ==>
            && fd in loop.kernel && EPOLLIN in loop.kernel[fd]
            && (EPOLLOUT in loop.kernel[fd] <==> obuf.Contents() != []))
      && wire + obuf.Contents() == Stream(sent) && (forall m <- sent :: Encodable(m))
      && Parse(Client, arrived) == (delivered, Open(ibuf.Contents()))
    }

    /** A connection just made, with input armed and nothing queued. */
    constructor (loop: EventLoop, fd: int)
      requires loop.Valid() && fd in loop.kernel && loop.kernel[fd] == {EPOLLIN}
      ensures Valid() && connected && this.fd == fd && this.loop == loop
      ensures wire == [] && delivered == [] && sent == [] && arrived == []
      ensures ibuf.Contents() == [] && fresh(ibuf) && fresh(obuf)
    {
      ibuf := new IoBuf(M4M);
      obuf := new IoBuf(M4M);
      this.loop, this.fd := loop, fd;
      connected, wire, delivered, sent, arrived := true, [], [], [], [];
    }

    /** Nothing is queued unless head and body both fit. */
    method SendMessage(body: seq<byte>, msgid: int32) returns (ok: bool)
      requires Valid()
      modifies this`sent, loop, obuf`length, obuf.data
      ensures Valid()
      ensures ok <==> connected && |old(obuf.Contents())| + HEAD_LEN + |body| <= M4M
      ensures ok ==> var m := Message(msgid, body);
        sent == old(sent) + [m] && obuf.Contents() == old(obuf.Contents()) + Frame(m)
      ensures !ok ==> sent == old(sent) && obuf.Contents() == old(obuf.Contents()) && unchanged(loop)
    {
      hide Head, Stream, Parse, IoBuf.Contents;
      ok := false;
      if !connected || |body| + HEAD_LEN > obuf.capacity - obuf.length {
        return;
      }
      ghost var was := obuf.Contents();
      var needAddEvent := obuf.length == 0;
      var head := Head(msgid, |body|);
      obuf.Append(head);
      obuf.Append(body);
      StreamAppend(sent, Message(msgid, body));
      sent := sent + [Message(msgid, body)];
      assert was + head + body == was + Frame(Message(msgid, body));
      assert wire + (was + Frame(Message(msgid, body))) == wire + was + Frame(Message(msgid, body));
      if needAddEvent {
        loop.AddIoEvent(fd, {EPOLLOUT});
      }
      ok := true;
    }

    /** `do_write`.  After a write that fails the connection is closed, but the loop goes on.  As writes
        to a closed descriptor keep failing, it `spins`, that is, it is still looping after any number
        of iterations, exactly when a write failed. */
    method DoWrite(outcomes: nat -> WriteOutcome) returns (spins: bool)
      requires Valid() && connected && obuf.Contents() != []
      modifies this`wire, this`connected, loop, obuf, obuf.data
      ensures Valid() && connected == !spins
      ensures var (n, failed) := Taken(outcomes, 0, |old(obuf.Contents())|);
        && spins == failed && wire == old(wire) + old(obuf.Contents())[..n]
        && obuf.Contents() == old(obuf.Contents())[n..]
      ensures KeepsFailing(outcomes) ==>
        (spins <==> Spins(outcomes, 0, |old(obuf.Contents())|))
    {
      hide IoBuf.Contents, Taken, Spins, Parse, Stream;
      if KeepsFailing(outcomes) {
        SpinsIfFailed(outcomes, 0, obuf.length);
      }
      spins := Drain(outcomes);
      MovedPrefix(old(wire), old(obuf.Contents()), wire, obuf.Contents(), |wire| - |old(wire)|);
      if spins {
        CleanConn();
        return;
      }
      if obuf.length == 0 {
        assert EPOLLIN in loop.ioEvs[fd].mask - {EPOLLOUT};
        loop.DelIoEvent(fd, {EPOLLOUT});
      }
    }

    /** The kernel has taken `n` bytes. */
    method Advance(n: nat)
      requires Buffered() && 0 < n <= obuf.length
      modifies this`wire, obuf, obuf.data
      ensures Buffered() && obuf.length == old(obuf.length) - n && |wire| == |old(wire)| + n
      ensures old(wire) <= wire && wire + obuf.Contents() == old(wire + obuf.Contents())
    {
      hide IoBuf.Contents;
      ghost var was := obuf.Contents();
      assert wire + was[..n] + was[n..] == wire + was;
      wire := wire + obuf.Front(n);
      obuf.Pop(n);
      obuf.Adjust();
    }

    /** The loop of `do_write`, up to the first write that fails. */
    method Drain(outcomes: nat -> WriteOutcome) returns (failed: bool)
      requires Buffered()
      modifies this`wire, obuf, obuf.data
      ensures Buffered() && old(wire) <= wire && wire + obuf.Contents() == old(wire + obuf.Contents())
      ensures (|wire| - |old(wire)|, failed) == Taken(outcomes, 0, |old(obuf.Contents())|)
    {
      hide IoBuf.Contents;
      var i: nat := 0;
      ghost var total, start := obuf.length, |wire|;
      while obuf.length != 0
        invariant Buffered() && old(wire) <= wire && wire + obuf.Contents() == old(wire + obuf.Contents())
        invariant Taken(outcomes, 0, total) ==
          (|wire| - start + Taken(outcomes, i, obuf.length).0, Taken(outcomes, i, obuf.length).1)
        decreases obuf.length
      {
        var n := Accepted(outcomes(i), obuf.length);
        if n == 0 {
          return outcomes(i).WriteFailed?;
        }
        Advance(n);
        i := i + 1;
      }
      return false;
    }

    /** `clean_conn`. */
    method CleanConn()
      requires Buffered() && loop.Valid() && wire + obuf.Contents() == Stream(sent)
      requires (forall m <- sent :: Encodable(m)) && Parse(Client, arrived) == (delivered, Open(ibuf.Contents()))
      modifies this`connected, loop
      ensures Valid() && !connected
      ensures loop.ioEvs == old(loop.ioEvs) - {fd} && loop.kernel == old(loop.kernel) - {fd}
    {
      hide Parse, Stream, IoBuf.Contents;
      loop.DelFd(fd);
      connected := false;
    }

    /** `do_read`: one read event feeds the client's framing loop. */
    method DoRead(arrival: Arrival) returns (r: ClientRead)
      requires Valid() && connected
      modifies this, loop, ibuf, ibuf.data
      ensures r.Skipped? <==> arrival.IoctlFailed?
      ensures r.Aborted? <==> arrival.Bytes? && |old(ibuf.Contents())| + |arrival.chunk| > M4M
      ensures r.Hungup? <==> arrival.ReadFailed? || arrival == Arrival.Bytes([])
      ensures !r.Aborted? && !r.Broken? ==> Valid() && wire == old(wire) && sent == old(sent) && connected == !r.Hungup?
      ensures r.Reading? || r.Broken? ==> arrival.Bytes? && arrived == old(arrived) + arrival.chunk
      ensures r.Skipped? || r.Hungup? ==> arrived == old(arrived) && delivered == old(delivered) && ibuf.Contents() == old(ibuf.Contents())
      ensures r.Reading? || r.Broken? ==>
        var (ms, input) := Feed(Client, Open(old(ibuf.Contents())), arrival.chunk);
        && delivered == old(delivered) + ms
        && (if r.Reading? then input == Open(ibuf.Contents()) else input == Failed)
    {
      hide Parse, IoBuf.Contents, Stream;
      if arrival.IoctlFailed? {
        return Skipped;
      }
      if arrival.Bytes? && |arrival.chunk| > ibuf.capacity - ibuf.length {
        return Aborted;
      }
      if arrival.ReadFailed? || arrival.chunk == [] {
        CleanConn();
        return Hungup;
      }
      ParseInTwo(Client, arrived, arrival.chunk);
      ibuf.Append(arrival.chunk);
      arrived := arrived + arrival.chunk;
      var bad := CutMessages();
      if bad {
        return Broken;
      }
      ibuf.Adjust();
      return Reading;
    }

    method CutMessages() returns (bad: bool)
      requires ibuf.Valid()
      modifies this`delivered, ibuf`head, ibuf`length
      ensures ibuf.Valid()
      ensures delivered == old(delivered) + Parse(Client, old(ibuf.Contents())).0
      ensures Parse(Client, old(ibuf.Contents())).1 == if bad then Failed else Open(ibuf.Contents())
    {
      hide DecodeInt, IoBuf.Contents, Parse;
      ghost var ms: seq<Message> := [];
      assert [] + Parse(Client, ibuf.Contents()).0 == Parse(Client, ibuf.Contents()).0;
      while ibuf.length >= HEAD_LEN
        invariant ibuf.Valid() && delivered == old(delivered) + ms
        invariant Parse(Client, old(ibuf.Contents())) ==
                  (ms + Parse(Client, ibuf.Contents()).0, Parse(Client, ibuf.Contents()).1)
        decreases ibuf.length
      {
        ghost var buf := ibuf.Contents();
        var head := ibuf.Front(HEAD_LEN);
        assert head[..4] == buf[..4] && head[4..8] == buf[4..8];
        var id, len := DecodeInt(head[..4]), DecodeInt(head[4..8]);
        if len < 0 || len > CLIENT_LIMIT {
          ParseEnds(Client, ms, buf);
          return true;
        }
        if len + HEAD_LEN > ibuf.length {
          break;
        }
        ParseNext(Client, ms, buf);
        Deliver(id, len);
        ms := ms + [Message(id, buf[HEAD_LEN..HEAD_LEN + len])];
      }
      ParseEnds(Client, ms, ibuf.Contents());
      return false;
    }

    method Deliver(id: int32, len: nat)
      requires ibuf.Valid() && HEAD_LEN + len <= ibuf.length
      modifies this`delivered, ibuf`head, ibuf`length
      ensures ibuf.Valid() && ibuf.Contents() == old(ibuf.Contents())[HEAD_LEN + len..]
      ensures delivered == old(delivered) + [Message(id, old(ibuf.Contents())[HEAD_LEN..HEAD_LEN + len])]
    {
      ibuf.Pop(HEAD_LEN);
      var body := ibuf.Front(len);
      assert body == old(ibuf.Contents())[HEAD_LEN..HEAD_LEN + len];
      delivered := delivered + [Message(id, body)];
      ibuf.Pop(len);
    }
  }
}
