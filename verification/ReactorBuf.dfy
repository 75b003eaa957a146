/**
 `reactor_buf`: a growable queue of bytes over a buffer borrowed from the pool.  The source
 splits it into `input_buf` and `output_buf`; here one class has the operations of both.
 */
module ReactorBufs {
  import opened Framing
  import opened Buffers

  /** What became of a request for room: granted, larger than the largest class, or the end
      of the process because the pool is at its limit. */
  datatype Room = Granted | TooLarge | Halted

  /** What a read did: bytes arrived, none did, or it failed; growing an existing buffer past
      the largest class dereferences a null pointer. */
  datatype ReadResult = Got(n: nat) | ReadError | Crashed | ReadHalted

  datatype Arrival = Bytes(chunk: seq<byte>) | IoctlFailed | ReadFailed

  /** What the kernel does with one write. */
  datatype WriteOutcome = Accepts(n: nat) | WouldBlock | WriteFailed

  /** How many of `n` waiting bytes one write takes. */
  function Accepted(outcome: WriteOutcome, n: nat): nat {
    if !outcome.Accepts? then 0 else if outcome.n <= n then outcome.n else n
  }

  /** How many of `n` waiting bytes the kernel takes from write number `i` on, until it takes none
      or fails, and whether it fails. */
  function Taken(outcomes: nat -> WriteOutcome, i: nat, n: nat): (r: (nat, bool))
    ensures r.0 <= n
    decreases n
  {
    if n == 0 then (0, false)
    else
      var k := Accepted(outcomes(i), n);
      if k == 0 then (0, outcomes(i).WriteFailed?)
      else
        var rest := Taken(outcomes, i + 1, n - k);
        (k + rest.0, rest.1)
  }

  /** The bytes `k` writes in a row offer to take. */
  function Offered(outcomes: nat -> WriteOutcome, i: nat, k: nat): nat {
    if k == 0 then 0 else Offered(outcomes, i, k - 1) + (if outcomes(i + k - 1).Accepts? then outcomes(i + k - 1).n else 0)
  }

  /** What is taken is what the writes offer, up to the first that takes nothing or fails, and not more
      than there is. */
  lemma {:induction false} TakenIsOffered(outcomes: nat -> WriteOutcome, i: nat, k: nat, n: nat)
    requires forall j | i <= j < i + k :: outcomes(j).Accepts? && outcomes(j).n > 0
    ensures Offered(outcomes, i, k) >= n ==> Taken(outcomes, i, n) == (n, false)
    ensures Offered(outcomes, i, k) < n && !(outcomes(i + k).Accepts? && outcomes(i + k).n > 0) ==>
      Taken(outcomes, i, n) == (Offered(outcomes, i, k), outcomes(i + k).WriteFailed?)
    decreases k
  {
    if k > 0 && n > 0 {
      OfferedFirst(outcomes, i, k);
      TakenIsOffered(outcomes, i + 1, k - 1, n - Accepted(outcomes(i), n));
    }
  }

  lemma {:induction false} OfferedFirst(outcomes: nat -> WriteOutcome, i: nat, k: nat)
    requires k > 0
    ensures Offered(outcomes, i, k) == (if outcomes(i).Accepts? then outcomes(i).n else 0) + Offered(outcomes, i + 1, k - 1)
    decreases k
  {
    if k > 1 {
      OfferedFirst(outcomes, i, k - 1);
    }
  }

  /** A kernel that keeps taking bytes takes them all. */
  lemma {:induction false} AllTaken(outcomes: nat -> WriteOutcome, i: nat, n: nat)
    requires forall j: nat :: outcomes(j).Accepts? && outcomes(j).n > 0
    ensures Taken(outcomes, i, n) == (n, false)
    decreases n
  {
    if n > 0 {
      AllTaken(outcomes, i + 1, n - Accepted(outcomes(i), n));
    }
  }

  /** Bytes that moved from a queue to the wire are a prefix of the queue. */
  lemma MovedPrefix(wire: seq<byte>, queue: seq<byte>, wire': seq<byte>, queue': seq<byte>, n: nat)
    requires wire <= wire' && wire' + queue' == wire + queue && |wire'| == |wire| + n
    ensures n <= |queue| && wire' == wire + queue[..n] && queue' == queue[n..]
  {
    assert |wire' + queue'| == |wire + queue|;
    assert wire' == (wire + queue)[..|wire'|] && queue' == (wire + queue)[|wire'|..];
  }

  class ReactorBuf {
    const pool: BufPool<ReactorBuf>
    var buf: IoBuf?

    ghost predicate Settled()
      reads this, pool, pool.owner.Values
    {
      forall b <- pool.owner :: pool.owner[b].buf == b
    }

    /** Every buffer that is lent is held by exactly the queue it is lent to. */
    ghost predicate Valid()
      reads this, pool, pool.known, pool.owner.Values
    {
      && pool.Valid() && Settled()
      && (buf != null ==> buf in pool.owner && pool.owner[buf] == this && buf in pool.known && buf.Valid())
    }

    ghost function Contents(): seq<byte>
      requires buf != null ==> buf.Valid()
      reads this, buf, if buf == null then {} else {buf.data}
    {
      if buf == null then [] else buf.Contents()
    }

    constructor (pool: BufPool<ReactorBuf>)
      requires pool.Valid() && forall b <- pool.owner :: pool.owner[b].buf == b
      ensures this.pool == pool && Valid() && buf == null
    {
      this.pool := pool;
      buf := null;
    }

    ghost function Arrays(): set<object>
      reads pool
    {
      set b <- pool.known :: b.data
    }

    /** The bytes and the holder of a lent buffer are as they were. */
    twostate predicate Kept(b: IoBuf)
      reads pool, b, b.data
    {
      && b in pool.owner && b in old(pool.owner) && pool.owner[b] == old(pool.owner[b])
      && b.length == old(b.length) && b.head == old(b.head) && b.data[..] == old(b.data[..])
    }

    /** No buffer lent to anyone else has changed, nor has its holder. */
    twostate predicate OthersKept()
      reads this, pool, pool.known, Arrays()
    {
      && (forall b <- old(pool.owner) | b != old(buf) :: b in pool.known && Kept(b))
      && (forall b <- pool.owner | b != buf :: b in old(pool.owner) && b != old(buf))
      && (forall b <- pool.known :: b in old(pool.known) || (fresh(b) && fresh(b.data)))
    }

    /** The first buffer, taken from the pool when there is none. */
    method Borrow(n: nat) returns (room: Room)
      requires Valid() && buf == null
      modifies this, pool, pool.known
      ensures Valid() && OthersKept()
      ensures room.TooLarge? <==> n > M4M
      ensures room.Halted? ==> pool.NearLimit()
      ensures if room.Granted? then buf != null && buf.head == 0 && buf.length == 0 && buf.capacity == ClassFor(n)
              else buf == null
    {
      hide BufPool.ValidBut, BufPool.ServedBy, BufPool.NearLimit;
      pool.Lent();
      var r, halted := pool.AllocBuf(n, this);
      pool.Lent();
      if r == null {
        room := if halted then Halted else TooLarge;
      } else {
        pool.LentBuffer(r);
        buf := r;
        room := Granted;
      }
    }

    /** `_buf->adjust()`. */
    method AdjustBuf()
      requires Valid() && buf != null
      modifies buf`head, buf.data
      ensures Valid() && OthersKept()
      ensures buf.head == 0 && buf.Contents() == old(buf.Contents())
    {
      hide BufPool.Chains, BufPool.Partitioned, BufPool.Apart, BufPool.Accounted;
      pool.Lent();
      pool.OwnArray(buf);
      buf.Adjust();
    }

    method PopBuf(len: nat)
      requires Valid() && buf != null && len <= buf.length
      modifies buf`head, buf`length
      ensures Valid() && OthersKept()
      ensures Popped(old(buf.Contents()), buf.Contents(), len)
    {
      hide BufPool.Chains, BufPool.Partitioned, BufPool.Apart, BufPool.Accounted, IoBuf.Contents, Popped;
      pool.Lent();
      buf.Pop(len);
    }

    method AppendBuf(bytes: seq<byte>)
      requires Valid() && buf != null && buf.head == 0 && buf.length + |bytes| <= buf.capacity
      modifies buf`length, buf.data
      ensures Valid() && OthersKept()
      ensures buf.Contents() == old(buf.Contents()) + bytes
    {
      hide BufPool.Chains, BufPool.Partitioned, BufPool.Apart, BufPool.Accounted;
      pool.Lent();
      pool.OwnArray(buf);
      buf.Append(bytes);
    }

    /** `new_buf->copy(_buf)`: the head of the old buffer is 0 here, so all of it is copied. */
    method CopyTo(r: IoBuf)
      requires pool.Valid() && buf != null && buf in pool.owner && r in pool.owner && r != buf
      requires buf.Valid() && buf.head == 0 && r.Valid() && buf.length <= r.capacity
      modifies r`length, r`head, r.data
      ensures pool.Valid() && r.Valid() && r.head == 0 && r.Contents() == buf.Contents()
      ensures forall b <- pool.owner | b != r :: b.data[..] == old(b.data[..])
    {
      hide BufPool.Chains, BufPool.Partitioned, BufPool.Apart, BufPool.Accounted;
      pool.Lent();
      pool.OwnArray(r);
      r.Copy(buf);
    }

    /** A larger buffer takes over the bytes and the old one goes back to the pool. */
    method TakeOver(r: IoBuf)
      requires pool.Valid() && buf != null && buf in pool.owner && r in pool.owner && r != buf
      requires pool.owner[buf] == pool.owner[r] == this && forall b <- pool.owner | b != r :: pool.owner[b].buf == b
      requires buf.Valid() && buf.head == 0 && r.Valid() && buf.length <= r.capacity
      modifies this, pool, buf, r, r.data
      ensures Valid() && buf == r && buf.head == 0
      ensures buf.Contents() == old(buf.Contents())
      ensures pool.owner == old(pool.owner) - {old(buf)} && pool.known == old(pool.known)
      ensures forall b <- pool.owner | b != r ::
        b.length == old(b.length) && b.head == old(b.head) && b.data[..] == old(b.data[..])
    {
      hide BufPool.ValidBut;
      var b := buf;
      CopyTo(r);
      pool.Revert(b);
      buf := r;
      pool.LentBuffer(r);
    }

    method Grow(n: nat) returns (room: Room)
      requires Valid() && buf != null && buf.head == 0 && buf.capacity - buf.length < n
      modifies this, pool, pool.known, Arrays()
      ensures Valid() && OthersKept() && buf != null && buf.head == 0
      ensures buf.Contents() == old(buf.Contents())
      ensures room.TooLarge? <==> old(buf.length) + n > M4M
      ensures room.Halted? ==> pool.NearLimit()
      ensures room.Granted? ==> buf.capacity == ClassFor(old(buf.length) + n)
    {
      hide BufPool.ValidBut, BufPool.ServedBy, BufPool.NearLimit;
      pool.Lent();
      var r, halted := pool.AllocBuf(n + buf.length, this);
      pool.Lent();
      if r == null {
        room := if halted then Halted else TooLarge;
      } else {
        pool.LentBuffer(r);
        TakeOver(r);
        pool.Lent();
        room := Granted;
      }
    }

    /** Room for `n` bytes behind the unread ones, which move to the front. */
    method MakeRoom(n: nat) returns (room: Room)
      requires Valid()
      modifies this, pool, pool.known, Arrays()
      ensures Valid() && OthersKept() && Contents() == old(Contents())
      ensures room.TooLarge? <==> old(|Contents()|) + n > M4M
      ensures room.Halted? ==> pool.NearLimit()
      ensures room.Granted? ==> buf != null && buf.head == 0 && buf.length + n <= buf.capacity
    {
      hide BufPool.ValidBut, BufPool.NearLimit;
      pool.Lent();
      if buf == null {
        room := Borrow(n);
      } else {
        pool.LentBuffer(buf);
        if buf.head != 0 {
          AdjustBuf();
        }
        if buf.capacity - buf.length < n {
          room := Grow(n);
        } else {
          room := Granted;
        }
      }
    }

    /** `send_data`: the bytes are appended, or nothing changes. */
    method SendData(bytes: seq<byte>) returns (room: Room)
      requires Valid()
      modifies this, pool, pool.known, Arrays()
      ensures Valid() && OthersKept()
      ensures Contents() == old(Contents()) + if room.Granted? then bytes else []
      ensures room.TooLarge? <==> old(|Contents()|) + |bytes| > M4M
      ensures room.Halted? ==> pool.NearLimit()
    {
      hide BufPool.ValidBut, BufPool.NearLimit;
      room := MakeRoom(|bytes|);
      if room.Granted? {
        AppendBuf(bytes);
      } else {
        assert old(Contents()) + [] == old(Contents());
      }
    }

    /** `read_data`: what the kernel has is appended in one piece. */
    method ReadData(arrival: Arrival) returns (r: ReadResult)
      requires Valid()
      modifies this, pool, pool.known, Arrays()
      ensures Valid() && OthersKept()
      ensures r.Got? ==> arrival.Bytes? && r.n == |arrival.chunk| && Contents() == old(Contents()) + arrival.chunk
      ensures !r.Got? ==> Contents() == old(Contents())
      ensures arrival.Bytes? ==> (r.ReadError? || r.Crashed? <==> old(|Contents()|) + |arrival.chunk| > M4M)
      ensures arrival.Bytes? && r.ReadError? ==> old(buf) == null
      ensures r.Crashed? ==> arrival.Bytes? && old(buf) != null
      ensures r.ReadHalted? ==> pool.NearLimit()
    {
      hide BufPool.ValidBut, BufPool.NearLimit;
      pool.Lent();
      if arrival.IoctlFailed? {
        return ReadError;
      }
      var first := buf == null;
      if !first {
        pool.LentBuffer(buf);
      }
      var need := if arrival.Bytes? then |arrival.chunk| else 0;
      var room := MakeRoom(need);
      match room {
        case Halted => return ReadHalted;
        case TooLarge => return if first then ReadError else Crashed;
        case Granted =>
          if arrival.ReadFailed? {
            return ReadError;
          }
          AppendBuf(arrival.chunk);
          return Got(need);
      }
    }

    method Pop(len: nat)
      requires Valid() && buf != null && len <= |Contents()|
      modifies buf
      ensures Valid() && OthersKept() && buf == old(buf)
      ensures Contents() == old(Contents())[len..]
    {
      hide BufPool.ValidBut;
      PopBuf(len);
    }

    method Adjust()
      requires Valid()
      modifies buf, if buf == null then {} else {buf.data}
      ensures Valid() && OthersKept() && Contents() == old(Contents())
    {
      hide BufPool.ValidBut;
      pool.Lent();
      if buf != null {
        AdjustBuf();
      }
    }

    /** The buffer goes back to the pool, once. */
    method Clear()
      requires Valid()
      modifies this, pool, buf
      ensures Valid() && OthersKept() && buf == null && Contents() == []
    {
      hide BufPool.ValidBut;
      pool.Lent();
      if buf != null {
        pool.Revert(buf);
        buf := null;
        pool.Lent();
      }
    }

    /** `write2fd`: the kernel accepts a prefix of the unread bytes, which leaves the queue. */
    method Write2fd(outcome: WriteOutcome) returns (written: seq<byte>, failed: bool)
      requires Valid() && buf != null
      modifies buf, buf.data
      ensures Valid() && OthersKept() && buf == old(buf)
      ensures written + Contents() == old(Contents())
      ensures failed == outcome.WriteFailed?
      ensures |written| == Accepted(outcome, |old(Contents())|)
    {
      hide BufPool.ValidBut, IoBuf.Contents;
      pool.Lent();
      if buf.head != 0 {
        AdjustBuf();
      }
      written, failed := [], outcome.WriteFailed?;
      if outcome.Accepts? {
        var n := if outcome.n <= buf.length then outcome.n else buf.length;
        written := buf.Front(n);
        if n > 0 {
          PopBuf(n);
          AdjustBuf();
        }
      }
    }

    function Length(): (n: nat)
      requires buf != null ==> buf.Valid()
      reads this, buf, if buf == null then {} else {buf.data}
      ensures n == |Contents()|
    {
      if buf == null then 0 else buf.length
    }

    /** The first bytes of the queue, read in place. */
    function Front(n: nat): (bytes: seq<byte>)
      requires (buf != null ==> buf.Valid()) && n <= |Contents()|
      reads this, buf, if buf == null then {} else {buf.data}
      ensures bytes == Contents()[..n]
    {
      if buf == null then [] else buf.Front(n)
    }

    /** An operation on one queue leaves the others valid and their bytes alone. */
    twostate lemma OtherKept(other: ReactorBuf)
      requires old(other.Valid()) && old(Valid()) && Valid() && OthersKept()
      requires other != this && other.pool == pool && other.buf == old(other.buf)
      ensures other.Valid() && other.Contents() == old(other.Contents())
    {
      hide BufPool.ValidBut;
      if other.buf != null {
        assert Kept(other.buf);
        pool.LentBuffer(other.buf);
      }
    }
  }
}
