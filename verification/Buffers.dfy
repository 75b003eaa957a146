/**
 The reactor's buffers: `io_buf`, and the pool that keeps spare ones on linked free lists by
 size class and lends them to holders of type `H`.
 */
module Buffers {
  import opened Seqs
  import opened Framing

  const M4K := 4096
  const M16K := 16384
  const M64K := 65526
  const M256K := 262144
  const M1M := 1048576
  const M4M := 4194304
  const MEM_LIMIT := 5 * 1024 * 1024

  function Classes(): set<nat> { {M4K, M16K, M64K, M256K, M1M, M4M} }

  /** The size class that serves a request, or 0 when none is large enough. */
  function ClassFor(n: int): (c: nat)
    ensures c == 0 <==> n > M4M
    ensures c != 0 ==> c in Classes() && n <= c
    ensures forall d <- Classes() :: n <= d ==> 0 < c <= d
  {
    if n <= M4K then M4K
    else if n <= M16K then M16K
    else if n <= M64K then M64K
    else if n <= M256K then M256K
    else if n <= M1M then M1M
    else if n <= M4M then M4M
    else 0
  }

  /** `n` bytes have left the front. */
  ghost predicate Popped(was: seq<byte>, now: seq<byte>, n: nat) {
    n <= |was| && now == was[n..]
  }

  class IoBuf {
    const capacity: nat
    const data: array<byte>
    var next: IoBuf?
    var length: nat
    var head: nat

    ghost predicate Valid()
      reads this
    {
      data.Length == capacity && head + length <= capacity
    }

    ghost function Contents(): (bytes: seq<byte>)
      requires Valid()
      reads this, data
      ensures |bytes| == length
    {
      data[head..head + length]
    }

    /** The first bytes, read in place. */
    function Front(n: nat): (bytes: seq<byte>)
      requires Valid() && n <= length
      reads this, data
      ensures bytes == Contents()[..n]
    {
      data[head..head + n]
    }

    constructor (size: nat)
      ensures Valid() && capacity == size && next == null && length == 0 && head == 0 && fresh(data)
    {
      capacity := size;
      data := new byte[size];
      next, length, head := null, 0, 0;
    }

    method Clear()
      requires Valid()
      modifies this`length, this`head
      ensures Valid() && Contents() == [] && head == 0
    {
      length, head := 0, 0;
    }

    /** Moves the unread bytes to the front. */
    method Adjust()
      requires Valid()
      modifies this`head, data
      ensures Valid() && head == 0 && Contents() == old(Contents())
    {
      if head != 0 {
        if length != 0 {
          forall i | 0 <= i < length {
            data[i] := data[head + i];
          }
        }
        head := 0;
      }
    }

    /** Copies `length` bytes from the start of the other array, wherever its head is. */
    method Copy(other: IoBuf)
      requires Valid() && other.Valid() && other != this && other.data != data
      requires other.length <= capacity
      modifies this`length, this`head, data
      ensures Valid() && head == 0 && Contents() == other.data[..other.length]
    {
      forall i | 0 <= i < other.length {
        data[i] := other.data[i];
      }
      head := 0;
      length := other.length;
    }

    method Pop(len: nat)
      requires Valid()
      modifies this`length, this`head
      ensures Valid()
      ensures var n := if len > old(length) then old(length) else len;
        length == old(length) - n && head == old(head) + n && Popped(old(Contents()), Contents(), n)
    {
      var n := if len > length then length else len;
      length := length - n;
      head := head + n;
    }

    /** The `memcpy` behind the unread bytes and the new length. */
    method Append(bytes: seq<byte>)
      requires Valid() && head == 0 && length + |bytes| <= capacity
      modifies this`length, data
      ensures Valid() && head == 0 && Contents() == old(Contents()) + bytes
    {
      forall i | 0 <= i < |bytes| {
        data[length + i] := bytes[i];
      }
      length := length + |bytes|;
    }
  }

  // ----- Memory accounting -----

  ghost function Bytes(bs: seq<IoBuf>): nat {
    if bs == [] then 0 else Bytes(bs[..|bs| - 1]) + bs[|bs| - 1].capacity
  }

  /** What the pool's own counter adds for these buffers, in units of 1024 bytes. */
  ghost function Units(bs: seq<IoBuf>): nat {
    if bs == [] then 0 else Units(bs[..|bs| - 1]) + bs[|bs| - 1].capacity / 1024
  }

  ghost function Of64K(bs: seq<IoBuf>): nat {
    if bs == [] then 0 else Of64K(bs[..|bs| - 1]) + if bs[|bs| - 1].capacity == M64K then 1 else 0
  }

  lemma {:induction false} UnitsMiss(bs: seq<IoBuf>)
    requires forall b <- bs :: b.capacity in Classes()
    ensures Bytes(bs) == 1024 * Units(bs) + 1014 * Of64K(bs)
    ensures 63 * Of64K(bs) <= Units(bs)
  {
    if bs != [] {
      assert bs[|bs| - 1] in bs;
      UnitsMiss(bs[..|bs| - 1]);
    }
  }

  // The constructor counts fifty 4M buffers and makes twenty.
  const STARTUP_UNITS := 4 * 5000 + 16 * 1000 + 64 * 500 + 256 * 200 + 1024 * 50 + 4096 * 50
  const STARTUP_BYTES := M4K * 5000 + M16K * 1000 + M64K * 500 + M256K * 200 + M1M * 50 + M4M * 20

  class BufPool<H> {
    var pool: map<nat, IoBuf?>
    var totalMem: nat

    /** The buffers on each free list, in list order. */
    ghost var free: map<nat, seq<IoBuf>>
    /** The buffers lent out, and to whom. */
    ghost var owner: map<IoBuf, H>
    /** All buffers ever made: by the constructor, and later. */
    ghost var base: seq<IoBuf>
    ghost var extra: seq<IoBuf>
    ghost var known: set<IoBuf>
    /** The `next` field of every buffer. */
    ghost var links: map<IoBuf, IoBuf?>

    /** The list of class `c` is a chain, without a cycle, of buffers of capacity `c`.
        `links` holds the `next` field of every buffer. */
    static ghost predicate Chain(c: nat, first: IoBuf?, s: seq<IoBuf>, links: map<IoBuf, IoBuf?>) {
      if s == [] then first == null
      else
        && first == s[0] && first !in s[1..] && first.capacity == c
        && first in links && Chain(c, links[first], s[1..], links)
    }

    /** Every buffer is either on the free list of its class or lent, never both. */
    static ghost predicate Partitioned(known: set<IoBuf>, free: map<nat, seq<IoBuf>>, lent: set<IoBuf>) {
      && (forall b <- known :: b.capacity in free && (b in free[b.capacity] <==> b !in lent))
      && (forall c <- free, b <- free[c] :: b in known && b.capacity == c)
      && lent <= known
    }

    static ghost predicate Apart(known: set<IoBuf>) {
      forall b <- known, b' <- known | b != b' :: b.data != b'.data
    }

    static ghost predicate Accounted(base: seq<IoBuf>, extra: seq<IoBuf>, known: set<IoBuf>, totalMem: nat) {
      && NoDup(base + extra) && known == Elems(base + extra)
      && Bytes(base) == STARTUP_BYTES
      && totalMem == STARTUP_UNITS + Units(extra)
      && totalMem < MEM_LIMIT
    }

    static ghost predicate Chains(pool: map<nat, IoBuf?>, free: map<nat, seq<IoBuf>>, links: map<IoBuf, IoBuf?>) {
      pool.Keys == free.Keys && forall c <- free :: Chain(c, pool[c], free[c], links)
    }

    /** The fields of the buffers: spare ones are empty, lent ones are on no list. */
    static ghost predicate Shaped(known: set<IoBuf>, lent: set<IoBuf>, links: map<IoBuf, IoBuf?>)
      reads known
    {
      && links.Keys == known
      && forall b <- known ::
          && b.Valid() && b.next == links[b]
          && (if b in lent then b.next == null else b.length == 0 && b.head == 0)
    }

    ghost predicate Valid()
      reads this, known
    {
      ValidBut(totalMem)
    }

    /** The counter is within one buffer of the largest class of the limit. */
    ghost predicate NearLimit()
      reads this
    {
      totalMem + M4M / 1024 >= MEM_LIMIT
    }

    /** The invariant, for a given value of the memory counter. */
    ghost predicate ValidBut(total: nat)
      reads this, known
    {
      && free.Keys == Classes()
      && Chains(pool, free, links) && Shaped(known, owner.Keys, links)
      && Partitioned(known, free, owner.Keys) && Apart(known) && Accounted(base, extra, known, total)
    }

    static lemma {:induction false} ChainKept(
        c: nat, first: IoBuf?, s: seq<IoBuf>, links: map<IoBuf, IoBuf?>, links': map<IoBuf, IoBuf?>)
      requires Chain(c, first, s, links)
      requires forall b <- s :: b in links ==> b in links' && links'[b] == links[b]
      ensures Chain(c, first, s, links')
    {
      if s != [] {
        ChainKept(c, links[s[0]], s[1..], links, links');
      }
    }

    /** Taking the first buffer of a list leaves chains. */
    static lemma ChainsTake(pool: map<nat, IoBuf?>, free: map<nat, seq<IoBuf>>, links: map<IoBuf, IoBuf?>, c: nat, r: IoBuf)
      requires Chains(pool, free, links) && c in pool && pool[c] == r
      requires forall d <- free | d != c :: r !in free[d]
      ensures r in links && free[c] != [] && free[c][0] == r
      ensures Chains(pool[c := links[r]], free[c := free[c][1..]], links[r := null])
    {
      assert Chain(c, r, free[c], links);
      ChainKept(c, links[r], free[c][1..], links, links[r := null]);
      forall d <- free | d != c ensures Chain(d, pool[d], free[d], links[r := null]) {
        ChainKept(d, pool[d], free[d], links, links[r := null]);
      }
    }

    /** Putting a buffer in front of a list leaves chains. */
    static lemma ChainsPush(pool: map<nat, IoBuf?>, free: map<nat, seq<IoBuf>>, links: map<IoBuf, IoBuf?>, r: IoBuf)
      requires Chains(pool, free, links) && r.capacity in pool
      requires forall d <- free :: r !in free[d]
      ensures Chains(pool[r.capacity := r], free[r.capacity := [r] + free[r.capacity]], links[r := pool[r.capacity]])
    {
      var c := r.capacity;
      var links' := links[r := pool[c]];
      forall d <- free ensures Chain(d, pool[d], free[d], links') {
        ChainKept(d, pool[d], free[d], links, links');
      }
      assert ([r] + free[c])[1..] == free[c];
    }

    static lemma ChainsMore(pool: map<nat, IoBuf?>, free: map<nat, seq<IoBuf>>, links: map<IoBuf, IoBuf?>, r: IoBuf)
      requires Chains(pool, free, links) && r !in links
      ensures Chains(pool, free, links[r := null])
    {
      forall d <- free ensures Chain(d, pool[d], free[d], links[r := null]) {
        ChainIn(d, pool[d], free[d], links);
        ChainKept(d, pool[d], free[d], links, links[r := null]);
      }
    }

    static lemma {:induction false} ChainIn(c: nat, first: IoBuf?, s: seq<IoBuf>, links: map<IoBuf, IoBuf?>)
      requires Chain(c, first, s, links)
      ensures NoDup(s) && forall b <- s :: b in links && b.capacity == c
    {
      if s != [] {
        ChainIn(c, links[s[0]], s[1..], links);
        NoDupAppend([s[0]], s[1..]);
        assert s == [s[0]] + s[1..];
      }
    }

    static lemma PartitionTake(known: set<IoBuf>, free: map<nat, seq<IoBuf>>, lent: set<IoBuf>, c: nat)
      requires Partitioned(known, free, lent) && c in free && free[c] != [] && NoDup(free[c])
      ensures free[c][0] in known - lent
      ensures forall d <- free | d != c :: free[c][0] !in free[d]
      ensures Partitioned(known, free[c := free[c][1..]], lent + {free[c][0]})
    {
      assert free[c] == [free[c][0]] + free[c][1..];
    }

    static lemma PartitionRevert(known: set<IoBuf>, free: map<nat, seq<IoBuf>>, lent: set<IoBuf>, b: IoBuf)
      requires Partitioned(known, free, lent) && b in lent
      ensures b in known && b.capacity in free && forall c <- free :: b !in free[c]
      ensures Partitioned(known, free[b.capacity := [b] + free[b.capacity]], lent - {b})
    {
    }

    static lemma PartitionAdd(known: set<IoBuf>, free: map<nat, seq<IoBuf>>, lent: set<IoBuf>, b: IoBuf)
      requires Partitioned(known, free, lent) && b !in known && b.capacity in free
      ensures Partitioned(known + {b}, free, lent + {b})
    {
    }

    static lemma ApartAdd(known: set<IoBuf>, b: IoBuf)
      requires Apart(known) && forall k <- known :: k.data != b.data
      ensures Apart(known + {b})
    {
    }

    static lemma AccountAdd(base: seq<IoBuf>, extra: seq<IoBuf>, known: set<IoBuf>, totalMem: nat, b: IoBuf)
      requires Accounted(base, extra, known, totalMem) && b !in known
      requires totalMem + b.capacity / 1024 < MEM_LIMIT
      ensures Accounted(base, extra + [b], known + {b}, totalMem + b.capacity / 1024)
    {
      assert base + (extra + [b]) == (base + extra) + [b];
      assert (extra + [b])[..|extra|] == extra;
    }

    /** Real memory stays within what the counter says, and below five gigabytes. */
    lemma MemoryBound()
      requires Valid()
      ensures Bytes(base) + Bytes(extra) == 1024 * totalMem + 1014 * Of64K(extra) - (1024 * STARTUP_UNITS - STARTUP_BYTES)
      ensures Bytes(base) + Bytes(extra) <= 1024 * totalMem < 5 * 1024 * 1024 * 1024
    {
      forall b <- extra ensures b.capacity in Classes() {
        assert b in base + extra && b in known;
      }
      UnitsMiss(extra);
    }

    // ----- Start-up -----

    /** The state while the constructor fills the lists. */
    ghost predicate Building(done: set<nat>)
      reads this, known
    {
      && free.Keys == done && owner == map[] && extra == []
      && Chains(pool, free, links) && Shaped(known, {}, links) && Partitioned(known, free, {}) && Apart(known)
      && Listing(base, known)
    }

    static ghost predicate Listing(base: seq<IoBuf>, known: set<IoBuf>) {
      NoDup(base) && known == Elems(base)
    }

    constructor ()
      ensures Valid() && owner == map[] && fresh(known) && forall b <- known :: fresh(b.data)
      ensures totalMem == STARTUP_UNITS
    {
      hide Building, Bytes, Valid;
      pool, totalMem := map[], 0;
      free, owner, base, extra, known, links := map[], map[], [], [], {}, map[];
      new;
      NothingBuilt();
      FillSmall();
      FillLarge();
      FullBooks();
    }

    method FillSmall()
      requires free == map[] && Building(free.Keys)
      modifies this
      ensures free.Keys == {M4K, M16K, M64K} && Building(free.Keys) && owner == old(owner)
      ensures fresh(known - old(known)) && forall b <- known :: b in old(known) || fresh(b.data)
      ensures Bytes(base) == old(Bytes(base)) + M4K * 5000 + M16K * 1000 + M64K * 500
      ensures totalMem == old(totalMem) + 4 * 5000 + 16 * 1000 + 64 * 500
    {
      hide Building, Bytes;
      Fill(M4K, 5000, 4 * 5000);
      Fill(M16K, 1000, 16 * 1000);
      Fill(M64K, 500, 64 * 500);
    }

    method FillLarge()
      requires free.Keys == {M4K, M16K, M64K} && Building(free.Keys)
      modifies this
      ensures free.Keys == Classes() && Building(free.Keys) && owner == old(owner)
      ensures fresh(known - old(known)) && forall b <- known :: b in old(known) || fresh(b.data)
      ensures Bytes(base) == old(Bytes(base)) + M256K * 200 + M1M * 50 + M4M * 20
      ensures totalMem == old(totalMem) + 256 * 200 + 1024 * 50 + 4096 * 50
    {
      hide Building, Bytes;
      Fill(M256K, 200, 256 * 200);
      Fill(M1M, 50, 1024 * 50);
      Fill(M4M, 20, 4096 * 50);
    }

    lemma NothingBuilt()
      requires pool == map[] && free == map[] && owner == map[] && base == extra == [] && known == {} && links == map[]
      ensures Building({}) && Bytes(base) == 0
    {
    }

    lemma FullBooks()
      requires Building(Classes())
      requires Bytes(base) == STARTUP_BYTES && totalMem == STARTUP_UNITS
      ensures Valid()
    {
      hide Partitioned, Apart, Chains, Shaped;
      assert base + [] == base && owner.Keys == {};
    }

    /** Makes `n` buffers of class `c`, links them into a list and counts `units`. */
    method Fill(c: nat, n: nat, units: nat)
      requires Building(free.Keys) && c !in free && 0 < n
      modifies this
      ensures free.Keys == old(free.Keys) + {c} && Building(free.Keys)
      ensures owner == old(owner)
      ensures fresh(known - old(known)) && forall b <- known :: b in old(known) || fresh(b.data)
      ensures Bytes(base) == old(Bytes(base)) + n * c && totalMem == old(totalMem) + units
    {
      hide Building, Bytes;
      var prev := StartList(c);
      for i := 1 to n
        invariant free.Keys == old(free.Keys) + {c} && Building(free.Keys)
        invariant c in free && free[c] != [] && free[c][|free[c]| - 1] == prev
        invariant fresh(prev) && fresh(known - old(known)) && forall b <- known :: b in old(known) || fresh(b.data)
        invariant Bytes(base) == old(Bytes(base)) + i * c && totalMem == old(totalMem)
        invariant owner == old(owner)
      {
        prev := ExtendList(c, prev);
        assert (i + 1) * c == i * c + c;
      }
      Charge(units);
    }

    method Charge(units: nat)
      requires Building(free.Keys)
      modifies this`totalMem
      ensures Building(free.Keys) && totalMem == old(totalMem) + units
    {
      totalMem := totalMem + units;
    }

    method StartList(c: nat) returns (b: IoBuf)
      requires Building(free.Keys) && c !in free
      modifies this`pool, this`free, this`base, this`known, this`links
      ensures free == old(free)[c := [b]] && Building(free.Keys)
      ensures fresh(b) && fresh(b.data) && known == old(known) + {b} && Bytes(base) == old(Bytes(base)) + c
    {
      hide Partitioned, Apart, Chains, Listing, Bytes;
      b := new IoBuf(c);
      ApartAdd(known, b);
      ListingMore(base, known, b);
      ChainsStart(pool, free, links, b);
      PartitionStart(known, free, b);
      pool := pool[c := b];
      free := free[c := [b]];
      links := links[b := null];
      base := base + [b];
      known := known + {b};
    }

    method ExtendList(c: nat, prev: IoBuf) returns (b: IoBuf)
      requires Building(free.Keys) && c in free && free[c] != [] && free[c][|free[c]| - 1] == prev
      modifies this`free, this`base, this`known, this`links, prev`next
      ensures free == old(free)[c := old(free[c]) + [b]] && Building(free.Keys)
      ensures fresh(b) && fresh(b.data) && known == old(known) + {b} && Bytes(base) == old(Bytes(base)) + c
    {
      hide Partitioned, Apart, Chains, Listing, Bytes;
      b := new IoBuf(c);
      ApartAdd(known, b);
      ListingMore(base, known, b);
      ChainsExtend(pool, free, links, c, b);
      PartitionExtend(known, free, c, b);
      prev.next := b;
      free := free[c := free[c] + [b]];
      links := links[prev := b][b := null];
      base := base + [b];
      known := known + {b};
    }

    static lemma ListingMore(base: seq<IoBuf>, known: set<IoBuf>, b: IoBuf)
      requires Listing(base, known) && b !in known
      ensures Listing(base + [b], known + {b}) && Bytes(base + [b]) == Bytes(base) + b.capacity
    {
      assert (base + [b])[..|base|] == base;
    }

    static lemma ChainsStart(pool: map<nat, IoBuf?>, free: map<nat, seq<IoBuf>>, links: map<IoBuf, IoBuf?>, b: IoBuf)
      requires Chains(pool, free, links) && b !in links
      ensures Chains(pool[b.capacity := b], free[b.capacity := [b]], links[b := null])
    {
      ChainsMore(pool, free, links, b);
      assert Chain(b.capacity, b, [b], links[b := null]) by {
        assert [b][1..] == [];
      }
    }

    static lemma PartitionStart(known: set<IoBuf>, free: map<nat, seq<IoBuf>>, b: IoBuf)
      requires Partitioned(known, free, {}) && b !in known && b.capacity !in free
      ensures Partitioned(known + {b}, free[b.capacity := [b]], {})
    {
    }

    static lemma ChainsExtend(pool: map<nat, IoBuf?>, free: map<nat, seq<IoBuf>>, links: map<IoBuf, IoBuf?>, c: nat, b: IoBuf)
      requires Chains(pool, free, links) && b !in links && b.capacity == c && c in free && free[c] != []
      ensures Chains(pool, free[c := free[c] + [b]], links[free[c][|free[c]| - 1] := b][b := null])
    {
      var prev := free[c][|free[c]| - 1];
      var links' := links[prev := b][b := null];
      ChainAppend(c, pool[c], free[c], links, b);
      ChainIn(c, pool[c], free[c], links);
      forall d <- free | d != c ensures Chain(d, pool[d], free[d], links') {
        ChainIn(d, pool[d], free[d], links);
        assert prev in free[c] && prev.capacity == c;
        ChainKept(d, pool[d], free[d], links, links');
      }
    }

    static lemma PartitionExtend(known: set<IoBuf>, free: map<nat, seq<IoBuf>>, c: nat, b: IoBuf)
      requires Partitioned(known, free, {}) && b !in known && b.capacity == c && c in free && free[c] != []
      ensures free[c][|free[c]| - 1] in known
      ensures Partitioned(known + {b}, free[c := free[c] + [b]], {})
    {
      assert free[c][|free[c]| - 1] in free[c];
    }

    static lemma {:induction false} ChainAppend(
        c: nat, first: IoBuf?, s: seq<IoBuf>, links: map<IoBuf, IoBuf?>, b: IoBuf)
      requires Chain(c, first, s, links) && s != [] && b !in links && b.capacity == c
      ensures Chain(c, first, s + [b], links[s[|s| - 1] := b][b := null])
    {
      ChainIn(c, first, s, links);
      var last := s[|s| - 1];
      var links' := links[last := b][b := null];
      assert (s + [b])[1..] == s[1..] + [b];
      if |s| == 1 {
        assert Chain(c, b, [b], links');
      } else {
        ChainAppend(c, links[first], s[1..], links, b);
        assert s[1..][|s[1..]| - 1] == last;
      }
    }

    /** The first buffer on the list of class `c` is taken; only for an empty list a new one is made
        and counted, unless that would reach the limit. */
    twostate predicate ServedBy(c: nat, new r: IoBuf?, halted: bool)
      reads this
    {
      c != 0 ==>
        && c in old(pool)
        && (halted <==> old(pool[c]) == null && old(totalMem) + c / 1024 >= MEM_LIMIT)
        && (r != null && r in old(known) ==> r == old(pool[c]) && totalMem == old(totalMem))
        && (r != null && r !in old(known) ==> old(pool[c]) == null && totalMem == old(totalMem) + c / 1024)
    }

    method AllocBuf(n: int, ghost who: H) returns (r: IoBuf?, halted: bool)
      requires Valid()
      modifies this, known
      ensures Valid()
      ensures r == null && !halted <==> n > M4M
      ensures (halted ==> r == null && NearLimit()) && ServedBy(ClassFor(n), r, halted)
      ensures r == null ==> unchanged(this) && forall b <- known :: unchanged(b)
      ensures r != null ==>
        && r.capacity == ClassFor(n) && r.length == 0 && r.head == 0
        && r !in old(owner) && owner == old(owner)[r := who]
        && (r in old(known) || fresh(r)) && known == old(known) + {r} && (fresh(r) ==> fresh(r.data))
        && forall b <- old(known) | b != r :: unchanged(b)
    {
      hide Partitioned, Accounted, Apart, Chains, Shaped;
      PoolKeys();
      r, halted := null, false;
      var index := ClassFor(n);
      if index == 0 {
        return;
      }
      if pool[index] == null {
        if totalMem + index / 1024 >= MEM_LIMIT {
          halted := true;
        } else {
          r := MakeExtra(index, who);
        }
      } else {
        FirstIsSpare(index);
        r := TakeFree(index, who);
      }
    }

    method MakeExtra(index: nat, ghost who: H) returns (r: IoBuf)
      requires Valid() && index in free && pool[index] == null
      requires totalMem + index / 1024 < MEM_LIMIT
      modifies this`totalMem, this`extra, this`known, this`owner, this`links
      ensures Valid()
      ensures fresh(r) && fresh(r.data) && r.capacity == index && r.length == 0 && r.head == 0
      ensures owner == old(owner)[r := who]
      ensures known == old(known) + {r} && totalMem == old(totalMem) + index / 1024
    {
      hide Partitioned, Accounted, Apart, Classes, Chains;
      r := new IoBuf(index);
      totalMem := totalMem + index / 1024;
      Register(r, who);
    }

    /** Records a buffer made after start-up and lends it. */
    ghost method Register(r: IoBuf, who: H)
      requires totalMem >= r.capacity / 1024 && ValidBut(totalMem - r.capacity / 1024) && totalMem < MEM_LIMIT
      requires r !in known && r.capacity in free && (forall b <- known :: b.data != r.data)
      requires r.Valid() && r.next == null
      modifies this`extra, this`known, this`owner, this`links
      ensures Valid() && owner == old(owner)[r := who] && known == old(known) + {r}
    {
      hide Partitioned, Accounted, Apart, Classes, Chains;
      RegisterBooks(totalMem - r.capacity / 1024, r, who);
      extra := extra + [r];
      known := known + {r};
      links := links[r := null];
      owner := owner[r := who];
    }

    lemma RegisterBooks(total: nat, r: IoBuf, who: H)
      requires ValidBut(total) && total + r.capacity / 1024 < MEM_LIMIT
      requires r !in known && r.capacity in free && (forall b <- known :: b.data != r.data)
      ensures Chains(pool, free, links[r := null]) && Partitioned(known + {r}, free, owner[r := who].Keys)
      ensures Apart(known + {r}) && Accounted(base, extra + [r], known + {r}, total + r.capacity / 1024)
    {
      hide Partitioned, Accounted, Apart, Classes, Chains;
      ApartAdd(known, r);
      PartitionAdd(known, free, owner.Keys, r);
      AccountAdd(base, extra, known, total, r);
      ChainsMore(pool, free, links, r);
      assert owner[r := who].Keys == owner.Keys + {r};
    }

    method TakeFree(index: nat, ghost who: H) returns (r: IoBuf)
      requires Valid() && index in pool && pool[index] != null
      modifies this`pool, this`free, this`owner, this`links, pool[index]
      ensures Valid()
      ensures r == old(pool[index]) && r !in old(owner) && r.capacity == index && r.length == 0 && r.head == 0
      ensures owner == old(owner)[r := who] && r in known
    {
      hide Partitioned, Accounted, Classes, Apart, Chains;
      TakeBooks(index, who);
      r := pool[index];
      pool := pool[index := r.next];
      r.next := null;
      free := free[index := free[index][1..]];
      links := links[r := null];
      owner := owner[r := who];
    }

    lemma TakeBooks(index: nat, who: H)
      requires Valid() && index in pool && pool[index] != null
      ensures index in free && free[index] != []
      ensures var r := pool[index];
        && r in known && r !in owner && r.capacity == index
        && Chains(pool[index := r.next], free[index := free[index][1..]], links[r := null])
        && Partitioned(known, free[index := free[index][1..]], owner[r := who].Keys)
    {
      hide Partitioned, Accounted, Classes, Apart, Chains;
      var r := pool[index];
      FirstIsSpare(index);
      ChainsTake(pool, free, links, index, r);
      PartitionTake(known, free, owner.Keys, index);
      assert owner[r := who].Keys == owner.Keys + {r};
    }

    lemma FirstIsSpare(index: nat)
      requires Valid() && index in pool && pool[index] != null
      ensures index in free && free[index] != [] && free[index][0] == pool[index] && NoDup(free[index])
      ensures pool[index] in known && pool[index] !in owner && pool[index].capacity == index
      ensures forall d <- free | d != index :: pool[index] !in free[d]
    {
      hide Accounted, Classes, Apart, Shaped;
      ChainIn(index, pool[index], free[index], links);
      PartitionTake(known, free, owner.Keys, index);
    }

    method Revert(b: IoBuf)
      requires Valid() && b in owner
      modifies this`pool, this`free, this`owner, this`links, b
      ensures Valid() && owner == old(owner) - {b}
    {
      hide Partitioned, Accounted, Classes, Apart, Chains;
      RevertBooks(b);
      var index := b.capacity;
      b.length, b.head := 0, 0;
      b.next := pool[index];
      links := links[b := pool[index]];
      pool := pool[index := b];
      free := free[index := [b] + free[index]];
      owner := owner - {b};
    }

    lemma RevertBooks(b: IoBuf)
      requires Valid() && b in owner
      ensures b in known && b.capacity in free && b.capacity in pool
      ensures Chains(pool[b.capacity := b], free[b.capacity := [b] + free[b.capacity]], links[b := pool[b.capacity]])
      ensures Partitioned(known, free[b.capacity := [b] + free[b.capacity]], (owner - {b}).Keys)
    {
      hide Partitioned, Accounted, Classes, Apart, Chains;
      PartitionRevert(known, free, owner.Keys, b);
      PoolKeys();
      ChainsPush(pool, free, links, b);
      assert (owner - {b}).Keys == owner.Keys - {b};
    }

    /** What a holder needs to know about the buffers. */
    lemma LentBuffer(b: IoBuf)
      requires Valid() && b in owner
      ensures b in known && b.Valid() && b.capacity <= M4M
    {
      hide Accounted, Apart, Chains;
    }

    lemma Lent()
      requires Valid()
      ensures owner.Keys <= known
    {
      hide Accounted, Apart, Chains;
    }

    lemma OwnArray(b: IoBuf)
      requires Valid() && b in known
      ensures forall k <- known | k != b :: k.data != b.data
    {
      hide Accounted, Partitioned, Chains, Shaped;
    }

    lemma PoolKeys()
      requires Valid()
      ensures pool.Keys == free.Keys == Classes()
    {
    }
  }
}
