/**
 Two 32-bit numbers packed into one 64-bit key: modid/cmdid and ip/port pairs.
 Sums wrap at 2^64, as they do for `uint64_t`; halves are read back as the source reads them.
 */
module Keys {

  const HALF := 0x8000_0000
  const WORD := 0x1_0000_0000
  const WIDE := 0x1_0000_0000_0000_0000

  predicate Int32(x: int) { -HALF <= x < HALF }

  type int32 = x: int | Int32(x)

  predicate Uint32(x: int) { 0 <= x < WORD }

  /** `((uint64_t)hi << 32) + lo`. */
  function Pack(hi: int, lo: int): nat {
    (hi * WORD + lo) % WIDE
  }

  function AsInt32(x: nat): int {
    var w := x % WORD;
    if w < HALF then w else w - WORD
  }

  /** `(uint32_t)(key >> 32)` and `(int)key`. */
  function HostOf(key: nat): (int, int) {
    ((key / WORD) % WORD, AsInt32(key))
  }

  /** `int(key >> 32)` and `int(key)`. */
  function ModOf(key: nat): (int, int) {
    (AsInt32(key / WORD), AsInt32(key))
  }

  lemma PackInjective(hi: int, lo: int, hi': int, lo': int)
    requires (Int32(hi) && Int32(hi')) || (Uint32(hi) && Uint32(hi'))
    requires Int32(lo) && Int32(lo')
    requires Pack(hi, lo) == Pack(hi', lo')
    ensures hi == hi' && lo == lo'
  {
  }

  lemma PackHalves(hi: int, lo: int)
    requires Int32(hi) || Uint32(hi)
    requires Int32(lo)
    ensures Pack(hi, lo) % WORD == (if lo >= 0 then lo else lo + WORD)
    ensures Pack(hi, lo) / WORD == (hi - if lo >= 0 then 0 else 1) % WORD
  {
    var top := hi - if lo >= 0 then 0 else 1;
    var low := if lo >= 0 then lo else lo + WORD;
    var w := if top < 0 then top + WORD else top;
    assert Pack(hi, lo) == w * WORD + low;
  }

  /** A host read back from its key is the host that was packed exactly when its port is
      not negative. */
  lemma HostRoundTrip(ip: int, port: int)
    requires Uint32(ip) && Int32(port)
    ensures HostOf(Pack(ip, port)) == (ip, port) <==> port >= 0
  {
    PackHalves(ip, port);
  }

  /** The same for a module: a negative cmdid borrows one from the modid. */
  lemma ModRoundTrip(modid: int, cmdid: int)
    requires Int32(modid) && Int32(cmdid)
    ensures ModOf(Pack(modid, cmdid)) == (modid, cmdid) <==> cmdid >= 0
    ensures var (m, c) := ModOf(Pack(modid, cmdid));
      Pack(m, c) == Pack(modid, cmdid) <==> cmdid >= 0
  {
    PackHalves(modid, cmdid);
    var (m, c) := ModOf(Pack(modid, cmdid));
    if Pack(m, c) == Pack(modid, cmdid) {
      PackInjective(m, c, modid, cmdid);
    }
  }

  function Pow2(n: nat): nat { if n == 0 then 1 else 2 * Pow2(n - 1) }

  /** The key `update` computes as its text reads, `ip << (32 + port)`, for the ports at which
      the shift is defined. */
  function ShiftKey(ip: int, port: nat): nat {
    (ip * Pow2(32 + port)) % WIDE
  }

  lemma {:induction false} Pow2Splits(n: nat)
    ensures Pow2(32 + n) == WORD * Pow2(n)
  {
    if n == 0 {
      assert Pow2(8) == 256;
      assert Pow2(16) == 65536;
      assert Pow2(24) == 16777216;
      assert Pow2(32) == WORD;
    } else {
      Pow2Splits(n - 1);
    }
  }

  /** The port is shifted out: the low half of the key is always zero. */
  lemma ShiftKeyLowHalf(ip: int, port: nat)
    ensures ShiftKey(ip, port) % WORD == 0
  {
    Pow2Splits(port);
    assert ip * Pow2(32 + port) == WORD * (ip * Pow2(port));
    LowHalfIsZero(ip * Pow2(port));
  }

  /** So a host stored by `update` under that key is found by `report`, which packs the two
      halves, only at port 0. */
  lemma ShiftKeyMatchesPack(ip: int, port: nat)
    requires (Int32(ip) || Uint32(ip)) && port < 32
    ensures ShiftKey(ip, port) == Pack(ip, port) <==> port == 0
  {
    ShiftKeyLowHalf(ip, port);
    PackHalves(ip, port);
    if port == 0 {
      assert Pow2(32) == WORD by { Pow2Splits(0); }
    }
  }

  lemma LowHalfIsZero(y: int)
    ensures (WORD * y) % WIDE % WORD == 0
  {
    var q := (WORD * y) / WIDE;
    assert (WORD * y) % WIDE == WORD * (y - WORD * q);
  }
}
