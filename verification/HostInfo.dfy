/**
 The record an agent keeps about one host: success and error counters, the queue it
 belongs to, and the decision taken after every reported call.

 Rates are reals and counters are unbounded naturals.  Every reading of the clock is a
 parameter: `now` is the reading taken on entry to a report, `stamp` the later reading
 that is stored when the host changes state.
 */
module HostModel {

  datatype Config = Config(
    probeNum: nat,
    initSucc: nat, initErr: nat,
    errRate: real, succRate: real,
    continErrLimit: nat, continSuccLimit: nat,
    windowErrRate: real,
    idleTimeout: int, overloadTimeout: int, updateTimeout: int)

  /** A configuration whose limits can be met: rates are not negative, limits are positive. */
  predicate Sane(c: Config) {
    0.0 <= c.errRate && 0.0 <= c.succRate && 1 <= c.continErrLimit && 1 <= c.continSuccLimit
  }

  datatype Host = Host(
    vsucc: nat, verr: nat, rsucc: nat, rerr: nat,
    continSucc: nat, continErr: nat,
    overload: bool, idleTs: int, overloadTs: int)

  /** A new host.  The constructor leaves both time stamps unset, so they are parameters. */
  function Fresh(c: Config, stamps: (int, int)): Host {
    Host(c.initSucc, 0, 0, 0, 0, 0, false, stamps.0, stamps.1)
  }

  function SetIdle(c: Config, h: Host, stamp: int): Host {
    Host(c.initSucc, 0, 0, 0, 0, 0, false, stamp, h.overloadTs)
  }

  function SetOverload(c: Config, h: Host, stamp: int): Host {
    Host(0, c.initErr, 0, 0, 0, 0, true, h.idleTs, stamp)
  }

  predicate CheckWindow(c: Config, h: Host) {
    h.rsucc + h.rerr != 0 && h.rerr as real / (h.rsucc + h.rerr) as real >= c.windowErrRate
  }

  function Counted(h: Host, ok: bool): Host {
    if ok then h.(vsucc := h.vsucc + 1, rsucc := h.rsucc + 1, continSucc := h.continSucc + 1, continErr := 0)
    else h.(verr := h.verr + 1, rerr := h.rerr + 1, continErr := h.continErr + 1, continSucc := 0)
  }

  predicate TripsOverload(c: Config, h: Host)
    requires 0 < h.verr
  {
    h.verr as real / (h.vsucc + h.verr) as real > c.errRate || h.continErr >= c.continErrLimit
  }

  predicate Recovers(c: Config, h: Host)
    requires 0 < h.vsucc
  {
    h.vsucc as real / (h.vsucc + h.verr) as real > c.succRate || h.continSucc >= c.continSuccLimit
  }

  /** The window check made when the counters alone decide nothing. */
  function AfterWindow(c: Config, h: Host, now: int, stamp: int): Host {
    if !h.overload then
      if now - h.idleTs >= c.idleTimeout then
        if CheckWindow(c, h) then SetOverload(c, h, stamp) else SetIdle(c, h, stamp)
      else h
    else if now - h.overloadTs >= c.overloadTimeout then SetIdle(c, h, stamp)
    else h
  }

  /** One reported call. */
  function Reported(c: Config, h: Host, ok: bool, now: int, stamp: int): Host {
    var g := Counted(h, ok);
    if !g.overload && !ok && TripsOverload(c, g) then SetOverload(c, g, stamp)
    else if g.overload && ok && Recovers(c, g) then SetIdle(c, g, stamp)
    else AfterWindow(c, g, now, stamp)
  }

  // ----- What every report keeps -----

  /** The limits a host of each queue respects.  The rates are cross-multiplied, so the
      statement also covers a host that has seen no call. */
  predicate WithinLimits(c: Config, h: Host) {
    if h.overload then
      h.vsucc as real <= c.succRate * (h.vsucc + h.verr) as real && h.continSucc < c.continSuccLimit
    else
      h.verr as real <= c.errRate * (h.vsucc + h.verr) as real && h.continErr < c.continErrLimit
  }

  /** Virtual counters are the real ones plus the seed of the host's queue. */
  predicate Seeded(c: Config, h: Host) {
    && h.vsucc == h.rsucc + (if h.overload then 0 else c.initSucc)
    && h.verr == h.rerr + (if h.overload then c.initErr else 0)
    && h.continSucc <= h.rsucc && h.continErr <= h.rerr
    && (h.continSucc == 0 || h.continErr == 0)
  }

  lemma RateCompares(part: nat, whole: nat, rate: real)
    requires 0 < whole
    ensures part as real / whole as real > rate <==> part as real > rate * whole as real
    ensures part as real / whole as real >= rate <==> part as real >= rate * whole as real
  {
    var q := part as real / whole as real;
    assert part as real == q * whole as real;
    if q > rate {
      Scale(rate, q, whole as real);
    } else if q < rate {
      Scale(q, rate, whole as real);
    }
  }

  lemma Scale(x: real, y: real, k: real)
    requires x < y && 0.0 < k
    ensures x * k < y * k
  {
    assert (y - x) * k > 0.0;
  }

  lemma NonNegative(x: real, n: nat)
    requires 0.0 <= x
    ensures 0.0 <= x * n as real
  {
  }

  lemma FreshWithinLimits(c: Config, stamps: (int, int))
    requires Sane(c)
    ensures WithinLimits(c, Fresh(c, stamps)) && Seeded(c, Fresh(c, stamps))
  {
    NonNegative(c.errRate, c.initSucc);
  }

  lemma ReportKeepsSeeded(c: Config, h: Host, ok: bool, now: int, stamp: int)
    requires Seeded(c, h)
    ensures Seeded(c, Reported(c, h, ok, now, stamp))
  {
  }

  lemma NotTripped(c: Config, g: Host)
    requires 0 < g.verr && !TripsOverload(c, g)
    ensures g.verr as real <= c.errRate * (g.vsucc + g.verr) as real && g.continErr < c.continErrLimit
  {
    RateCompares(g.verr, g.vsucc + g.verr, c.errRate);
  }

  lemma NotRecovered(c: Config, g: Host)
    requires 0 < g.vsucc && !Recovers(c, g)
    ensures g.vsucc as real <= c.succRate * (g.vsucc + g.verr) as real && g.continSucc < c.continSuccLimit
  {
    RateCompares(g.vsucc, g.vsucc + g.verr, c.succRate);
  }

  /** One more call of the other kind only lowers a share. */
  lemma Diluted(part: nat, whole: nat, rate: real)
    requires 0.0 <= rate && part as real <= rate * whole as real
    ensures part as real <= rate * (whole + 1) as real
  {
    assert rate * (whole + 1) as real == rate * whole as real + rate;
  }

  /** Counting a call keeps the limits unless the counters call for a move. */
  lemma CountKeepsLimits(c: Config, h: Host, ok: bool)
    requires Sane(c) && WithinLimits(c, h)
    requires !h.overload && !ok ==> !TripsOverload(c, Counted(h, ok))
    requires h.overload && ok ==> !Recovers(c, Counted(h, ok))
    ensures WithinLimits(c, Counted(h, ok))
  {
    hide TripsOverload, Recovers;
    var g := Counted(h, ok);
    if h.overload {
      if ok { NotRecovered(c, g); } else { Diluted(h.vsucc, h.vsucc + h.verr, c.succRate); }
    } else {
      if ok { Diluted(h.verr, h.vsucc + h.verr, c.errRate); } else { NotTripped(c, g); }
    }
  }

  lemma EntersWithinLimits(c: Config, h: Host, stamp: int)
    requires Sane(c)
    ensures WithinLimits(c, SetIdle(c, h, stamp)) && WithinLimits(c, SetOverload(c, h, stamp))
  {
    NonNegative(c.errRate, c.initSucc);
    NonNegative(c.succRate, c.initErr);
  }

  /** Threshold safety of one report, whatever the clock says: also for reports that skip
      the check and for window resets. */
  lemma ReportKeepsLimits(c: Config, h: Host, ok: bool, now: int, stamp: int)
    requires Sane(c) && WithinLimits(c, h)
    ensures WithinLimits(c, Reported(c, h, ok, now, stamp))
  {
    hide TripsOverload, Recovers, CheckWindow, WithinLimits;
    var g := Counted(h, ok);
    EntersWithinLimits(c, g, stamp);
    if (!g.overload && !ok ==> !TripsOverload(c, g)) && (g.overload && ok ==> !Recovers(c, g)) {
      CountKeepsLimits(c, h, ok);
    }
  }

  /** The conditions of `Sane` are exactly what these limits need: they hold when a host enters
      a queue and after a first call that is not checked there, for every host and clock, if
      and only if the configuration meets them. */
  lemma SaneIsExact(c: Config, h: Host, stamp: int)
    ensures Sane(c) <==>
      && WithinLimits(c, SetIdle(c, h, stamp)) && WithinLimits(c, Counted(SetIdle(c, h, stamp), true))
      && WithinLimits(c, SetOverload(c, h, stamp)) && WithinLimits(c, Counted(SetOverload(c, h, stamp), false))
  {
    if Sane(c) {
      EntersWithinLimits(c, h, stamp);
      Diluted(0, c.initSucc, c.errRate);
      Diluted(0, c.initErr, c.succRate);
    } else {
      Negative(c.errRate, c.initSucc + 1);
      Negative(c.succRate, c.initErr + 1);
    }
  }

  lemma Negative(x: real, n: nat)
    requires 0 < n
    ensures x < 0.0 ==> x * n as real < 0.0
  {
  }

  // ----- Time windows -----

  /** A host that enters a queue does so with the seeds of that queue, no real calls, and the
      stamp of that moment as the start of its window; the other stamp stays. */
  predicate EntersAt(c: Config, was: Host, h: Host, stamp: int) {
    && h.rsucc == 0 && h.rerr == 0 && h.continSucc == 0 && h.continErr == 0 && Seeded(c, h)
    && (if h.overload then h.overloadTs == stamp && h.idleTs == was.idleTs
        else h.idleTs == stamp && h.overloadTs == was.overloadTs)
  }

  /** Every report counts the call, or moves the host or restarts its window at the given stamp. */
  lemma CountsOrEnters(c: Config, h: Host, ok: bool, now: int, stamp: int)
    ensures var h' := Reported(c, h, ok, now, stamp);
      h' == Counted(h, ok) || EntersAt(c, h, h', stamp)
    ensures Reported(c, h, ok, now, stamp).overload != h.overload ==>
      EntersAt(c, h, Reported(c, h, ok, now, stamp), stamp)
  {
  }

  /** The first report after the time-out of an overloaded host brings it back, good or bad. */
  lemma OverloadTimesOut(c: Config, h: Host, ok: bool, now: int, stamp: int)
    requires h.overload && now - h.overloadTs >= c.overloadTimeout
    ensures !Reported(c, h, ok, now, stamp).overload
  {
  }

  /** The first report after the window of an idle host clears its counters.  If the call itself
      does not trip a limit, the host goes to overload exactly when the calls of the window,
      this one included, failed at the window rate or above. */
  lemma IdleWindowDecides(c: Config, h: Host, ok: bool, now: int, stamp: int)
    requires !h.overload && now - h.idleTs >= c.idleTimeout
    requires !ok ==> !TripsOverload(c, Counted(h, ok))
    ensures var h' := Reported(c, h, ok, now, stamp);
      && EntersAt(c, h, h', stamp)
      && (h'.overload <==>
            (h.rerr + if ok then 0 else 1) as real >= c.windowErrRate * (h.rsucc + h.rerr + 1) as real)
  {
    hide TripsOverload;
    var g := Counted(h, ok);
    RateCompares(g.rerr, g.rsucc + g.rerr, c.windowErrRate);
  }
}
