/**
 How many failures it takes to move a host to the overload queue, and how many successes
 to bring it back, over every run of reports in which no time window runs out.
 */
module Hysteresis {
  import opened HostModel

  datatype Call = Call(ok: bool, now: int, stamp: int)

  function Run(c: Config, h: Host, calls: seq<Call>): Host
    decreases |calls|
  {
    if calls == [] then h
    else Run(c, Reported(c, h, calls[0].ok, calls[0].now, calls[0].stamp), calls[1..])
  }

  /** The number of calls with the given outcome. */
  function Outcomes(calls: seq<Call>, ok: bool): nat {
    if calls == [] then 0 else (if calls[0].ok == ok then 1 else 0) + Outcomes(calls[1..], ok)
  }

  ghost predicate InsideWindow(c: Config, h: Host, calls: seq<Call>) {
    if h.overload
    then forall call <- calls :: call.now - h.overloadTs < c.overloadTimeout
    else forall call <- calls :: call.now - h.idleTs < c.idleTimeout
  }

  /** The least k with k > rate * (seed + k), capped by the limit on consecutive calls. */
  function CallsToMove(limit: nat, rate: real, seed: nat): int {
    if rate >= 1.0 then limit
    else
      var byRate := (rate * seed as real / (1.0 - rate)).Floor + 1;
      if byRate < limit then byRate else limit
  }

  lemma ByRateIsLeast(rate: real, seed: nat, k: nat)
    requires 0.0 <= rate < 1.0
    ensures k as real > rate * (seed + k) as real
       <==> k >= (rate * seed as real / (1.0 - rate)).Floor + 1
  {
    var q := rate * seed as real / (1.0 - rate);
    var d := 1.0 - rate;
    assert q * d == rate * seed as real;
    assert rate * (seed + k) as real == q * d + rate * k as real;
    assert k as real - rate * k as real == k as real * d;
    assert k as real > rate * (seed + k) as real <==> k as real * d > q * d;
    if k as real > q {
      Scale(q, k as real, d);
    } else if k as real < q {
      Scale(k as real, q, d);
    }
  }

  lemma PositiveFactor(a: real, k: real)
    requires 0.0 <= k && a * k > 0.0
    ensures a > 0.0
  {
    if a <= 0.0 {
      Product(-a, k);
    }
  }

  lemma Product(a: real, b: real)
    requires 0.0 <= a && 0.0 <= b
    ensures a * b >= 0.0
  {
  }

  lemma BelowOne(rate: real, x: real, k: real)
    requires 0.0 <= rate && 0.0 <= x && 0.0 <= k && k > rate * (x + k)
    ensures rate < 1.0
  {
    assert rate * (x + k) == rate * x + rate * k;
    Product(rate, x);
    assert (1.0 - rate) * k == k - rate * k;
    PositiveFactor(1.0 - rate, k);
  }

  /** More calls of the other kind only raise what the rate demands. */
  lemma RateNeeds(rate: real, seed: nat, k: nat, others: nat)
    requires 0.0 <= rate
    requires k as real > rate * (seed + others + k) as real
    ensures rate < 1.0 && k as real > rate * (seed + k) as real
  {
    BelowOne(rate, (seed + others) as real, k as real);
    NonNegative(rate, others);
    assert rate * (seed + others + k) as real == rate * (seed + k) as real + rate * others as real;
  }

  lemma RateMoves(limit: nat, rate: real, seed: nat, k: nat, others: nat, run: nat)
    requires 0.0 <= rate && 0 < k && run <= k
    ensures k as real / (seed + others + k) as real > rate || run >= limit ==> k >= CallsToMove(limit, rate, seed)
    ensures others == 0 && run == k && k >= CallsToMove(limit, rate, seed) ==>
              k as real / (seed + others + k) as real > rate || run >= limit
  {
    RateCompares(k, seed + others + k, rate);
    if k as real > rate * (seed + others + k) as real {
      RateNeeds(rate, seed, k, others);
    }
    if rate < 1.0 {
      ByRateIsLeast(rate, seed, k);
    }
  }

  /** Which calls count towards the next move of `h`, and how many of them it takes. */
  function Towards(h: Host): bool { h.overload }

  function Needed(c: Config, h: Host): int {
    if h.overload then CallsToMove(c.continSuccLimit, c.succRate, c.initErr)
    else CallsToMove(c.continErrLimit, c.errRate, c.initSucc)
  }

  function Gathered(h: Host): nat { if h.overload then h.rsucc else h.rerr }

  function Consecutive(h: Host): nat { if h.overload then h.continSucc else h.continErr }

  function Limit(c: Config, h: Host): nat { if h.overload then c.continSuccLimit else c.continErrLimit }

  /** The calls of the other kind seen since the host entered its queue. */
  function Others(h: Host): nat { if h.overload then h.rerr else h.rsucc }

  /** The decision the counters of `g` call for, right after a call of the kind that counts. */
  predicate Decides(c: Config, g: Host)
    requires 0 < (if g.overload then g.vsucc else g.verr)
  {
    if g.overload then Recovers(c, g) else TripsOverload(c, g)
  }

  lemma Decision(c: Config, g: Host)
    requires Sane(c) && Seeded(c, g) && 0 < Gathered(g)
    ensures Decides(c, g) ==> Gathered(g) >= Needed(c, g)
    ensures Others(g) == 0 && Consecutive(g) == Gathered(g) >= Needed(c, g) ==> Decides(c, g)
    ensures Consecutive(g) >= Limit(c, g) ==> Decides(c, g)
  {
    hide CallsToMove;
    if g.overload {
      assert g.vsucc + g.verr == c.initErr + g.rerr + g.rsucc;
      RateMoves(c.continSuccLimit, c.succRate, c.initErr, g.rsucc, g.rerr, g.continSucc);
    } else {
      assert g.vsucc + g.verr == c.initSucc + g.rsucc + g.rerr;
      RateMoves(c.continErrLimit, c.errRate, c.initSucc, g.rerr, g.rsucc, g.continErr);
    }
  }

  /** One report inside the window: the host moves if its counters call for it, and only
      counts otherwise. */
  lemma OneReport(c: Config, h: Host, call: Call)
    requires InsideWindow(c, h, [call])
    ensures var g, h' := Counted(h, call.ok), Reported(c, h, call.ok, call.now, call.stamp);
      if call.ok == Towards(h) && Decides(c, g) then h'.overload != h.overload else h' == g
  {
    hide TripsOverload, Recovers, CheckWindow;
    assert call in [call];
  }

  /** Lower bound: with fewer than the needed calls, in any order and mixed with any number
      of calls of the other kind, the host stays where it is. */
  lemma {:induction false} TooFewToMove(c: Config, h: Host, calls: seq<Call>)
    requires Sane(c) && Seeded(c, h) && InsideWindow(c, h, calls)
    requires Gathered(h) + Outcomes(calls, Towards(h)) < Needed(c, h)
    ensures Run(c, h, calls).overload == h.overload
    ensures Gathered(Run(c, h, calls)) == Gathered(h) + Outcomes(calls, Towards(h))
    decreases |calls|
  {
    hide Reported, Decides, CallsToMove;
    if calls != [] {
      var call := calls[0];
      var g := Counted(h, call.ok);
      OneReport(c, h, call);
      if call.ok == Towards(h) {
        Decision(c, g);
      }
      TooFewToMove(c, g, calls[1..]);
    }
  }

  /** Upper bound: from any state the limit on consecutive calls suffices. */
  lemma {:induction false} ConsecutiveMoves(c: Config, h: Host, calls: seq<Call>) returns (n: nat)
    requires Sane(c) && Seeded(c, h) && Consecutive(h) < Limit(c, h)
    requires InsideWindow(c, h, calls) && forall call <- calls :: call.ok == Towards(h)
    requires Consecutive(h) + |calls| >= Limit(c, h)
    ensures 0 < n <= |calls| && Run(c, h, calls[..n]).overload != h.overload
    ensures n <= Limit(c, h) - Consecutive(h)
    decreases |calls|
  {
    hide Reported, Decides, CallsToMove;
    var call := calls[0];
    var g := Counted(h, call.ok);
    OneReport(c, h, call);
    Decision(c, g);
    if Decides(c, g) {
      n := 1;
      assert calls[..1][1..] == [];
    } else {
      var m := ConsecutiveMoves(c, g, calls[1..]);
      n := m + 1;
      assert calls[..n][1..] == calls[1..][..m];
    }
  }

  /** A host that has just entered its queue. */
  predicate JustEntered(h: Host) { h.rsucc == 0 && h.rerr == 0 }

  /** Both bounds are met: a run of the needed calls and nothing else moves a host that has
      just entered its queue exactly with the last call. */
  lemma MovesExactlyAt(c: Config, h: Host, calls: seq<Call>)
    requires Sane(c) && Seeded(c, h) && JustEntered(h)
    requires InsideWindow(c, h, calls) && forall call <- calls :: call.ok == Towards(h)
    requires |calls| == Needed(c, h)
    ensures Run(c, h, calls).overload != h.overload
    ensures forall n | 0 <= n < |calls| :: Run(c, h, calls[..n]).overload == h.overload
  {
    hide Reported, Decides, CallsToMove;
    NeededPositive(c, h);
    forall n | 0 <= n < |calls| ensures Run(c, h, calls[..n]).overload == h.overload {
      StaysCounting(c, h, calls[..n]);
    }
    var init, last := calls[..|calls| - 1], calls[|calls| - 1];
    assert calls == init + [last];
    StaysCounting(c, h, init);
    RunAppend(c, h, init, last);
    OneReport(c, Run(c, h, init), last);
    Decision(c, Counted(Run(c, h, init), last.ok));
  }

  lemma NeededPositive(c: Config, h: Host)
    requires Sane(c)
    ensures Needed(c, h) >= 1
  {
    if h.overload {
      CallsPositive(c.continSuccLimit, c.succRate, c.initErr);
    } else {
      CallsPositive(c.continErrLimit, c.errRate, c.initSucc);
    }
  }

  lemma CallsPositive(limit: nat, rate: real, seed: nat)
    requires 0.0 <= rate && 1 <= limit
    ensures CallsToMove(limit, rate, seed) >= 1
  {
    if rate < 1.0 {
      ByRateIsLeast(rate, seed, 0);
      NonNegative(rate, seed);
    }
  }

  /** Below the needed number, calls of one kind only count. */
  lemma {:induction false} StaysCounting(c: Config, h: Host, calls: seq<Call>)
    requires Sane(c) && Seeded(c, h) && JustEntered(h)
    requires InsideWindow(c, h, calls) && forall call <- calls :: call.ok == Towards(h)
    requires |calls| < Needed(c, h)
    ensures var m := Run(c, h, calls);
      && Seeded(c, m) && m.overload == h.overload
      && m.idleTs == h.idleTs && m.overloadTs == h.overloadTs
      && Gathered(m) == Consecutive(m) == |calls| && Others(m) == 0
    decreases |calls|
  {
    hide Reported, Decides, CallsToMove;
    if calls != [] {
      var init, last := calls[..|calls| - 1], calls[|calls| - 1];
      assert calls == init + [last];
      StaysCounting(c, h, init);
      RunAppend(c, h, init, last);
      OneReport(c, Run(c, h, init), last);
      Decision(c, Counted(Run(c, h, init), last.ok));
    }
  }

  lemma {:induction false} RunAppend(c: Config, h: Host, calls: seq<Call>, call: Call)
    ensures Run(c, h, calls + [call]) == Reported(c, Run(c, h, calls), call.ok, call.now, call.stamp)
    decreases |calls|
  {
    hide Reported;
    if calls == [] {
      assert (calls + [call])[1..] == [];
    } else {
      assert (calls + [call])[1..] == calls[1..] + [call];
      RunAppend(c, Reported(c, h, calls[0].ok, calls[0].now, calls[0].stamp), calls[1..], call);
    }
  }

  // ----- What any run of calls does, said of the calls alone -----

  /** The length of the longest run of calls with the given outcome at the end. */
  function Streak(calls: seq<Call>, ok: bool): (n: nat)
    ensures n <= |calls| && forall i | |calls| - n <= i < |calls| :: calls[i].ok == ok
    ensures n < |calls| ==> calls[|calls| - n - 1].ok != ok
  {
    if calls == [] || calls[|calls| - 1].ok != ok then 0 else 1 + Streak(calls[..|calls| - 1], ok)
  }

  /** Whether the calls since a host entered its queue call for a move: the last one is of the kind
      that counts, and so are the last `Limit` ones, or their share exceeds the rate. */
  predicate Due(c: Config, overload: bool, calls: seq<Call>) {
    && calls != [] && calls[|calls| - 1].ok == overload
    && (|| Streak(calls, overload) >= (if overload then c.continSuccLimit else c.continErrLimit)
        || (if overload then Exceeds(Outcomes(calls, true), c.succRate, c.initErr + |calls|)
            else Exceeds(Outcomes(calls, false), c.errRate, c.initSucc + |calls|)))
  }

  predicate Exceeds(part: nat, rate: real, whole: nat) {
    part as real > rate * whole as real
  }

  /** No beginning of the calls is due. */
  ghost predicate NeverDue(c: Config, overload: bool, calls: seq<Call>) {
    forall n | 0 <= n <= |calls| :: !Due(c, overload, calls[..n])
  }

  /** The counters of a host are those of the calls since it entered its queue. */
  ghost predicate CountsOf(h: Host, calls: seq<Call>) {
    && h.rsucc == Outcomes(calls, true) && h.rerr == Outcomes(calls, false)
    && h.continSucc == Streak(calls, true) && h.continErr == Streak(calls, false)
  }

  lemma {:induction false} OutcomesAppend(calls: seq<Call>, call: Call, ok: bool)
    ensures Outcomes(calls + [call], ok) == Outcomes(calls, ok) + if call.ok == ok then 1 else 0
  {
    if calls == [] {
      assert (calls + [call])[1..] == [];
    } else {
      assert (calls + [call])[1..] == calls[1..] + [call];
      OutcomesAppend(calls[1..], call, ok);
    }
  }

  lemma {:induction false} OutcomesTotal(calls: seq<Call>)
    ensures Outcomes(calls, true) + Outcomes(calls, false) == |calls|
  {
    if calls != [] {
      OutcomesTotal(calls[1..]);
    }
  }

  lemma CountedMore(h: Host, calls: seq<Call>, call: Call)
    requires CountsOf(h, calls)
    ensures CountsOf(Counted(h, call.ok), calls + [call])
  {
    OutcomesAppend(calls, call, true);
    OutcomesAppend(calls, call, false);
    assert (calls + [call])[..|calls|] == calls;
  }

  /** The tests on the counters are the tests on the calls. */
  lemma DecidesWhenDue(c: Config, g: Host, calls: seq<Call>)
    requires Seeded(c, g) && CountsOf(g, calls) && calls != [] && calls[|calls| - 1].ok == g.overload
    ensures 0 < Gathered(g) && (Decides(c, g) <==> Due(c, g.overload, calls))
  {
    hide Streak, Outcomes, Exceeds, TripsOverload, Recovers;
    LastCounts(calls);
    OutcomesTotal(calls);
    if g.overload {
      RecoversWhen(c, g);
      assert g.vsucc + g.verr == c.initErr + |calls|;
    } else {
      TripsWhen(c, g);
      assert g.vsucc + g.verr == c.initSucc + |calls|;
    }
  }

  lemma LastCounts(calls: seq<Call>)
    requires calls != []
    ensures Outcomes(calls, calls[|calls| - 1].ok) > 0
  {
    var init, last := calls[..|calls| - 1], calls[|calls| - 1];
    assert calls == init + [last];
    OutcomesAppend(init, last, last.ok);
  }

  lemma TripsWhen(c: Config, g: Host)
    requires 0 < g.verr
    ensures TripsOverload(c, g) <==> Exceeds(g.verr, c.errRate, g.vsucc + g.verr) || g.continErr >= c.continErrLimit
  {
    RateCompares(g.verr, g.vsucc + g.verr, c.errRate);
  }

  lemma RecoversWhen(c: Config, g: Host)
    requires 0 < g.vsucc
    ensures Recovers(c, g) <==> Exceeds(g.vsucc, c.succRate, g.vsucc + g.verr) || g.continSucc >= c.continSuccLimit
  {
    RateCompares(g.vsucc, g.vsucc + g.verr, c.succRate);
  }

  /** While nothing is due, a host stays in its queue and its counters are those of the calls: every call
      counts once, for its own outcome, and a call of one kind ends a run of the other. */
  lemma {:induction false} StaysAndCounts(c: Config, h: Host, calls: seq<Call>)
    requires Seeded(c, h) && JustEntered(h) && InsideWindow(c, h, calls) && NeverDue(c, h.overload, calls)
    ensures var m := Run(c, h, calls);
      && m.overload == h.overload && m.idleTs == h.idleTs && m.overloadTs == h.overloadTs
      && Seeded(c, m) && CountsOf(m, calls)
    decreases |calls|
  {
    hide Reported, Decides, Due, Streak;
    if calls == [] {
      NoCalls(h);
    } else {
      var init, last := calls[..|calls| - 1], calls[|calls| - 1];
      assert calls == init + [last];
      forall n | 0 <= n <= |init| ensures !Due(c, h.overload, init[..n]) {
        assert init[..n] == calls[..n];
      }
      StaysAndCounts(c, h, init);
      OneMore(c, h, init, last);
      assert calls[..|calls|] == calls;
    }
  }

  lemma NoCalls(h: Host)
    requires JustEntered(h) && h.continSucc <= h.rsucc && h.continErr <= h.rerr
    ensures CountsOf(h, [])
  {
  }

  /** One call more: the host moves if that is due, and otherwise only counts. */
  lemma OneMore(c: Config, h: Host, init: seq<Call>, last: Call)
    requires Seeded(c, h) && InsideWindow(c, h, init + [last])
    requires var m := Run(c, h, init);
      m.overload == h.overload && m.idleTs == h.idleTs && m.overloadTs == h.overloadTs && Seeded(c, m) && CountsOf(m, init)
    ensures var m := Run(c, h, init + [last]);
      if Due(c, h.overload, init + [last]) then m.overload != h.overload
      else m.overload == h.overload && m.idleTs == h.idleTs && m.overloadTs == h.overloadTs
           && Seeded(c, m) && CountsOf(m, init + [last])
  {
    hide Reported, Decides, Streak;
    var m := Run(c, h, init);
    var g := Counted(m, last.ok);
    assert last in init + [last];
    RunAppend(c, h, init, last);
    OneReport(c, m, last);
    CountedMore(m, init, last);
    if last.ok == m.overload {
      DecidesWhenDue(c, g, init + [last]);
    }
  }

  /** The first move, for any mix of calls inside the window: a host that has just entered its queue
      leaves it with the first call at which a move is due, and with no earlier one. */
  lemma MovesWhenDue(c: Config, h: Host, calls: seq<Call>)
    requires Seeded(c, h) && JustEntered(h) && InsideWindow(c, h, calls) && calls != []
    requires NeverDue(c, h.overload, calls[..|calls| - 1])
    ensures Run(c, h, calls).overload != h.overload <==> Due(c, h.overload, calls)
  {
    hide Reported, Due, Streak;
    var init, last := calls[..|calls| - 1], calls[|calls| - 1];
    assert calls == init + [last];
    StaysAndCounts(c, h, init);
    OneMore(c, h, init, last);
  }

  /** A host stays overloaded only within its time-out: as long as a run leaves it there, every
      report of the run came in time. */
  lemma {:induction false} OverloadIsBounded(c: Config, h: Host, calls: seq<Call>)
    requires h.overload && forall n | 0 <= n <= |calls| :: Run(c, h, calls[..n]).overload
    ensures forall call <- calls :: call.now - h.overloadTs < c.overloadTimeout
    decreases |calls|
  {
    hide Reported;
    if calls != [] {
      var call := calls[0];
      var h' := Reported(c, h, call.ok, call.now, call.stamp);
      assert calls[..1][1..] == [];
      assert Run(c, h, calls[..1]) == Run(c, h', []) == h';
      if call.now - h.overloadTs >= c.overloadTimeout {
        OverloadTimesOut(c, h, call.ok, call.now, call.stamp);
      }
      StaysMeansCounted(c, h, call);
      forall n | 0 <= n <= |calls[1..]| ensures Run(c, h', calls[1..][..n]).overload {
        assert calls[..n + 1][1..] == calls[1..][..n];
        assert Run(c, h, calls[..n + 1]).overload;
      }
      OverloadIsBounded(c, h', calls[1..]);
    }
  }

  lemma StaysMeansCounted(c: Config, h: Host, call: Call)
    requires h.overload && Reported(c, h, call.ok, call.now, call.stamp).overload
    ensures Reported(c, h, call.ok, call.now, call.stamp) == Counted(h, call.ok)
  {
  }
}
