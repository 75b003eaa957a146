/**
 What a run of picks returns while no report or update changes the queues: probes come
 at fixed distances and both queues are served in turn.
 */
module Fairness {
  import opened HostModel
  import opened LoadBalance

  /** The balancer after `n` picks. */
  function After(c: Config, b: Balancer, n: nat): (b': Balancer)
    requires b.idle != [] || b.over != []
    ensures |b'.idle| == |b.idle| && |b'.over| == |b.over|
  {
    if n == 0 then b else Pick(c, After(c, b, n - 1)).0
  }

  /** The answer to pick number `i`. */
  function Nth(c: Config, b: Balancer, i: nat): Choice
    requires b.idle != [] || b.over != []
  {
    Pick(c, After(c, b, i)).1
  }

  // Division is kept behind names so that proofs can hide it.
  function Div(x: nat, d: nat): nat requires 0 < d { x / d }

  function Mod(x: nat, d: nat): (r: nat) requires 0 < d ensures r < d { x % d }

  function Period(c: Config): nat { c.probeNum + 1 }

  /** Picks made since the last probe.  A larger counter acts like `probeNum`; the source does not
      initialise the counter, so it can start below zero. */
  function Phase(c: Config, b: Balancer): int {
    if b.access <= c.probeNum then b.access else c.probeNum
  }

  /** Probes among the first `i` picks. */
  function Probes(c: Config, b: Balancer, i: nat): nat {
    if b.over == [] || Phase(c, b) + i < 0 then 0 else Div(Phase(c, b) + i, Period(c))
  }

  /** The phase after `i` picks. */
  function Clock(c: Config, b: Balancer, i: nat): int {
    if Phase(c, b) + i < 0 then Phase(c, b) + i else Mod(Phase(c, b) + i, Period(c))
  }

  predicate ProbeTurn(c: Config, b: Balancer, i: nat) {
    b.over != [] && Clock(c, b, i) == c.probeNum
  }

  function Turned<T>(s: seq<T>, k: nat): seq<T>
    requires s != []
  {
    s[Mod(k, |s|)..] + s[..Mod(k, |s|)]
  }

  lemma DivMod(x: nat, d: nat)
    requires 0 < d
    ensures x == Div(x, d) * d + Mod(x, d)
  {
  }

  lemma Times(a: nat, b: nat, d: nat)
    requires a < b
    ensures a * d + d <= b * d
    decreases b
  {
    if a + 1 < b {
      Times(a, b - 1, d);
    }
    assert b * d == (b - 1) * d + d;
  }

  lemma DivUnique(x: nat, d: nat, q: nat, r: nat)
    requires r < d && x == q * d + r
    ensures Div(x, d) == q && Mod(x, d) == r
  {
    hide Div, Mod;
    DivMod(x, d);
    var q' := Div(x, d);
    if q' < q {
      Times(q', q, d);
    } else if q < q' {
      Times(q, q', d);
    }
  }

  lemma DivSmall(x: nat, d: nat)
    requires x < d
    ensures Div(x, d) == 0 && Mod(x, d) == x
  {
    DivUnique(x, d, 0, x);
  }

  lemma DivStep(x: nat, d: nat)
    requires 0 < d
    ensures Mod(x, d) == d - 1 ==> Div(x + 1, d) == Div(x, d) + 1 && Mod(x + 1, d) == 0
    ensures Mod(x, d) != d - 1 ==> Div(x + 1, d) == Div(x, d) && Mod(x + 1, d) == Mod(x, d) + 1
  {
    hide Div, Mod;
    var q, r := Div(x, d), Mod(x, d);
    DivMod(x, d);
    if r == d - 1 {
      assert (q + 1) * d == q * d + d;
      DivUnique(x + 1, d, q + 1, 0);
    } else {
      DivUnique(x + 1, d, q, r + 1);
    }
  }

  lemma TurnedNext<T>(s: seq<T>, k: nat)
    requires s != []
    ensures Turned(s, k)[0] == s[Mod(k, |s|)]
    ensures Rotated(Turned(s, k)) == Turned(s, k + 1)
  {
    hide Div, Mod;
    DivStep(k, |s|);
  }

  lemma ClockStart(c: Config, b: Balancer)
    ensures Clock(c, b, 0) == Phase(c, b) && Probes(c, b, 0) == 0
  {
    hide Div, Mod;
    if Phase(c, b) >= 0 {
      DivSmall(Phase(c, b), Period(c));
    }
  }

  /** Every pick advances the clock; a probe sets it back. */
  lemma ClockStep(c: Config, b: Balancer, i: nat)
    ensures Clock(c, b, i + 1) == if Clock(c, b, i) == c.probeNum then 0 else Clock(c, b, i) + 1
    ensures Probes(c, b, i + 1) == Probes(c, b, i) + if ProbeTurn(c, b, i) then 1 else 0
  {
    hide Div, Mod;
    var x := Phase(c, b) + i;
    if x >= 0 {
      DivStep(x, Period(c));
    } else if x == -1 {
      DivSmall(0, Period(c));
    }
  }

  lemma {:induction false} ProbesBelow(c: Config, b: Balancer, i: nat)
    ensures Probes(c, b, i) <= i
  {
    hide Probes, Clock;
    if i == 0 {
      ClockStart(c, b);
    } else {
      ProbesBelow(c, b, i - 1);
      ClockStep(c, b, i - 1);
    }
  }

  /** Where the queues and the counter stand after `i` picks. */
  ghost predicate StandsAt(c: Config, b: Balancer, i: nat)
    requires b.idle != [] || b.over != []
  {
    var b' := After(c, b, i);
    && Probes(c, b, i) <= i
    && (b.idle != [] ==> b'.idle == Turned(b.idle, i - Probes(c, b, i)))
    && (b.over != [] ==> b'.over == Turned(b.over, Probes(c, b, i)))
    && (b.over != [] ==> Phase(c, b') == Clock(c, b, i))
  }

  lemma StandsAtStart(c: Config, b: Balancer)
    requires b.idle != [] || b.over != []
    ensures StandsAt(c, b, 0)
  {
    hide Div, Mod, Clock, Probes;
    ClockStart(c, b);
    if b.over != [] { DivSmall(0, |b.over|); }
    if b.idle != [] { DivSmall(0, |b.idle|); }
  }

  lemma {:induction false} Stands(c: Config, b: Balancer, i: nat)
    requires b.idle != [] || b.over != []
    ensures StandsAt(c, b, i)
  {
    hide Div, Mod, Turned, Rotated, Clock, Probes;
    if i == 0 {
      StandsAtStart(c, b);
    } else {
      Stands(c, b, i - 1);
      ProbesBelow(c, b, i - 1);
      ProbesBelow(c, b, i);
      ClockStep(c, b, i - 1);
      if b.over != [] { TurnedNext(b.over, Probes(c, b, i - 1)); }
      if b.idle != [] { TurnedNext(b.idle, i - 1 - Probes(c, b, i - 1)); }
    }
  }

  /** While no host is overloaded, picks do not count towards the next probe. */
  lemma {:induction false} IdleKeepsCounter(c: Config, b: Balancer, n: nat)
    requires b.idle != [] && b.over == []
    ensures After(c, b, n).access == b.access && After(c, b, n).over == []
  {
    if n > 0 {
      IdleKeepsCounter(c, b, n - 1);
    }
  }

  /** The whole schedule: which queue serves pick `i`, and which of its hosts. */
  lemma Schedule(c: Config, b: Balancer, i: nat)
    requires b.idle != [] || b.over != []
    ensures Probes(c, b, i) <= i
    ensures Nth(c, b, i) ==
      if ProbeTurn(c, b, i) then Chosen(b.over[Mod(Probes(c, b, i), |b.over|)])
      else if b.idle == [] then Overloaded
      else Chosen(b.idle[Mod(i - Probes(c, b, i), |b.idle|)])
  {
    Stands(c, b, i);
    if b.over != [] { TurnedNext(b.over, Probes(c, b, i)); }
    if b.idle != [] { TurnedNext(b.idle, i - Probes(c, b, i)); }
  }

  predicate PicksOverloaded(c: Config, b: Balancer, i: nat)
    requires b.idle != [] || b.over != []
  {
    Nth(c, b, i).Chosen? && Nth(c, b, i).key in b.over
  }

  lemma PicksOverloadedOnProbe(c: Config, b: Balancer, i: nat)
    requires Partition(b) && b.over != []
    ensures PicksOverloaded(c, b, i) <==> ProbeTurn(c, b, i)
    ensures b.idle == [] && !ProbeTurn(c, b, i) ==> Nth(c, b, i) == Overloaded
  {
    Schedule(c, b, i);
    if !ProbeTurn(c, b, i) && b.idle != [] {
      assert Nth(c, b, i).key in b.idle;
    }
  }

  /** Within a period the last pick is the probe. */
  lemma TurnInPeriod(c: Config, b: Balancer, i: nat, q: nat)
    requires b.over != [] && 0 <= Phase(c, b) + i - q * Period(c) < Period(c)
    ensures ProbeTurn(c, b, i) <==> Phase(c, b) + i == q * Period(c) + c.probeNum
  {
    hide Div, Mod;
    DivUnique(Phase(c, b) + i, Period(c), q, Phase(c, b) + i - q * Period(c));
  }

  lemma NoTurnYet(c: Config, b: Balancer, i: nat)
    requires Phase(c, b) + i < 0
    ensures !ProbeTurn(c, b, i)
  {
  }

  /** Wherever they start in the run, `probeNum + 1` picks in a row hold exactly one probe, if and only
      if the picks since the counter was created have made up for a start below zero.  `at` is the
      next probe from pick `n` on. */
  lemma OneProbePerPeriod(c: Config, b: Balancer, n: nat) returns (at: nat)
    requires Partition(b) && b.over != []
    ensures n <= at
    ensures at < n + Period(c) <==> b.access + n >= 0
    ensures forall i | n <= i < (if at < n + Period(c) then n + Period(c) else at + 1) ::
      PicksOverloaded(c, b, i) <==> i == at
  {
    hide Div, Mod, PicksOverloaded, ProbeTurn;
    var d, x := Period(c), Phase(c, b) + n;
    var q := if x < 0 then 0 else Div(x, d);
    at := q * d + c.probeNum - Phase(c, b);
    if x >= 0 { DivMod(x, d); }
    assert (q + 1) * d == q * d + d;
    forall i | n <= i < (if at < n + d then n + d else at + 1)
      ensures PicksOverloaded(c, b, i) <==> i == at
    {
      PicksOverloadedOnProbe(c, b, i);
      if i > at {
        TurnInPeriod(c, b, i, q + 1);
      } else if Phase(c, b) + i >= 0 {
        TurnInPeriod(c, b, i, q);
      } else {
        NoTurnYet(c, b, i);
      }
    }
  }

  /** Probe number `q` is pick number `q * (probeNum + 1) + probeNum - Phase`. */
  lemma ProbeNumber(c: Config, b: Balancer, i: nat, q: nat)
    requires b.over != []
    ensures ProbeTurn(c, b, i) && Probes(c, b, i) == q <==> i == q * Period(c) + c.probeNum - Phase(c, b)
  {
    hide Div, Mod;
    var x := Phase(c, b) + i;
    if x >= 0 { DivMod(x, Period(c)); }
    if i == q * Period(c) + c.probeNum - Phase(c, b) {
      DivUnique(x, Period(c), q, c.probeNum);
    }
  }

  /** The picks a counter below zero puts off. */
  function Delay(c: Config, b: Balancer): nat {
    if Phase(c, b) < 0 then -Phase(c, b) else 0
  }

  /** `m * (probeNum + 1)` picks probe each of the `m` overloaded hosts exactly once. */
  lemma EachOverloadedProbedOnce(c: Config, b: Balancer, p: nat) returns (at: nat)
    requires Partition(b) && p < |b.over|
    ensures at < |b.over| * Period(c) + Delay(c, b)
    ensures forall i | 0 <= i < |b.over| * Period(c) + Delay(c, b) :: Nth(c, b, i) == Chosen(b.over[p]) <==> i == at
  {
    hide Div, Mod, Pick, After;
    var d, m := Period(c), |b.over|;
    at := p * d + c.probeNum - Phase(c, b);
    Times(p, m, d);
    forall i | 0 <= i < m * d + Delay(c, b) ensures Nth(c, b, i) == Chosen(b.over[p]) <==> i == at {
      Schedule(c, b, i);
      PicksOverloadedOnProbe(c, b, i);
      ProbeNumber(c, b, i, p);
      if ProbeTurn(c, b, i) {
        ProbesInRange(c, b, i);
        DivSmall(Probes(c, b, i), m);
      }
    }
  }

  lemma ProbesInRange(c: Config, b: Balancer, i: nat)
    requires i < |b.over| * Period(c) + Delay(c, b) && ProbeTurn(c, b, i)
    ensures Probes(c, b, i) < |b.over|
  {
    hide Div, Mod;
    var q, d := Probes(c, b, i), Period(c);
    ProbeNumber(c, b, i, q);
    if |b.over| < q {
      Times(|b.over|, q, d);
    }
  }

  /** How often the first `n` picks returned `key`. */
  function TimesPicked(c: Config, b: Balancer, key: nat, n: nat): nat
    requires b.idle != [] || b.over != []
  {
    if n == 0 then 0
    else TimesPicked(c, b, key, n - 1) + if Nth(c, b, n - 1) == Chosen(key) then 1 else 0
  }

  /** The share of the idle host at place `p` after `n` picks. */
  lemma {:induction false} IdleShare(c: Config, b: Balancer, p: nat, n: nat)
    requires Partition(b) && p < |b.idle|
    ensures Probes(c, b, n) <= n
    ensures TimesPicked(c, b, b.idle[p], n) == Div(n - Probes(c, b, n) + |b.idle| - 1 - p, |b.idle|)
  {
    hide Div, Mod, Pick, After, Clock, Probes;
    ProbesBelow(c, b, n);
    var l := |b.idle|;
    if n == 0 {
      ClockStart(c, b);
      DivSmall(l - 1 - p, l);
    } else {
      IdleShare(c, b, p, n - 1);
      Schedule(c, b, n - 1);
      ClockStep(c, b, n - 1);
      if ProbeTurn(c, b, n - 1) {
        PicksOverloadedOnProbe(c, b, n - 1);
        assert b.idle[p] in b.idle;
      } else {
        TurnOf(n - 1 - Probes(c, b, n - 1), l, p);
      }
    }
  }

  lemma TurnOf(t: nat, l: nat, p: nat)
    requires p < l
    ensures Div(t + 1 + l - 1 - p, l) == Div(t + l - 1 - p, l) + if Mod(t, l) == p then 1 else 0
  {
    hide Div, Mod;
    var x := t + l - 1 - p;
    var q, r := Div(t, l), Mod(t, l);
    DivStep(x, l);
    DivMod(t, l);
    if r <= p {
      DivUnique(x, l, q, r + l - 1 - p);
    } else {
      assert (q + 1) * l == q * l + l;
      DivUnique(x, l, q + 1, r - 1 - p);
    }
  }

  lemma CloseQuotients(x: nat, y: nat, l: nat)
    requires 0 < l && x < y + l
    ensures Div(x, l) <= Div(y, l) + 1
  {
    hide Div, Mod;
    DivMod(x, l);
    DivMod(y, l);
    if Div(x, l) >= Div(y, l) + 2 {
      Times(Div(y, l) + 1, Div(x, l), l);
    }
  }

  /** Picks are spread over the idle hosts to within one. */
  lemma IdleBalanced(c: Config, b: Balancer, p: nat, p': nat, n: nat)
    requires Partition(b) && p < |b.idle| && p' < |b.idle|
    ensures TimesPicked(c, b, b.idle[p], n) <= TimesPicked(c, b, b.idle[p'], n) + 1
  {
    hide Div, Mod;
    IdleShare(c, b, p, n);
    IdleShare(c, b, p', n);
    var l, t := |b.idle|, n - Probes(c, b, n);
    CloseQuotients(t + l - 1 - p, t + l - 1 - p', l);
  }
}
