/**
 Publication of route changes to subscribed clients, as interleaved steps of the event loops
 and of the thread that watches the database.  One step is one critical section, or a part of
 a loop's work that no other thread can see the middle of.

 Every client lives on one loop, its home, and a descriptor is used by one connection only.
 */
module PubSub {
  import opened Seqs
  import opened Subscriptions

  /** A client's own list of modules; while the close hook runs, the part not yet unsubscribed. */
  datatype Session = Live(mods: set<nat>) | Closing(todo: set<nat>)

  /** The publisher is at rest, or has still to send the push task to loops `next` and up. */
  datatype Publisher = Resting | Sending(next: nat)

  /** One `make_publish_map` of a loop. */
  datatype Take = Take(loop: nat, pairs: set<(nat, nat)>)

  datatype Server = Server(
    book: Book,
    pending: set<(nat, nat)>,
    sessions: map<nat, Session>,
    used: set<nat>,
    publisher: Publisher,
    queued: seq<nat>,
    ready: seq<nat>,
    added: multiset<(nat, nat)>,
    takes: seq<Take>)

  datatype Event =
    | Connect(fd: nat)
    | Request(fd: nat, mod: nat)
    | CloseBegin(fd: nat)
    | CloseOne(fd: nat, mod: nat)
    | CloseEnd(fd: nat)
    | Publish(mods: seq<nat>)
    | SendNext
    | Drain(loop: nat)
    | RunPush(loop: nat)

  /** `home` gives the loop of every descriptor; there are `n` loops. */
  datatype Layout = Layout(n: nat, home: nat -> nat)

  ghost predicate Sound(y: Layout) {
    0 < y.n && forall fd: nat :: y.home(fd) < y.n
  }

  function Start(y: Layout): Server {
    Server(map[], {}, map[], {}, Resting, seq(y.n, _ => 0), seq(y.n, _ => 0), multiset{}, [])
  }

  ghost function Online(y: Layout, s: Server, loop: nat): set<nat> {
    set fd <- s.sessions | y.home(fd) == loop
  }

  ghost function PairsOf(pending: set<(nat, nat)>, fds: set<nat>): set<(nat, nat)> {
    set p <- pending | p.0 in fds
  }

  /** Events that are not enabled change nothing. */
  ghost function Step(y: Layout, s: Server, e: Event): Server {
    match e
    case Connect(fd) =>
      if fd in s.used then s
      else s.(sessions := s.sessions[fd := Live({})], used := s.used + {fd})
    case Request(fd, mod) =>
      if fd !in s.sessions || !s.sessions[fd].Live? || mod in s.sessions[fd].mods then s
      else s.(sessions := s.sessions[fd := Live(s.sessions[fd].mods + {mod})],
              book := Subscribed(s.book, mod, fd))
    case CloseBegin(fd) =>
      if fd !in s.sessions || !s.sessions[fd].Live? then s
      else s.(sessions := s.sessions[fd := Closing(s.sessions[fd].mods)])
    case CloseOne(fd, mod) =>
      if fd !in s.sessions || !s.sessions[fd].Closing? || mod !in s.sessions[fd].todo then s
      else s.(sessions := s.sessions[fd := Closing(s.sessions[fd].todo - {mod})],
              book := Unsubscribed(s.book, mod, fd))
    case CloseEnd(fd) =>
      if fd !in s.sessions || s.sessions[fd] != Closing({}) then s
      else s.(sessions := s.sessions - {fd})
    case Publish(mods) =>
      if !s.publisher.Resting? then s
      else
        var pending := s.pending + Concerned(s.book, mods);
        s.(pending := pending, publisher := Sending(0), added := s.added + multiset(pending - s.pending))
    case SendNext =>
      if !s.publisher.Sending? || s.publisher.next >= |s.queued| then s
      else
        var i := s.publisher.next;
        s.(queued := s.queued[i := s.queued[i] + 1],
           publisher := if i + 1 < |s.queued| then Sending(i + 1) else Resting)
    case Drain(l) =>
      if l >= |s.queued| || l >= |s.ready| then s
      else s.(queued := s.queued[l := 0], ready := s.ready[l := s.ready[l] + s.queued[l]])
    case RunPush(l) =>
      if l >= |s.ready| || s.ready[l] == 0 then s
      else
        var taken := PairsOf(s.pending, Online(y, s, l));
        s.(ready := s.ready[l := s.ready[l] - 1], pending := s.pending - taken, takes := s.takes + [Take(l, taken)])
  }

  ghost function Run(y: Layout, s: Server, es: seq<Event>): Server
    decreases |es|
  {
    if es == [] then s else Run(y, Step(y, s, es[0]), es[1..])
  }

  // ----- Subscription duality -----

  ghost predicate Subscribes(s: Server, fd: nat, mod: nat) {
    fd in s.sessions && mod in (if s.sessions[fd].Live? then s.sessions[fd].mods else s.sessions[fd].todo)
  }

  ghost predicate Duality(s: Server) {
    && NoEmpty(s.book)
    && forall fd: nat, mod: nat :: fd in At(s.book, mod) <==> Subscribes(s, fd, mod)
  }

  lemma StepKeepsDuality(y: Layout, s: Server, e: Event)
    requires Duality(s) && s.sessions.Keys <= s.used
    ensures Duality(Step(y, s, e))
  {
    var s' := Step(y, s, e);
    forall fd: nat, mod: nat ensures fd in At(s'.book, mod) <==> Subscribes(s', fd, mod) {
      assert fd in At(s.book, mod) <==> Subscribes(s, fd, mod);
    }
  }

  // ----- Exactly-once push -----

  ghost function TakenPairs(takes: seq<Take>): multiset<(nat, nat)> {
    if takes == [] then multiset{}
    else TakenPairs(takes[..|takes| - 1]) + multiset(takes[|takes| - 1].pairs)
  }

  /** Every pair ever added is pending or was taken, as often as it was added; and it was taken
      by the home loop of its client. */
  ghost predicate Conserved(y: Layout, s: Server) {
    && s.added == TakenPairs(s.takes) + multiset(s.pending)
    && forall t <- s.takes, p <- t.pairs :: y.home(p.0) == t.loop
  }

  /** The push task has still to be sent to loop `l`, or waits there. */
  predicate TaskComing(s: Server, l: nat)
    requires l < |s.queued| == |s.ready|
  {
    || (s.publisher.Sending? && s.publisher.next <= l)
    || s.queued[l] > 0 || s.ready[l] > 0
  }

  /** A pending pair of an online client has a push task coming on the client's loop. */
  ghost predicate Woken(y: Layout, s: Server)
    requires |s.queued| == |s.ready| == y.n && Sound(y)
  {
    forall p <- s.pending | p.0 in s.sessions :: TaskComing(s, y.home(p.0))
  }

  ghost predicate Inv(y: Layout, s: Server)
    requires Sound(y)
  {
    && |s.queued| == |s.ready| == y.n
    && UsedOnly(s) && Duality(s) && Conserved(y, s) && Woken(y, s)
  }

  lemma SplitSet(whole: set<(nat, nat)>, part: set<(nat, nat)>)
    requires part <= whole
    ensures multiset(whole) == multiset(whole - part) + multiset(part)
  {
    assert whole == (whole - part) + part;
  }

  lemma TakenAppend(takes: seq<Take>, t: Take)
    ensures TakenPairs(takes + [t]) == TakenPairs(takes) + multiset(t.pairs)
  {
    assert (takes + [t])[..|takes|] == takes;
  }

  lemma StepKeepsConserved(y: Layout, s: Server, e: Event)
    requires Conserved(y, s)
    ensures Conserved(y, Step(y, s, e))
  {
    hide Concerned, Subscribed, Unsubscribed, TakenPairs;
    if e.Publish? && s.publisher.Resting? {
      SplitSet(s.pending + Concerned(s.book, e.mods), s.pending);
    } else if e.RunPush? {
      var taken := PairsOf(s.pending, Online(y, s, e.loop));
      SplitSet(s.pending, taken);
      TakenAppend(s.takes, Take(e.loop, taken));
    }
  }

  /** Nothing pends for a descriptor that was never used. */
  ghost predicate UsedOnly(s: Server) {
    s.sessions.Keys <= s.used && forall p <- s.pending :: p.0 in s.used
  }

  lemma StepKeepsUsed(y: Layout, s: Server, e: Event)
    requires UsedOnly(s) && Duality(s)
    ensures UsedOnly(Step(y, s, e))
  {
    var s' := Step(y, s, e);
    forall p <- s'.pending ensures p.0 in s'.used {
      if p !in s.pending {
        assert p.0 in At(s.book, p.1) && Subscribes(s, p.0, p.1);
      }
    }
  }

  lemma StepKeepsWoken(y: Layout, s: Server, e: Event)
    requires Sound(y) && |s.queued| == |s.ready| == y.n && UsedOnly(s) && Woken(y, s)
    ensures var s' := Step(y, s, e);
      |s'.queued| == |s'.ready| == y.n && Woken(y, s')
  {
    hide Concerned, Subscribed, Unsubscribed;
    var s' := Step(y, s, e);
    forall p <- s'.pending | p.0 in s'.sessions ensures TaskComing(s', y.home(p.0)) {
      if p in s.pending && p.0 in s.sessions {
        assert TaskComing(s, y.home(p.0));
      }
    }
  }

  /** In every state of every run: the book and the clients' own lists agree, no entry of the
      book is empty, pushes are conserved, and no pending push of an online client is asleep. */
  lemma {:induction false} EveryRunPushesOnce(y: Layout, s: Server, es: seq<Event>)
    requires Sound(y) && Inv(y, s)
    ensures Inv(y, Run(y, s, es))
    decreases |es|
  {
    if es != [] {
      StepKeepsDuality(y, s, es[0]);
      StepKeepsConserved(y, s, es[0]);
      StepKeepsUsed(y, s, es[0]);
      StepKeepsWoken(y, s, es[0]);
      EveryRunPushesOnce(y, Step(y, s, es[0]), es[1..]);
    }
  }

  lemma StartInv(y: Layout)
    requires Sound(y)
    ensures Inv(y, Start(y))
  {
  }

  // ----- What each step brings about -----

  /** A publication makes exactly the pairs of changed modules and of the clients that subscribe to them
      pending, and leaves those that were. */
  lemma PublishAdds(y: Layout, s: Server, mods: seq<nat>, fd: nat, mod: nat)
    requires Duality(s) && s.publisher.Resting?
    ensures var s' := Step(y, s, Publish(mods));
      && ((fd, mod) in s'.pending <==> (fd, mod) in s.pending || (mod in mods && Subscribes(s, fd, mod)))
      && s'.publisher == Sending(0) && s'.takes == s.takes
  {
    assert fd in At(s.book, mod) <==> Subscribes(s, fd, mod);
  }

  /** A run of the push task takes exactly the pending pairs of the clients online on its loop. */
  lemma PushTakes(y: Layout, s: Server, l: nat, p: (nat, nat))
    requires l < |s.ready| && s.ready[l] > 0
    ensures var s' := Step(y, s, RunPush(l));
      && (p in s'.pending <==> p in s.pending && !(p.0 in s.sessions && y.home(p.0) == l))
      && |s'.takes| == |s.takes| + 1
      && (p in s'.takes[|s.takes|].pairs <==> p in s.pending && p.0 in s.sessions && y.home(p.0) == l)
  {
  }

  /** A new client subscribes to nothing; a request subscribes to its module and changes nothing else. */
  lemma RequestSubscribes(y: Layout, s: Server, fd: nat, mod: nat)
    ensures fd !in s.used ==> Step(y, s, Connect(fd)).sessions == s.sessions[fd := Live({})]
    ensures fd in s.sessions && s.sessions[fd].Live? ==>
      var s' := Step(y, s, Request(fd, mod));
      forall f: nat, m: nat :: Subscribes(s', f, m) <==> Subscribes(s, f, m) || (f, m) == (fd, mod)
  {
  }

  /** The close hook of a client with these modules still on its list. */
  function Closes(fd: nat, mods: seq<nat>): seq<Event> {
    if mods == [] then [CloseEnd(fd)] else [CloseOne(fd, mods[0])] + Closes(fd, mods[1..])
  }

  lemma {:induction false} ClosesToTheEnd(y: Layout, s: Server, fd: nat, mods: seq<nat>)
    requires fd in s.sessions && s.sessions[fd] == Closing(Elems(mods)) && NoDup(mods)
    ensures Run(y, s, Closes(fd, mods)).sessions == s.sessions - {fd}
    decreases |mods|
  {
    hide Unsubscribed;
    var es := Closes(fd, mods);
    if mods == [] {
      assert es[1..] == [] && Run(y, Step(y, s, CloseEnd(fd)), []) == Step(y, s, CloseEnd(fd));
    } else {
      var s' := Step(y, s, es[0]);
      assert Elems(mods) - {mods[0]} == Elems(mods[1..]);
      ClosesToTheEnd(y, s', fd, mods[1..]);
      assert es[1..] == Closes(fd, mods[1..]);
      assert s'.sessions - {fd} == s.sessions - {fd};
    }
  }

  /** A close can always be carried to its end, in any order of the client's modules, and then no entry
      of the book mentions the client. */
  lemma CloseCompletes(y: Layout, s: Server, fd: nat, mods: seq<nat>)
    requires Sound(y) && Inv(y, s) && fd in s.sessions && s.sessions[fd] == Live(Elems(mods)) && NoDup(mods)
    ensures var s' := Run(y, Step(y, s, CloseBegin(fd)), Closes(fd, mods));
      s'.sessions == s.sessions - {fd} && forall mod: nat :: fd !in At(s'.book, mod)
  {
    var s1 := Step(y, s, CloseBegin(fd));
    ClosesToTheEnd(y, s1, fd, mods);
    assert s1.sessions - {fd} == s.sessions - {fd};
    assert Run(y, s, [CloseBegin(fd)]) == s1 by {
      assert [CloseBegin(fd)][1..] == [] && Run(y, s1, []) == s1;
    }
    EveryRunPushesOnce(y, s, [CloseBegin(fd)]);
    EveryRunPushesOnce(y, s1, Closes(fd, mods));
    var s' := Run(y, s1, Closes(fd, mods));
    forall mod: nat ensures fd !in At(s'.book, mod) {
      assert fd in At(s'.book, mod) <==> Subscribes(s', fd, mod);
    }
  }

  /** The publisher comes to rest after one step for each loop, and each loop then has the task. */
  lemma {:induction false} PublisherRests(y: Layout, s: Server, left: nat)
    requires s.publisher.Sending? && s.publisher.next < |s.queued| && left == |s.queued| - s.publisher.next
    ensures var s' := Run(y, s, seq(left, _ => SendNext));
      && s'.publisher.Resting? && |s'.queued| == |s.queued|
      && forall l | 0 <= l < |s.queued| :: s'.queued[l] == s.queued[l] + if l < s.publisher.next then 0 else 1
    decreases left
  {
    var es := seq(left, _ => SendNext);
    var s1 := Step(y, s, SendNext);
    assert es[1..] == seq(left - 1, _ => SendNext);
    if left == 1 {
      assert Run(y, s1, []) == s1;
    } else {
      PublisherRests(y, s1, left - 1);
    }
  }

  lemma {:induction false} AddedGrows(y: Layout, s: Server, es: seq<Event>)
    ensures s.added <= Run(y, s, es).added
    decreases |es|
  {
    if es != [] {
      assert s.added <= Step(y, s, es[0]).added;
      AddedGrows(y, Step(y, s, es[0]), es[1..]);
    }
  }

  /** The law of publication: whoever subscribes to a published module when it is published, and is still
      online when publisher and loops have nothing left to do, has been pushed the module since. */
  lemma PublishedIsPushed(y: Layout, s: Server, mods: seq<nat>, es: seq<Event>, fd: nat, mod: nat)
    requires Sound(y) && Inv(y, s) && s.publisher.Resting? && mod in mods && Subscribes(s, fd, mod)
    requires var s' := Run(y, Step(y, s, Publish(mods)), es);
      && s'.publisher.Resting? && fd in s'.sessions && |s'.queued| == |s'.ready|
      && forall l | 0 <= l < |s'.queued| :: s'.queued[l] == 0 && s'.ready[l] == 0
    ensures var s' := Run(y, Step(y, s, Publish(mods)), es);
      TakenPairs(s'.takes)[(fd, mod)] > TakenPairs(s.takes)[(fd, mod)]
  {
    hide TakenPairs;
    var s1 := Step(y, s, Publish(mods));
    var s' := Run(y, s1, es);
    PublishAdds(y, s, mods, fd, mod);
    assert Run(y, s, [Publish(mods)]) == s1 by {
      assert [Publish(mods)][1..] == [] && Run(y, s1, []) == s1;
    }
    EveryRunPushesOnce(y, s, [Publish(mods)]);
    EveryRunPushesOnce(y, s1, es);
    NothingLeftBehind(y, s');
    AddedGrows(y, s1, es);
    assert s1.added[(fd, mod)] == TakenPairs(s1.takes)[(fd, mod)] + 1;
  }

  /** Once the publisher rests and the loops are idle, only clients that have gone are left
      with pending pushes. */
  lemma NothingLeftBehind(y: Layout, s: Server)
    requires Sound(y) && Inv(y, s) && s.publisher.Resting?
    requires forall l | 0 <= l < y.n :: s.queued[l] == 0 && s.ready[l] == 0
    ensures forall p <- s.pending :: p.0 !in s.sessions
    ensures forall fd <- s.sessions, mod: nat :: s.added[(fd, mod)] == TakenPairs(s.takes)[(fd, mod)]
  {
  }

  /** When the publisher rests, draining and running the home loop once delivers a pending push
      of an online client. */
  lemma PushDelivers(y: Layout, s: Server, p: (nat, nat))
    requires Sound(y) && Inv(y, s) && s.publisher.Resting? && p in s.pending && p.0 in s.sessions
    ensures var l := y.home(p.0);
      var s' := Step(y, Step(y, s, Drain(l)), RunPush(l));
      && p !in s'.pending && |s'.takes| == |s.takes| + 1
      && s'.takes[|s.takes|].loop == l && p in s'.takes[|s.takes|].pairs
  {
    assert TaskComing(s, y.home(p.0));
  }

  /** After a connection is closed no entry of the book mentions it. */
  lemma ClosedLeavesNoTrace(y: Layout, s: Server, fd: nat)
    requires Sound(y) && Inv(y, s) && fd in s.sessions && s.sessions[fd] == Closing({})
    ensures var s' := Step(y, s, CloseEnd(fd));
      fd !in s'.sessions && forall mod <- s'.book :: fd !in s'.book[mod]
  {
    StepKeepsDuality(y, s, CloseEnd(fd));
    var s' := Step(y, s, CloseEnd(fd));
    forall mod <- s'.book ensures fd !in s'.book[mod] {
      assert fd in At(s'.book, mod) <==> Subscribes(s', fd, mod);
    }
  }
}
