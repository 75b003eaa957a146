/**
 Clients of the DNS service against the thread that polls the database, as interleaved steps: a
 request subscribes and then reads the visible table; a poll loads, selects and publishes.  Whoever
 has read an older table than a published change is told about the change.
 */
module Notices {
  import opened ChangeLog

  /** An answer to a client: the changes whose route data the table had when it was read. */
  datatype Answer = Answer(fd: nat, mod: nat, known: set<Change>)

  /** `told` are the pairs of clients and changes that publications have put on the push list; what
      becomes of them there is the subject of `PubSub`. */
  datatype State = State(log: ChangeLog.State, book: set<(nat, nat)>, answers: set<Answer>, told: set<(nat, Change)>)

  datatype Event =
    | Poll(e: ChangeLog.Event)
    | Subscribe(fd: nat, mod: nat)
    | Read(fd: nat, mod: nat)
    | Close(fd: nat)

  /** The publication of `rows` to the subscribers of their modules. */
  ghost function Told(book: set<(nat, nat)>, rows: set<Change>): set<(nat, Change)> {
    set p <- book, c <- rows | c.mod == p.1 :: (p.0, c)
  }

  /** A request reads only what it has subscribed to; a closed client leaves nothing behind. */
  ghost function Step(s: State, e: Event): State {
    match e
    case Poll(p) =>
      s.(log := ChangeLog.Step(s.log, p),
         told := if p.Publish? && s.log.phase.Selected? then s.told + Told(s.book, s.log.phase.rows) else s.told)
    case Subscribe(fd, mod) => s.(book := s.book + {(fd, mod)})
    case Read(fd, mod) =>
      if (fd, mod) !in s.book then s else s.(answers := s.answers + {Answer(fd, mod, s.log.loaded)})
    case Close(fd) =>
      s.(book := (set p <- s.book | p.0 != fd),
         answers := (set a <- s.answers | a.fd != fd),
         told := (set t <- s.told | t.0 != fd))
  }

  ghost function Run(s: State, es: seq<Event>): State
    decreases |es|
  {
    if es == [] then s else Run(Step(s, es[0]), es[1..])
  }

  /** Every answer has the data of every published change of its module, or its client has been told. */
  ghost predicate Informed(s: State) {
    forall a <- s.answers, c <- s.log.published | c.mod == a.mod :: c in a.known || (a.fd, c) in s.told
  }

  /** Whatever is published is in the visible table. */
  ghost predicate Current(s: State) {
    s.log.published <= s.log.loaded
  }

  ghost predicate Inv(s: State) {
    && s.log.loaded <= s.log.inserted
    && (forall a <- s.answers :: (a.fd, a.mod) in s.book)
    && Informed(s)
  }

  lemma StepInforms(s: State, e: Event)
    requires Inv(s) && Current(s)
    ensures Inv(Step(s, e))
  {
    var s' := Step(s, e);
    forall a <- s'.answers, c <- s'.log.published | c.mod == a.mod ensures c in a.known || (a.fd, c) in s'.told {
      if a in s.answers && c !in s.log.published {
        assert ((a.fd, a.mod) in s.book);
      }
    }
  }

  ghost predicate AlwaysCurrent(s: State, es: seq<Event>)
    decreases |es|
  {
    Current(s) && (es != [] ==> AlwaysCurrent(Step(s, es[0]), es[1..]))
  }

  /** In every interleaving in which publications are up to date, everybody is informed in every state:
      a client whose answer predates the load of a published change has been told about it. */
  lemma {:induction false} EveryRunInforms(s: State, es: seq<Event>)
    requires Inv(s) && AlwaysCurrent(s, es)
    ensures Inv(Run(s, es))
    decreases |es|
  {
    if es != [] {
      StepInforms(s, es[0]);
      EveryRunInforms(Step(s, es[0]), es[1..]);
    }
  }

  /** The changes polled by the events of a run. */
  function PollsIn(es: seq<Event>): seq<ChangeLog.Event> {
    if es == [] then [] else (if es[0].Poll? then [es[0].e] else []) + PollsIn(es[1..])
  }

  /** Clients do not disturb the log: it goes the way of its own run. */
  lemma {:induction false} LogRuns(s: State, es: seq<Event>)
    ensures Run(s, es).log == ChangeLog.Run(s.log, PollsIn(es))
    decreases |es|
  {
    hide ChangeLog.Step;
    if es != [] {
      LogRuns(Step(s, es[0]), es[1..]);
      if es[0].Poll? {
        assert ([es[0].e] + PollsIn(es[1..]))[1..] == PollsIn(es[1..]);
      } else {
        assert [] + PollsIn(es[1..]) == PollsIn(es[1..]);
      }
    }
  }

  /** A publication tells exactly the subscribers of each module selected, and nothing else tells
      anybody; a closed client leaves nothing behind. */
  lemma TellsSubscribers(s: State, e: Event, fd: nat, c: Change)
    ensures !e.Close? ==>
      ((fd, c) in Step(s, e).told <==>
         || (fd, c) in s.told
         || (e == Poll(Publish) && s.log.phase.Selected? && c in s.log.phase.rows && (fd, c.mod) in s.book))
    ensures var s' := Step(s, Close(fd));
      (fd, c) !in s'.told && (fd, c.mod) !in s'.book && forall a <- s'.answers :: a.fd != fd
  {
    if e == Poll(Publish) && s.log.phase.Selected? && c in s.log.phase.rows && (fd, c.mod) in s.book {
      assert (fd, c.mod) in s.book && (fd, c.mod).1 == c.mod;
    }
  }

  /** One client that asks for a module. */
  function Asks(fd: nat, mod: nat): seq<Event> {
    [Subscribe(fd, mod), Read(fd, mod)]
  }

  lemma RunAsks(s: State, fd: nat, mod: nat)
    ensures Run(s, Asks(fd, mod)) == Step(Step(s, Subscribe(fd, mod)), Read(fd, mod))
  {
    var es := Asks(fd, mod);
    var s1 := Step(s, es[0]);
    assert es[1..] == [es[1]] && es[1..][1..] == [];
    assert Run(Step(s1, es[1]), []) == Step(s1, es[1]);
  }

  /** Up-to-date publications are exactly what this takes: a client not told of anything yet is informed
      after it asks, whatever it asks for, if and only if all that has been published is in the table. */
  lemma CurrentIsExact(s: State, fd: nat)
    requires Inv(s) && forall t <- s.told :: t.0 != fd
    ensures Current(s) <==> forall mod: nat :: Informed(Run(s, Asks(fd, mod)))
  {
    forall mod: nat ensures Current(s) ==> Informed(Run(s, Asks(fd, mod))) {
      RunAsks(s, fd, mod);
      if Current(s) {
        StepInforms(s, Subscribe(fd, mod));
        StepInforms(Step(s, Subscribe(fd, mod)), Read(fd, mod));
      }
    }
    if !Current(s) {
      var c :| c in s.log.published && c !in s.log.loaded;
      RunAsks(s, fd, c.mod);
      var s' := Run(s, Asks(fd, c.mod));
      assert Answer(fd, c.mod, s.log.loaded) in s'.answers && (fd, c) !in s'.told;
      assert !Informed(s');
    }
  }
}
