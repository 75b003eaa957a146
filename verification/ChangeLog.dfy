/**
 The log of changed modules: rows are inserted by others at any time, and every poll that sees
 a new version loads the route data, selects the rows up to that version, publishes them and
 deletes them, whether or not the load succeeded.
 */
module ChangeLog {
  import opened Seqs

  datatype Change = Change(id: nat, mod: nat, version: int)

  function UpTo(rows: set<Change>, version: int): set<Change> {
    set c <- rows | c.version <= version
  }

  // ----- One poll -----

  /** The rows a poll loses: deleted, but not among those it selected for publication.
      `late` are rows inserted between the selection and the deletion. */
  function LostInPoll(rows: set<Change>, late: set<Change>, version: int, selectOk: bool, deleteOk: bool): set<Change> {
    var selected := if selectOk then UpTo(rows, version) else {};
    var deleted := if deleteOk then UpTo(rows + late, version) else {};
    deleted - selected
  }

  /** A poll loses nothing exactly when its deletion fails, or its selection did not fail on
      rows to select and every late row carries a newer version. */
  lemma PollLosesNothing(rows: set<Change>, late: set<Change>, version: int, selectOk: bool, deleteOk: bool)
    requires rows !! late
    ensures LostInPoll(rows, late, version, selectOk, deleteOk) == {} <==>
      || !deleteOk
      || ((selectOk || forall c <- rows :: c.version > version) && forall c <- late :: c.version > version)
  {
    var lost := LostInPoll(rows, late, version, selectOk, deleteOk);
    forall c ensures c in lost <==> deleteOk && c.version <= version && (c in late || (c in rows && !selectOk)) {
    }
  }

  // ----- Every run -----

  /** Where the polling thread is: between polls, or inside one after it read a new version. */
  datatype Phase = AtRest | Versioned | Reloaded | Selected(rows: set<Change>) | Pushed

  /** `inserted` and `published` are histories since the purge at start-up; `loaded` are the changes
      whose route data the visible table has, which are those made before its load began. */
  datatype State = State(
    rows: set<Change>, version: int, phase: Phase,
    inserted: set<Change>, published: set<Change>, loaded: set<Change>)

  datatype Event =
    | Insert(c: Change)
    | NoNewVersion
    | NewVersion(v: int)
    | Load(ok: bool)
    | Select(ok: bool)
    | Publish
    | Delete(ok: bool)

  function Step(s: State, e: Event): State {
    match e
    case Insert(c) => if c in s.inserted then s else s.(rows := s.rows + {c}, inserted := s.inserted + {c})
    case NoNewVersion => s
    case NewVersion(v) => if s.phase.AtRest? && v != s.version then s.(version := v, phase := Versioned) else s
    case Load(ok) =>
      // inside a poll, or by itself when no new version has been seen for a while
      if !s.phase.AtRest? && !s.phase.Versioned? then s
      else s.(loaded := if ok then s.inserted else s.loaded,
              phase := if s.phase.Versioned? then Reloaded else s.phase)
    case Select(ok) =>
      if s.phase.Reloaded? then s.(phase := Selected(if ok then UpTo(s.rows, s.version) else {})) else s
    case Publish =>
      if s.phase.Selected? then s.(published := s.published + s.phase.rows, phase := Pushed) else s
    case Delete(ok) =>
      if s.phase.Pushed? then s.(rows := if ok then s.rows - UpTo(s.rows, s.version) else s.rows, phase := AtRest) else s
  }

  function Run(s: State, es: seq<Event>): State
    decreases |es|
  {
    if es == [] then s else Run(Step(s, es[0]), es[1..])
  }

  /** What is asked of the database: a row inserted after a selection and before the deletion
      carries a newer version, and selections succeed unless there is nothing to select. */
  ghost predicate Fair(s: State, e: Event) {
    match e
    case Insert(c) => s.phase.Selected? || s.phase.Pushed? ==> c.version > s.version
    case Select(ok) => s.phase.Reloaded? ==> ok || UpTo(s.rows, s.version) == {}
    case _ => true
  }

  ghost predicate FairRun(s: State, es: seq<Event>)
    decreases |es|
  {
    es != [] ==> Fair(s, es[0]) && FairRun(Step(s, es[0]), es[1..])
  }

  ghost predicate Inv(s: State) {
    && s.rows <= s.inserted && s.published <= s.inserted && s.loaded <= s.inserted
    && s.inserted <= s.rows + s.published
    && (s.phase.Selected? ==> s.phase.rows == UpTo(s.rows, s.version))
    && (s.phase.Pushed? ==> UpTo(s.rows, s.version) <= s.published)
  }

  /** No change is lost: in every fair run every row ever inserted is still in the table or has
      been handed to publication, at every step and so at every poll boundary. */
  lemma {:induction false} NoChangeLost(s: State, es: seq<Event>)
    requires Inv(s) && FairRun(s, es)
    ensures Inv(Run(s, es))
    decreases |es|
  {
    if es != [] {
      NoChangeLost(Step(s, es[0]), es[1..]);
    }
  }

  /** A poll whose queries succeed publishes and deletes exactly the rows up to the version read. */
  lemma PollClears(s: State, v: int, loadOk: bool)
    requires Inv(s) && s.phase.AtRest? && v != s.version
    ensures var s' := Run(s, [NewVersion(v), Load(loadOk), Select(true)] + [Publish, Delete(true)]);
      && s'.phase.AtRest? && s'.version == v
      && s'.published == s.published + UpTo(s.rows, v)
      && s'.rows == set c <- s.rows | c.version > v
  {
    ThreeSteps(s, NewVersion(v), Load(loadOk), Select(true));
    var s3 := Step(Step(Step(s, NewVersion(v)), Load(loadOk)), Select(true));
    TwoSteps(s3, Publish, Delete(true));
    RunAppend(s, [NewVersion(v), Load(loadOk), Select(true)], [Publish, Delete(true)]);
  }

  /** Rows neither in the table any more nor ever published. */
  function Lost(s: State): set<Change> {
    s.inserted - (s.rows + s.published)
  }

  function Inserts(late: seq<Change>): seq<Event> {
    seq(|late|, i requires 0 <= i < |late| => Insert(late[i]))
  }

  lemma {:induction false} RunAppend(s: State, es: seq<Event>, es': seq<Event>)
    ensures Run(s, es + es') == Run(Run(s, es), es')
    decreases |es|
  {
    if es == [] {
      assert es + es' == es';
    } else {
      assert (es + es')[1..] == es[1..] + es';
      RunAppend(Step(s, es[0]), es[1..], es');
    }
  }

  lemma {:induction false} RunInserts(s: State, late: seq<Change>)
    ensures Run(s, Inserts(late)) ==
      s.(rows := s.rows + (Elems(late) - s.inserted), inserted := s.inserted + Elems(late))
    decreases |late|
  {
    if late != [] {
      assert Inserts(late)[1..] == Inserts(late[1..]);
      RunInserts(Step(s, Insert(late[0])), late[1..]);
      assert Elems(late) == {late[0]} + Elems(late[1..]);
    }
  }

  /** Rows `late` inserted after the event. */
  function Then(e: Event, late: seq<Change>): seq<Event> {
    [e] + Inserts(late)
  }

  lemma RunThen(s: State, e: Event, late: seq<Change>)
    ensures var s' := Step(s, e);
      Run(s, Then(e, late)) ==
        s'.(rows := s'.rows + (Elems(late) - s'.inserted), inserted := s'.inserted + Elems(late))
  {
    assert Then(e, late)[1..] == Inserts(late);
    RunInserts(Step(s, e), late);
  }

  /** A poll up to its selection, with rows inserted after each of its steps. */
  function ToSelection(v: int, a: seq<Change>, loadOk: bool, b: seq<Change>, selectOk: bool): seq<Event> {
    Then(NewVersion(v), a) + Then(Load(loadOk), b) + [Select(selectOk)]
  }

  function FromSelection(c: seq<Change>, d: seq<Change>, deleteOk: bool): seq<Event> {
    Inserts(c) + Then(Publish, d) + [Delete(deleteOk)]
  }

  lemma RunToSelection(s: State, v: int, a: seq<Change>, loadOk: bool, b: seq<Change>, selectOk: bool)
    requires s.phase.AtRest? && v != s.version
    ensures var s' := Run(s, ToSelection(v, a, loadOk, b, selectOk));
      && s'.rows == s.rows + (Elems(a) + Elems(b) - s.inserted)
      && s'.inserted == s.inserted + Elems(a) + Elems(b)
      && s'.published == s.published && s'.version == v
      && s'.loaded == (if loadOk then s.inserted + Elems(a) else s.loaded)
      && s'.phase == Selected(if selectOk then UpTo(s'.rows, v) else {})
  {
    hide Run, Then, UpTo, Elems;
    var first, second := Then(NewVersion(v), a), Then(Load(loadOk), b);
    RunAppend(s, first + second, [Select(selectOk)]);
    RunAppend(s, first, second);
    RunThen(s, NewVersion(v), a);
    RunThen(Run(s, first), Load(loadOk), b);
    OneStep(Run(s, first + second), Select(selectOk));
  }

  lemma RunFromSelection(s: State, c: seq<Change>, d: seq<Change>, deleteOk: bool)
    requires s.phase.Selected?
    ensures var s', late := Run(s, FromSelection(c, d, deleteOk)), Elems(c) + Elems(d) - s.inserted;
      && s'.inserted == s.inserted + Elems(c) + Elems(d)
      && s'.published == s.published + s.phase.rows
      && s'.rows == (s.rows + late) - if deleteOk then UpTo(s.rows + late, s.version) else {}
  {
    hide Run, Then, Inserts, UpTo, Elems;
    var first, second := Inserts(c), Then(Publish, d);
    RunAppend(s, first + second, [Delete(deleteOk)]);
    RunAppend(s, first, second);
    RunInserts(s, c);
    RunThen(Run(s, first), Publish, d);
    var s2 := Run(s, first + second);
    assert s2.rows == s.rows + (Elems(c) + Elems(d) - s.inserted);
    OneStep(s2, Delete(deleteOk));
  }

  /** A whole poll, with rows `a`, `b`, `c` and `d` inserted after its steps: what is lost after it is
      what `LostInPoll` says of the rows present at its selection and of the later ones, apart from
      rows an earlier poll published and failed to delete. */
  lemma PollLoses(
      s: State, v: int, a: seq<Change>, loadOk: bool, b: seq<Change>, selectOk: bool,
      c: seq<Change>, d: seq<Change>, deleteOk: bool)
    requires Inv(s) && s.phase.AtRest? && v != s.version
    ensures var known := s.inserted + Elems(a) + Elems(b);
      Lost(Run(s, ToSelection(v, a, loadOk, b, selectOk) + FromSelection(c, d, deleteOk))) ==
        LostInPoll(s.rows + (known - s.inserted), Elems(c) + Elems(d) - known, v, selectOk, deleteOk) - s.published
  {
    var first, last := ToSelection(v, a, loadOk, b, selectOk), FromSelection(c, d, deleteOk);
    hide ToSelection, FromSelection;
    RunAppend(s, first, last);
    RunToSelection(s, v, a, loadOk, b, selectOk);
    RunFromSelection(Run(s, first), c, d, deleteOk);
    var known := s.inserted + Elems(a) + Elems(b);
    assert known - s.inserted == Elems(a) + Elems(b) - s.inserted;
  }

  lemma OneStep(s: State, e: Event)
    ensures Run(s, [e]) == Step(s, e)
  {
    assert [e][1..] == [];
  }

  lemma TwoSteps(s: State, e: Event, e': Event)
    ensures Run(s, [e, e']) == Step(Step(s, e), e')
  {
    assert [e, e'][1..] == [e'] && [e'][1..] == [];
    assert Run(Step(s, e), [e']) == Step(Step(s, e), e');
  }

  lemma ThreeSteps(s: State, e: Event, e': Event, e'': Event)
    ensures Run(s, [e, e', e'']) == Step(Step(Step(s, e), e'), e'')
  {
    assert [e, e', e''][1..] == [e', e''];
    TwoSteps(Step(s, e), e', e'');
  }

  // ----- What a push carries -----

  /** Inside a poll, with rows `a` inserted before its load and `b` between its load and its selection:
      the visible table has the data of every row selected for publication exactly when the load
      succeeded, or had nothing to bring for the rows of that version, and the rows of `b` are newer.
      Loads only add changes, so a push made later carries at least this table. */
  lemma PushIsCurrent(s: State, v: int, a: seq<Change>, loadOk: bool, b: seq<Change>)
    requires Inv(s) && s.phase.AtRest? && v != s.version
    ensures var s' := Run(s, ToSelection(v, a, loadOk, b, true));
      && s'.phase == Selected(UpTo(s'.rows, v))
      && (s'.phase.rows <= s'.loaded <==>
            && (loadOk || UpTo(s.rows + (Elems(a) - s.inserted), v) <= s.loaded)
            && forall c <- b | c !in s.inserted && c !in a :: c.version > v)
  {
    hide ToSelection, Run;
    RunToSelection(s, v, a, loadOk, b, true);
    var s' := Run(s, ToSelection(v, a, loadOk, b, true));
    forall c ensures c in s'.phase.rows <==> c.version <= v && (c in s.rows || (c !in s.inserted && (c in a || c in b))) {
    }
  }

  /** A load that succeeds, inside a poll or between polls, brings the table up to date; between polls it
      changes nothing else. */
  lemma LoadBringsUpToDate(s: State)
    requires s.phase.AtRest? || s.phase.Versioned?
    ensures Step(s, Load(true)).loaded == s.inserted
    ensures s.phase.AtRest? ==> Step(s, Load(true)) == s.(loaded := s.inserted) && Step(s, Load(false)) == s
  {
  }

  /** The table only gains changes, whatever happens. */
  lemma LoadsOnlyAdd(s: State, e: Event)
    requires Inv(s)
    ensures s.loaded <= Step(s, e).loaded
  {
  }

  /** A load that fails inside a poll: the change is published with the old route data and its row is
      deleted, so no later poll finds it. */
  lemma FailedLoadPushesOldData(c: Change, v: int)
    requires c.version <= v && v != 0
    ensures var s := Run(State({}, 0, AtRest, {}, {}, {}),
                         [Insert(c), NewVersion(v), Load(false)] + [Select(true), Publish, Delete(true)]);
      s.phase.AtRest? && c in s.published && c !in s.loaded && c !in s.rows
  {
    var s0 := State({}, 0, AtRest, {}, {}, {});
    RunAppend(s0, [Insert(c), NewVersion(v), Load(false)], [Select(true), Publish, Delete(true)]);
    ThreeSteps(s0, Insert(c), NewVersion(v), Load(false));
    var s3 := Step(Step(Step(s0, Insert(c)), NewVersion(v)), Load(false));
    ThreeSteps(s3, Select(true), Publish, Delete(true));
  }

  /** A row that slips in between selection and deletion with the version just read is gone. */
  lemma LateRowIsLost(c: Change, v: int)
    requires c.version <= v && v != 0
    ensures var s := Run(State({}, 0, AtRest, {}, {}, {}),
                         [NewVersion(v), Load(true), Select(true)] + [Insert(c), Publish, Delete(true)]);
      s.phase.AtRest? && c in s.inserted && c !in s.rows && c !in s.published
  {
    var s0 := State({}, 0, AtRest, {}, {}, {});
    RunAppend(s0, [NewVersion(v), Load(true), Select(true)], [Insert(c), Publish, Delete(true)]);
    ThreeSteps(s0, NewVersion(v), Load(true), Select(true));
    var s3 := Step(Step(Step(s0, NewVersion(v)), Load(true)), Select(true));
    ThreeSteps(s3, Insert(c), Publish, Delete(true));
  }
}
