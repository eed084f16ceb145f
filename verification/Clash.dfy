/**
 Runs in which two uploads have one temporary file open: the second cannot go on, and its bytes are
 in the file of the first, which may be published by then.
 */
module Clash {
  import opened Wrappers
  import opened Temporaries
  import opened Overlap
  import Engine
  import Manifest
  import Schedule
  import Text

  // ---------------------------------------------------------------- runs, event by event

  /** The state after the events, if each of them can happen in its turn. */
  ghost function After(s: State, events: seq<Event>, plan: Plan): Option<State> {
    if events == [] then Some(s)
    else
      match After(s, events[..|events| - 1], plan)
      case None => None
      case Some(t) =>
        var e := events[|events| - 1];
        if Enabled(t, e, plan) then Some(Next(t, e, plan)) else None
  }

  lemma AfterOne(s: State, events: seq<Event>, e: Event, plan: Plan)
    requires After(s, events, plan).Some? && Enabled(After(s, events, plan).value, e, plan)
    ensures After(s, events + [e], plan) == Some(Next(After(s, events, plan).value, e, plan))
  {
    assert (events + [e])[..|events|] == events;
  }

  lemma AfterLast(s: State, events: seq<Event>, plan: Plan)
    requires events != [] && After(s, events, plan).Some?
    ensures var before, e := After(s, events[..|events| - 1], plan), events[|events| - 1];
      before.Some? && Enabled(before.value, e, plan) && After(s, events, plan) == Some(Next(before.value, e, plan))
  {
  }

  lemma AfterTwo(s: State, e: Event, e': Event, plan: Plan)
    requires Enabled(s, e, plan) && Enabled(Next(s, e, plan), e', plan)
    ensures After(s, [e, e'], plan) == Some(Next(Next(s, e, plan), e', plan))
  {
    AfterOne(s, [], e, plan);
    assert [] + [e] == [e] && [e] + [e'] == [e, e'];
    AfterOne(s, [e], e', plan);
  }

  lemma {:induction false} AfterMore(s: State, events: seq<Event>, more: seq<Event>, plan: Plan)
    requires After(s, events, plan).Some? && After(After(s, events, plan).value, more, plan).Some?
    ensures After(s, events + more, plan) == After(After(s, events, plan).value, more, plan)
  {
    if more == [] {
      assert events + more == events;
    } else {
      var n := |more| - 1;
      AfterLast(After(s, events, plan).value, more, plan);
      AfterMore(s, events, more[..n], plan);
      AfterOne(s, events + more[..n], more[n], plan);
      assert events + more[..n] + [more[n]] == events + more;
    }
  }

  lemma {:induction false} AfterPrefix(s: State, events: seq<Event>, n: nat, plan: Plan)
    requires After(s, events, plan).Some? && n <= |events|
    ensures After(s, events[..n], plan).Some?
    decreases |events|
  {
    if n < |events| {
      AfterPrefix(s, events[..|events| - 1], n, plan);
      assert events[..|events| - 1][..n] == events[..n];
    } else {
      assert events[..n] == events;
    }
  }

  ghost function StatesOf(s: State, events: seq<Event>, plan: Plan): seq<State> {
    seq(|events| + 1, (n: int) requires 0 <= n <= |events| =>
      match After(s, events[..n], plan) case None => s case Some(t) => t)
  }

  lemma AfterIsRun(s: State, events: seq<Event>, plan: Plan)
    requires plan.Valid() && Initial(s) && After(s, events, plan).Some?
    ensures IsRun(StatesOf(s, events, plan), events, plan) && StatesOf(s, events, plan)[0] == s
    ensures StatesOf(s, events, plan)[|events|] == After(s, events, plan).value
  {
    var states := StatesOf(s, events, plan);
    assert events[..|events|] == events;
    forall n | 0 <= n < |events|
      ensures StepAt(states, events, plan, n)
    {
      AfterPrefix(s, events, n, plan);
      AfterPrefix(s, events, n + 1, plan);
      assert events[..n + 1][..n] == events[..n];
    }
  }

  // ---------------------------------------------------------------- two uploads, one temporary file

  /** The planned names and sizes, and two uploads: `a` with its bytes, and `b` with its own. */
  datatype Pair = Pair(a: string, first: string, b: string, second: string) {
    ghost predicate Valid() {
      && Temporary(a) == Temporary(b) && (a == b ==> |first| == |second|)
      && !Text.EndsWith(a, ".ttsync.tmp") && !Text.EndsWith(b, ".ttsync.tmp")
    }

    ghost function Planned(): Plan { Plan(map[a := |first|][b := |second|], [a, b]) }
  }

  lemma PlannedIsValid(p: Pair)
    requires p.Valid()
    ensures p.Planned().Valid() && p.a in p.Planned().sizes && p.b in p.Planned().sizes
    ensures p.Planned().sizes[p.a] == |p.first| && p.Planned().sizes[p.b] == |p.second|
    ensures Temporary(p.a) !in p.Planned().sizes
  {
    TemporariesAreNotPlanned(p.Planned());
  }

  /** No upload is in progress, and the shared temporary file is not there. */
  ghost predicate Ready(s: State, p: Pair) {
    && p.Valid() && s.uploads == map[] && Numbered(s, p.Planned())
    && !Names(s, s.staged, Temporary(p.a))
  }

  ghost function Asked2(s: State, p: Pair): State {
    s.(uploads := map[0 := Upload(p.a, p.first, Asked), 1 := Upload(p.b, p.second, Asked)],
       sent := s.sent + {(p.a, p.first), (p.b, p.second)})
  }

  lemma BothAsk(s: State, p: Pair)
    requires Ready(s, p)
    ensures After(s, [Accept(0, p.a, p.first), Accept(1, p.b, p.second)], p.Planned()) == Some(Asked2(s, p))
  {
    PlannedIsValid(p);
    AfterTwo(s, Accept(0, p.a, p.first), Accept(1, p.b, p.second), p.Planned());
    var t := Next(Next(s, Accept(0, p.a, p.first), p.Planned()), Accept(1, p.b, p.second), p.Planned());
    assert t.uploads == Asked2(s, p).uploads && t.sent == Asked2(s, p).sent;
  }

  /** The staging directory, which the first upload makes if it is not there. */
  ghost function Place(s: State): nat { if s.staged.Some? then s.staged.value else s.next }

  ghost function Number(s: State): nat { if s.staged.Some? then s.next else s.next + 1 }

  /** One event leads from one state to the next. */
  ghost predicate Leads(s: State, e: Event, t: State, plan: Plan) { Enabled(s, e, plan) && Next(s, e, plan) == t }

  lemma LeadsTwo(s: State, e: Event, t: State, e': Event, u: State, plan: Plan)
    requires Leads(s, e, t, plan) && Leads(t, e', u, plan)
    ensures After(s, [e, e'], plan) == Some(u)
  {
    AfterTwo(s, e, e', plan);
  }

  ghost function Entered1(s: State, p: Pair): State {
    Asked2(s, p).(
      uploads := map[0 := Upload(p.a, p.first, InDirectory), 1 := Upload(p.b, p.second, Asked)],
      staged := Some(Place(s)), next := Number(s))
  }

  ghost function Entered2(s: State, p: Pair): State {
    Entered1(s, p).(
      uploads := map[0 := Upload(p.a, p.first, InDirectory), 1 := Upload(p.b, p.second, InDirectory)])
  }

  lemma FirstEnters(s: State, p: Pair)
    ensures Leads(Asked2(s, p), MakeDirectory(0), Entered1(s, p), p.Planned())
  {
    assert Next(Asked2(s, p), MakeDirectory(0), p.Planned()).uploads == Entered1(s, p).uploads;
  }

  lemma BothEnter(s: State, p: Pair)
    requires Ready(s, p)
    ensures After(Asked2(s, p), [MakeDirectory(0), MakeDirectory(1)], p.Planned()) == Some(Entered2(s, p))
  {
    FirstEnters(s, p);
    assert Next(Entered1(s, p), MakeDirectory(1), p.Planned()).uploads == Entered2(s, p).uploads;
    LeadsTwo(Asked2(s, p), MakeDirectory(0), Entered1(s, p), MakeDirectory(1), Entered2(s, p), p.Planned());
  }

  ghost function Opened1(s: State, p: Pair): State {
    Entered2(s, p).(
      files := s.files[Number(s) := ""], links := s.links[At(Place(s), Temporary(p.a)) := Number(s)],
      uploads := map[0 := Upload(p.a, p.first, Copying(Place(s), Number(s), 0)),
                     1 := Upload(p.b, p.second, InDirectory)],
      next := Number(s) + 1)
  }

  ghost function Opened2(s: State, p: Pair): State {
    Opened1(s, p).(
      uploads := map[0 := Upload(p.a, p.first, Copying(Place(s), Number(s), 0)),
                     1 := Upload(p.b, p.second, Copying(Place(s), Number(s), 0))])
  }

  lemma NoTemporaryYet(s: State, p: Pair)
    requires Ready(s, p)
    ensures At(Place(s), Temporary(p.a)) !in s.links
  {
  }

  lemma FirstOpens(s: State, p: Pair)
    requires At(Place(s), Temporary(p.a)) !in s.links
    ensures Leads(Entered2(s, p), Open(0), Opened1(s, p), p.Planned())
  {
    assert Next(Entered2(s, p), Open(0), p.Planned()).uploads == Opened1(s, p).uploads;
  }

  lemma SecondOpens(s: State, p: Pair)
    requires Ready(s, p)
    ensures Leads(Opened1(s, p), Open(1), Opened2(s, p), p.Planned())
  {
    var t := Next(Opened1(s, p), Open(1), p.Planned());
    assert t.uploads == Opened2(s, p).uploads && t.files == Opened2(s, p).files;
  }

  lemma BothOpen(s: State, p: Pair)
    requires Ready(s, p)
    ensures After(Entered2(s, p), [Open(0), Open(1)], p.Planned()) == Some(Opened2(s, p))
  {
    NoTemporaryYet(s, p);
    FirstOpens(s, p);
    SecondOpens(s, p);
    LeadsTwo(Entered2(s, p), Open(0), Opened1(s, p), Open(1), Opened2(s, p), p.Planned());
  }

  ghost function Copied1(s: State, p: Pair): State {
    Opened2(s, p).(
      files := s.files[Number(s) := p.first],
      uploads := map[0 := Upload(p.a, p.first, Copying(Place(s), Number(s), |p.first|)),
                     1 := Upload(p.b, p.second, Copying(Place(s), Number(s), 0))])
  }

  /** The first upload is done; the second has its file open. */
  ghost function Clashed(s: State, p: Pair): State {
    Copied1(s, p).(
      links := s.links[At(Place(s), p.a) := Number(s)],
      uploads := map[1 := Upload(p.b, p.second, Copying(Place(s), Number(s), 0))])
  }

  lemma WrittenWhole(data: string)
    ensures data[0..0 + |data|] == data && Put("", 0, data) == data
  {
  }

  lemma Overwritten<K, V>(m: map<K, V>, k: K, v: V, w: V)
    ensures m[k := v][k := w] == m[k := w]
  {
  }

  lemma Overwritten2(u: Upload, v: Upload, other: Upload)
    ensures map[0 := u, 1 := other][0 := v] == map[0 := v, 1 := other]
  {
  }

  lemma FirstCopies(s: State, p: Pair)
    ensures Leads(Opened2(s, p), Copy(0, |p.first|), Copied1(s, p), p.Planned())
  {
    WrittenWhole(p.first);
    Overwritten(s.files, Number(s), "", p.first);
    var t := Opened2(s, p);
    var u := t.uploads[0];
    assert u.progress == Copying(Place(s), Number(s), 0) && t.files[Number(s)] == "";
    Overwritten2(u, u.(progress := Copying(Place(s), Number(s), |p.first|)), t.uploads[1]);
  }

  lemma AddedAndRemoved<K, V>(m: map<K, V>, k: K, v: V)
    requires k !in m
    ensures m[k := v] - {k} == m
  {
  }

  lemma FirstCanRename(s: State, p: Pair)
    ensures Enabled(Copied1(s, p), Rename(0), p.Planned())
  {
  }

  lemma FirstRenamed(s: State, p: Pair)
    requires At(Place(s), Temporary(p.a)) !in s.links && Enabled(Copied1(s, p), Rename(0), p.Planned())
    ensures Renamed(Copied1(s, p), 0) == Clashed(s, p)
  {
    AddedAndRemoved(s.links, At(Place(s), Temporary(p.a)), Number(s));
    assert Copied1(s, p).uploads - {0} == Clashed(s, p).uploads;
  }

  lemma FirstRenames(s: State, p: Pair)
    requires At(Place(s), Temporary(p.a)) !in s.links
    ensures Leads(Copied1(s, p), Rename(0), Clashed(s, p), p.Planned())
  {
    FirstCanRename(s, p);
    FirstRenamed(s, p);
  }

  lemma FirstIsDone(s: State, p: Pair)
    requires Ready(s, p)
    ensures After(Opened2(s, p), [Copy(0, |p.first|), Rename(0)], p.Planned()) == Some(Clashed(s, p))
  {
    FirstCopies(s, p);
    NoTemporaryYet(s, p);
    FirstRenames(s, p);
    LeadsTwo(Opened2(s, p), Copy(0, |p.first|), Copied1(s, p), Rename(0), Clashed(s, p), p.Planned());
  }

  ghost function ClashEvents(p: Pair): seq<Event> {
    [Accept(0, p.a, p.first), Accept(1, p.b, p.second)] + [MakeDirectory(0), MakeDirectory(1)] + [Open(0), Open(1)]
    + [Copy(0, |p.first|), Rename(0)]
  }

  lemma ClashHappens(s: State, p: Pair)
    requires Ready(s, p)
    ensures After(s, ClashEvents(p), p.Planned()) == Some(Clashed(s, p))
  {
    var asks, enters := [Accept(0, p.a, p.first), Accept(1, p.b, p.second)], [MakeDirectory(0), MakeDirectory(1)];
    BothAsk(s, p);
    BothEnter(s, p);
    AfterMore(s, asks, enters, p.Planned());
    BothOpen(s, p);
    AfterMore(s, asks + enters, [Open(0), Open(1)], p.Planned());
    FirstIsDone(s, p);
    AfterMore(s, asks + enters + [Open(0), Open(1)], [Copy(0, |p.first|), Rename(0)], p.Planned());
  }

  // ---------------------------------------------------------------- an upload that cannot go on

  ghost function Nothing(): State { State(map[], map[], 0, None, None, None, map[], Checking(0), {}) }

  lemma SecondWritesOn(s: State, p: Pair, n: nat)
    requires n <= |p.second|
    ensures var t := Clashed(s, p);
      && Enabled(t, Copy(1, n), p.Planned())
      && Next(t, Copy(1, n), p.Planned()) == t.(
           files := t.files[Number(s) := Put(p.first, 0, p.second[..n])],
           uploads := map[1 := Upload(p.b, p.second, Copying(Place(s), Number(s), n))])
  {
    assert p.second[0..n] == p.second[..n];
    var t := Next(Clashed(s, p), Copy(1, n), p.Planned());
    assert t.uploads == map[1 := Upload(p.b, p.second, Copying(Place(s), Number(s), n))];
  }

  lemma ClashIsOfUploads(p: Pair, n: nat)
    ensures forall e :: e in ClashEvents(p) + [Copy(1, n)] ==> OfAnUpload(e)
  {
  }

  /**
   The upload of `b` is the only one left, and has lost the name it is to rename; the `n` bytes it
   has written are in the file of `a`.
   */
  ghost predicate Stuck(s: State, p: Pair, n: nat)
    requires n <= |p.second|
  {
    && s.uploads.Keys == {1} && s.uploads[1].name == p.b && s.staged.Some?
    && !Names(s, s.staged, Temporary(p.b)) && !Enabled(s, Rename(1), p.Planned())
    && BytesAt(s, At(s.staged.value, p.a)) == Some(Put(p.first, 0, p.second[..n]))
  }

  lemma SecondIsStuck(p: Pair, n: nat)
    requires p.Valid() && n <= |p.second|
    ensures Stuck(Next(Clashed(Nothing(), p), Copy(1, n), p.Planned()), p, n)
  {
    PlannedIsValid(p);
    SecondWritesOn(Nothing(), p, n);
    assert p.a != Temporary(p.a);
  }

  /**
   Two files that share a temporary file, sent into one directory at the same time, with no fault
   anywhere: the first is in place and counts as received, the second has lost the name it is to
   rename, and whatever it has written since is in the first one's file.
   */
  lemma RivalsCanClash(p: Pair, n: nat) returns (states: seq<State>, events: seq<Event>)
    requires p.Valid() && n <= |p.second|
    ensures IsRun(states, events, p.Planned())
    ensures forall i :: 0 <= i < |events| ==> OfAnUpload(events[i])
    ensures Stuck(states[|events|], p, n)
  {
    PlannedIsValid(p);
    ClashHappens(Nothing(), p);
    SecondWritesOn(Nothing(), p, n);
    SecondIsStuck(p, n);
    AfterOne(Nothing(), ClashEvents(p), Copy(1, n), p.Planned());
    events := ClashEvents(p) + [Copy(1, n)];
    ClashIsOfUploads(p, n);
    AfterIsRun(Nothing(), events, p.Planned());
    states := StatesOf(Nothing(), events, p.Planned());
    assert forall i :: 0 <= i < |events| ==> events[i] in events;
  }

  /** The last part of the path of a plan's entry. */
  ghost function NameAt(transfer: seq<Manifest.Entry>, i: nat): string
    requires i < |transfer| && Engine.AllValid(transfer)
  {
    assert transfer[i] in transfer;
    transfer[i].path[|transfer[i].path| - 1]
  }

  /**
   Every crowded plan can fail without a fault: two of its files lie in one directory, their tasks can
   be at work together, and then one of them can get stuck.
   */
  lemma CrowdedCanFail(transfer: seq<Manifest.Entry>, limit: nat, first: string, second: string)
    returns (i: nat, j: nat, log: seq<Schedule.Event>, states: seq<State>, events: seq<Event>)
    requires Engine.AllValid(transfer) && Manifest.DistinctPaths(transfer) && Engine.Crowded(transfer, limit)
    ensures i < j < |transfer| && |transfer[i].path| == |transfer[j].path| > 0
    ensures transfer[i].path[..|transfer[i].path| - 1] == transfer[j].path[..|transfer[j].path| - 1]
    ensures Schedule.Together(log, i, j, |transfer|, limit)
    ensures var p := Pair(NameAt(transfer, i), first, NameAt(transfer, j), second);
      && IsRun(states, events, p.Planned()) && (forall n :: 0 <= n < |events| ==> OfAnUpload(events[n]))
      && Stuck(states[|events|], p, |second|)
  {
    Engine.CrowdedMeaning(transfer, limit);
    i, j :| 0 <= i < j < |transfer| && TemporaryOf(transfer[i].path) == TemporaryOf(transfer[j].path);
    NeighboursShare(transfer, i, j);
    log := Schedule.AnyTwoTogether(i, j, |transfer|, limit);
    states, events := RivalsCanClash(Pair(NameAt(transfer, i), first, NameAt(transfer, j), second), |second|);
  }

  lemma NeighboursShare(transfer: seq<Manifest.Entry>, i: nat, j: nat)
    requires Engine.AllValid(transfer) && Manifest.DistinctPaths(transfer) && i < j < |transfer|
    requires TemporaryOf(transfer[i].path) == TemporaryOf(transfer[j].path)
    ensures |transfer[i].path| == |transfer[j].path| > 0
    ensures transfer[i].path[..|transfer[i].path| - 1] == transfer[j].path[..|transfer[j].path| - 1]
    ensures NameAt(transfer, i) != NameAt(transfer, j)
    ensures Temporary(NameAt(transfer, i)) == Temporary(NameAt(transfer, j))
    ensures !Text.EndsWith(NameAt(transfer, i), ".ttsync.tmp") && !Text.EndsWith(NameAt(transfer, j), ".ttsync.tmp")
  {
    assert transfer[i] in transfer && transfer[j] in transfer;
    var p, q := transfer[i].path, transfer[j].path;
    assert |TemporaryOf(p)| == |p| && |TemporaryOf(q)| == |q|;
    assert p[..|p| - 1] == TemporaryOf(p)[..|p| - 1] == TemporaryOf(q)[..|q| - 1] == q[..|q| - 1];
    assert TemporaryOf(p)[|p| - 1] == Temporary(p[|p| - 1]) && TemporaryOf(q)[|q| - 1] == Temporary(q[|q| - 1]);
    assert p == p[..|p| - 1] + [p[|p| - 1]] && q == q[..|q| - 1] + [q[|q| - 1]];
  }

  // ---------------------------------------------------------------- a published mixture

  /** One upload of `b` from beginning to end. */
  ghost function WholeEvents(p: Pair): seq<Event> {
    [Accept(2, p.b, p.second), MakeDirectory(2)] + [Open(2), Copy(2, |p.second|)] + [Rename(2)]
  }

  ghost function Staged(p: Pair): State {
    Nothing().(files := map[1 := p.second], links := map[At(0, p.b) := 1], next := 2, staged := Some(0),
               sent := {(p.b, p.second)})
  }

  ghost function Entered(p: Pair): State {
    Nothing().(next := 1, staged := Some(0), uploads := map[2 := Upload(p.b, p.second, InDirectory)],
               sent := {(p.b, p.second)})
  }

  ghost function Copied(p: Pair): State {
    Entered(p).(files := map[1 := p.second], links := map[At(0, Temporary(p.b)) := 1], next := 2,
                uploads := map[2 := Upload(p.b, p.second, Copying(0, 1, |p.second|))])
  }

  lemma OneEnters(p: Pair)
    requires p.Valid()
    ensures After(Nothing(), [Accept(2, p.b, p.second), MakeDirectory(2)], p.Planned()) == Some(Entered(p))
  {
    PlannedIsValid(p);
    AfterTwo(Nothing(), Accept(2, p.b, p.second), MakeDirectory(2), p.Planned());
    var t := Next(Next(Nothing(), Accept(2, p.b, p.second), p.Planned()), MakeDirectory(2), p.Planned());
    assert t.uploads == Entered(p).uploads && t.sent == Entered(p).sent;
  }

  lemma OneCopies(p: Pair)
    requires p.Valid()
    ensures After(Entered(p), [Open(2), Copy(2, |p.second|)], p.Planned()) == Some(Copied(p))
  {
    assert p.second[0..|p.second|] == p.second && Put("", 0, p.second) == p.second;
    AfterTwo(Entered(p), Open(2), Copy(2, |p.second|), p.Planned());
    var t := Next(Next(Entered(p), Open(2), p.Planned()), Copy(2, |p.second|), p.Planned());
    assert t.uploads == Copied(p).uploads && t.files == Copied(p).files;
  }

  lemma OneIsDone(p: Pair)
    requires p.Valid()
    ensures After(Copied(p), [Rename(2)], p.Planned()) == Some(Staged(p))
  {
    AfterOne(Copied(p), [], Rename(2), p.Planned());
    assert [] + [Rename(2)] == [Rename(2)];
    var t := Next(Copied(p), Rename(2), p.Planned());
    assert t.links == Staged(p).links && t.uploads == Staged(p).uploads;
  }

  lemma OneIsStaged(p: Pair)
    requires p.Valid()
    ensures After(Nothing(), WholeEvents(p), p.Planned()) == Some(Staged(p)) && Ready(Staged(p), p)
  {
    PlannedIsValid(p);
    var enters, copies := [Accept(2, p.b, p.second), MakeDirectory(2)], [Open(2), Copy(2, |p.second|)];
    OneEnters(p);
    OneCopies(p);
    AfterMore(Nothing(), enters, copies, p.Planned());
    OneIsDone(p);
    AfterMore(Nothing(), enters + copies, [Rename(2)], p.Planned());
  }

  lemma BothPass(p: Pair)
    requires p.Valid()
    ensures var t := Clashed(Staged(p), p);
      After(t, [Check, Check], p.Planned()) == Some(t.(commit := Checking(2)))
  {
    PlannedIsValid(p);
    AfterTwo(Clashed(Staged(p), p), Check, Check, p.Planned());
  }

  ghost function InPlace(p: Pair): State {
    Clashed(Staged(p), p).(commit := Published, root := Some(0), staged := None)
  }

  lemma BothMoveIn(p: Pair)
    requires p.Valid()
    ensures var t := Clashed(Staged(p), p).(commit := Checking(2));
      After(t, [MoveAside(false), MoveIn], p.Planned()) == Some(InPlace(p))
  {
    AfterTwo(Clashed(Staged(p), p).(commit := Checking(2)), MoveAside(false), MoveIn, p.Planned());
  }

  ghost function PublishEvents(p: Pair): seq<Event> {
    WholeEvents(p) + ClashEvents(p) + [Check, Check] + [MoveAside(false), MoveIn]
  }

  lemma BothArePublished(p: Pair)
    requires p.Valid()
    ensures After(Nothing(), PublishEvents(p), p.Planned()) == Some(InPlace(p))
  {
    OneIsStaged(p);
    ClashHappens(Staged(p), p);
    AfterMore(Nothing(), WholeEvents(p), ClashEvents(p), p.Planned());
    BothPass(p);
    AfterMore(Nothing(), WholeEvents(p) + ClashEvents(p), [Check, Check], p.Planned());
    BothMoveIn(p);
    AfterMore(Nothing(), WholeEvents(p) + ClashEvents(p) + [Check, Check], [MoveAside(false), MoveIn], p.Planned());
  }

  /** The second upload writes its first byte into the published file. */
  lemma LateWrite(p: Pair)
    requires p.Valid() && |p.first| > 0 && |p.second| > 0
    ensures Enabled(InPlace(p), Copy(1, 1), p.Planned())
    ensures var t := Next(InPlace(p), Copy(1, 1), p.Planned());
      && t.root == Some(0) && BytesAt(t, At(0, p.a)) == Some([p.second[0]] + p.first[1..])
      && t.sent == {(p.a, p.first), (p.b, p.second)}
  {
    assert p.second[0..1] == [p.second[0]] && Put(p.first, 0, [p.second[0]]) == [p.second[0]] + p.first[1..];
  }

  lemma MixtureIsNotWhole(p: Pair, s: State)
    requires p.Valid() && |p.first| > 0 && |p.second| > 0 && s.sent == {(p.a, p.first), (p.b, p.second)}
    requires s.root.Some? && BytesAt(s, At(s.root.value, p.a)) == Some([p.second[0]] + p.first[1..])
    requires p.first[0] != p.second[0] && (p.a == p.b ==> p.first[1..] != p.second[1..])
    ensures !Unmixed(s, Nothing(), p.Planned())
  {
    PlannedIsValid(p);
    var mixed := [p.second[0]] + p.first[1..];
    assert mixed[0] == p.second[0] && mixed[1..] == p.first[1..];
    assert mixed != p.first && (p.a == p.b ==> mixed != p.second);
    assert (p.a, mixed) !in s.sent;
  }

  /**
   Uploads of any two planned files that share a temporary file, of one file among them, can mix
   their bytes in a published file after the commit has reported success.
   */
  lemma SharedTemporaryMixes(p: Pair) returns (states: seq<State>, events: seq<Event>)
    requires p.Valid() && |p.first| > 0 && |p.second| > 0
    ensures IsRun(states, events, p.Planned()) && |events| > 0 && states[|events| - 1].commit.Published?
    ensures var last := states[|events|];
      last.root.Some? && BytesAt(last, At(last.root.value, p.a)) == Some([p.second[0]] + p.first[1..])
    ensures p.first[0] != p.second[0] && (p.a == p.b ==> p.first[1..] != p.second[1..]) ==>
      !Unmixed(states[|events|], states[0], p.Planned())
  {
    PlannedIsValid(p);
    BothArePublished(p);
    LateWrite(p);
    AfterOne(Nothing(), PublishEvents(p), Copy(1, 1), p.Planned());
    events := PublishEvents(p) + [Copy(1, 1)];
    AfterIsRun(Nothing(), events, p.Planned());
    states := StatesOf(Nothing(), events, p.Planned());
    assert events[..|events| - 1] == PublishEvents(p);
    if p.first[0] != p.second[0] && (p.a == p.b ==> p.first[1..] != p.second[1..]) {
      MixtureIsNotWhole(p, states[|events|]);
    }
  }
}
