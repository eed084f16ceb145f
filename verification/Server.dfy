/**
 The exclusive database lock on the server: prepared stores own it through reference counts, and
 plan records, requests in flight and running commits hold the references. Requests interleave
 freely; every event below is one atomic action of the program.
 */
module Server {
  import opened Publish

  /** Who can hold a reference to a prepared store; requests are numbered. */
  datatype Holder = Planning(request: nat)    // a plan request, from prepare until its record is inserted
                  | Record(plan: string)      // a plan record
                  | Serving(request: nat)     // an upload or download working on a plan
                  | Committing(request: nat)  // a commit request that took a record
                  | Publishing(request: nat)  // the blocking thread that publishes

  /** The directories under the database root. */
  type Root = map<string, Directory>

  /**
   `refs` counts references per prepared store, and `locked` is the mutex the first of them owns.
   `scans` keeps what each store's scan saw, and `published` the stores whose publishing began.
   */
  datatype Server = Server(
    holders: map<Holder, nat>,
    refs: map<nat, nat>,
    locked: bool,
    next: nat,
    root: Root,
    scans: map<nat, Root>,
    published: set<nat>)

  datatype Event = Prepare(request: nat)                // try_lock, and a new prepared store
                 | Scan(request: nat)                   // the manifest of this side
                 | Insert(request: nat, plan: string)   // the record takes over the reference
                 | Look(request: nat, plan: string)     // snapshot or transfer_meta clones it
                 | Take(request: nat, plan: string)     // take_if moves it to the commit request
                 | Commit(request: nat)                 // commit hands it to the blocking thread
                 | Rename(request: nat, root: Root)     // one step of publishing
                 | Release(holder: Holder)              // dropped: done, failed, cancelled, aborted or lapsed

  ghost function Initial(root: Root): Server { Server(map[], map[], false, 0, root, map[], {}) }

  // ---------------------------------------------------------------- reference counting

  function Clone(s: Server, h: Holder, store: nat): Server
    requires store in s.refs
  {
    s.(holders := s.holders[h := store], refs := s.refs[store := s.refs[store] + 1])
  }

  function Move(s: Server, from: Holder, to: Holder): Server
    requires from in s.holders
  {
    s.(holders := (s.holders - {from})[to := s.holders[from]])
  }

  /** The last reference dropped drops the store, and with it the lock guard. */
  function Drop(s: Server, h: Holder): Server
    requires h in s.holders && s.holders[h] in s.refs
  {
    var store := s.holders[h];
    if s.refs[store] <= 1 then s.(holders := s.holders - {h}, refs := s.refs - {store}, locked := false)
    else s.(holders := s.holders - {h}, refs := s.refs[store := s.refs[store] - 1])
  }

  // ---------------------------------------------------------------- events

  /**
   When an event can happen. A `Prepare` that finds the lock taken fails and changes nothing, so it is
   not an event.
   */
  predicate Enabled(s: Server, e: Event) {
    match e
    case Prepare(k) => !s.locked && Planning(k) !in s.holders
    case Scan(k) => Planning(k) in s.holders
    case Insert(k, plan) => Planning(k) in s.holders && s.holders[Planning(k)] in s.scans && Record(plan) !in s.holders
    case Look(k, plan) => Record(plan) in s.holders && Serving(k) !in s.holders && s.holders[Record(plan)] in s.refs
    case Take(k, plan) => Record(plan) in s.holders && Committing(k) !in s.holders
    case Commit(k) => Committing(k) in s.holders && Publishing(k) !in s.holders
    case Rename(k, _) => Publishing(k) in s.holders
    case Release(h) => h in s.holders && s.holders[h] in s.refs
  }

  function Next(s: Server, e: Event): Server
    requires Enabled(s, e)
  {
    match e
    case Prepare(k) =>
      s.(holders := s.holders[Planning(k) := s.next], refs := s.refs[s.next := 1], locked := true, next := s.next + 1)
    case Scan(k) => s.(scans := s.scans[s.holders[Planning(k)] := s.root])
    case Insert(k, plan) => Move(s, Planning(k), Record(plan))
    case Look(k, plan) => Clone(s, Serving(k), s.holders[Record(plan)])
    case Take(k, plan) => Move(s, Record(plan), Committing(k))
    case Commit(k) => Move(s, Committing(k), Publishing(k)).(published := s.published + {s.holders[Committing(k)]})
    case Rename(k, root) => s.(root := root)
    case Release(h) => Drop(s, h)
  }

  // ---------------------------------------------------------------- the invariant

  ghost function HoldersOf(s: Server, store: nat): set<Holder> {
    set h | h in s.holders && s.holders[h] == store
  }

  /** Counts are exact, the lock is owned by the one prepared store there is. */
  ghost predicate Counted(s: Server) {
    && (forall h :: h in s.holders ==> s.holders[h] in s.refs)
    && (forall store :: store in s.refs ==>
          s.refs[store] == |HoldersOf(s, store)| && s.refs[store] > 0 && store < s.next)
    && (forall a, b :: a in s.refs && b in s.refs ==> a == b)
    && (s.locked <==> s.refs != map[])
  }

  /** The one reference that carries a plan from its request to its publishing. */
  predicate Carries(h: Holder) { !h.Serving? }

  ghost predicate Staged(s: Server) {
    && (forall h, h' ::
          h in s.holders && h' in s.holders && Carries(h) && Carries(h') && s.holders[h] == s.holders[h'] ==> h == h')
    && (forall h :: h in s.holders && !h.Planning? ==> s.holders[h] in s.scans)
    && (forall h :: h in s.holders && Carries(h) ==> (s.holders[h] in s.published <==> h.Publishing?))
    && (forall store :: store in s.scans || store in s.published ==> store < s.next)
  }

  /** Until a store publishes, the root is what its scan saw. */
  ghost predicate Frozen(s: Server) {
    forall store :: store in s.refs && store in s.scans && store !in s.published ==> s.root == s.scans[store]
  }

  ghost predicate Inv(s: Server) { Counted(s) && Staged(s) && Frozen(s) }

  // ---------------------------------------------------------------- preservation

  lemma CloneCounts(s: Server, h: Holder, store: nat)
    requires Counted(s) && h !in s.holders && store in s.refs
    ensures Counted(Clone(s, h, store))
  {
    var t := Clone(s, h, store);
    assert HoldersOf(t, store) == HoldersOf(s, store) + {h};
  }

  lemma MoveCounts(s: Server, from: Holder, to: Holder)
    requires Counted(s) && from in s.holders && to !in s.holders
    ensures Counted(Move(s, from, to))
  {
    var t := Move(s, from, to);
    var store := s.holders[from];
    assert HoldersOf(t, store) == HoldersOf(s, store) - {from} + {to};
    assert |HoldersOf(s, store) - {from}| == |HoldersOf(s, store)| - 1;
  }

  lemma DropCounts(s: Server, h: Holder)
    requires Counted(s) && h in s.holders
    ensures Counted(Drop(s, h))
  {
    var t := Drop(s, h);
    var store := s.holders[h];
    assert HoldersOf(t, store) == HoldersOf(s, store) - {h};
    if s.refs[store] == 1 {
      assert HoldersOf(t, store) == {} by { assert |HoldersOf(t, store)| == |HoldersOf(s, store)| - 1; }
      assert forall g :: g in t.holders ==> g in HoldersOf(t, store);
    }
  }

  lemma PrepareCounts(s: Server, k: nat)
    requires Counted(s) && Enabled(s, Prepare(k))
    ensures Counted(Next(s, Prepare(k)))
  {
    var t := Next(s, Prepare(k));
    assert s.holders == map[];
    assert HoldersOf(t, s.next) == {Planning(k)};
  }

  lemma PrepareKeeps(s: Server, k: nat)
    requires Inv(s) && Enabled(s, Prepare(k))
    ensures Inv(Next(s, Prepare(k)))
  {
    PrepareCounts(s, k);
    assert s.holders == map[];
  }

  lemma MoveKeeps(s: Server, from: Holder, to: Holder)
    requires Inv(s) && from in s.holders && to !in s.holders
    requires Carries(from) && Carries(to) && !from.Publishing? && !to.Publishing? && s.holders[from] in s.scans
    ensures Inv(Move(s, from, to))
  {
    MoveCounts(s, from, to);
  }

  lemma LookKeeps(s: Server, k: nat, plan: string)
    requires Inv(s) && Enabled(s, Look(k, plan))
    ensures Inv(Next(s, Look(k, plan)))
  {
    CloneCounts(s, Serving(k), s.holders[Record(plan)]);
  }

  lemma ReleaseKeeps(s: Server, h: Holder)
    requires Inv(s) && Enabled(s, Release(h))
    ensures Inv(Next(s, Release(h)))
  {
    DropCounts(s, h);
  }

  lemma ScanKeeps(s: Server, k: nat)
    requires Inv(s) && Enabled(s, Scan(k))
    ensures Inv(Next(s, Scan(k)))
  {
    var t := Next(s, Scan(k));
    assert forall store :: HoldersOf(t, store) == HoldersOf(s, store);
  }

  lemma CommitKeeps(s: Server, k: nat)
    requires Inv(s) && Enabled(s, Commit(k))
    ensures Inv(Next(s, Commit(k)))
  {
    var m := Move(s, Committing(k), Publishing(k));
    var t := Next(s, Commit(k));
    MoveCounts(s, Committing(k), Publishing(k));
    assert forall store :: HoldersOf(t, store) == HoldersOf(m, store);
  }

  lemma RenameKeeps(s: Server, k: nat, root: Root)
    requires Inv(s) && Enabled(s, Rename(k, root))
    ensures Inv(Next(s, Rename(k, root)))
  {
    var t := Next(s, Rename(k, root));
    assert forall store :: HoldersOf(t, store) == HoldersOf(s, store);
  }

  lemma StepKeepsInv(s: Server, e: Event)
    requires Inv(s) && Enabled(s, e)
    ensures Inv(Next(s, e))
  {
    match e
    case Prepare(k) => PrepareKeeps(s, k);
    case Scan(k) => ScanKeeps(s, k);
    case Insert(k, plan) => MoveKeeps(s, Planning(k), Record(plan));
    case Look(k, plan) => LookKeeps(s, k, plan);
    case Take(k, plan) => MoveKeeps(s, Record(plan), Committing(k));
    case Commit(k) => CommitKeeps(s, k);
    case Rename(k, root) => RenameKeeps(s, k, root);
    case Release(h) => ReleaseKeeps(s, h);
  }

  // ---------------------------------------------------------------- every interleaving

  ghost predicate StepAt(states: seq<Server>, events: seq<Event>, n: nat)
    requires n < |events| && |states| == |events| + 1
  {
    Enabled(states[n], events[n]) && states[n + 1] == Next(states[n], events[n])
  }

  /** A run of the server: it starts with nothing held, and every event is enabled when it happens. */
  ghost predicate IsRun(states: seq<Server>, events: seq<Event>) {
    && |states| == |events| + 1
    && states[0] == Initial(states[0].root)
    && forall n :: 0 <= n < |events| ==> StepAt(states, events, n)
  }

  lemma {:induction false} RunKeepsInv(states: seq<Server>, events: seq<Event>, n: nat)
    requires IsRun(states, events) && n < |states|
    ensures Inv(states[n])
  {
    if n > 0 {
      RunKeepsInv(states, events, n - 1);
      assert StepAt(states, events, n - 1);
      StepKeepsInv(states[n - 1], events[n - 1]);
    } else {
      assert states[0].holders == map[];
    }
  }

  /** At any moment at most one prepared store exists, and the lock is free exactly when nothing refers to one. */
  lemma LockFollowsHolders(states: seq<Server>, events: seq<Event>, n: nat)
    requires IsRun(states, events) && n < |states|
    ensures forall a, b :: a in states[n].refs && b in states[n].refs ==> a == b
    ensures states[n].locked <==> states[n].holders != map[]
    ensures forall store :: store in states[n].refs ==> states[n].refs[store] == |HoldersOf(states[n], store)|
  {
    RunKeepsInv(states, events, n);
    if store :| store in states[n].refs {
      assert |HoldersOf(states[n], store)| > 0;
      var h :| h in HoldersOf(states[n], store);
    }
  }

  /** `store` is the prepared store that event `i` scans with. */
  ghost predicate ScansWith(states: seq<Server>, events: seq<Event>, i: nat, store: nat)
    requires i < |events| && |states| == |events| + 1
  {
    && events[i].Scan? && Planning(events[i].request) in states[i].holders
    && states[i].holders[Planning(events[i].request)] == store
  }

  /** One event leaves a scan true unless its store goes or publishes. */
  lemma ScanCarries(s: Server, e: Event, store: nat, root: Root)
    requires Inv(s) && Enabled(s, e) && store < s.next
    requires store in Next(s, e).refs && store !in Next(s, e).published
    ensures store in s.refs && store !in s.published
    ensures s.root == root && store in s.scans && s.scans[store] == root ==>
      Next(s, e).root == root && store in Next(s, e).scans && Next(s, e).scans[store] == root
  {
  }

  /** From a store's scan until it publishes, the root does not change, whatever other requests do. */
  lemma {:induction false} ScanStaysTrue(states: seq<Server>, events: seq<Event>, i: nat, n: nat, store: nat)
    requires IsRun(states, events) && i < n < |states| && ScansWith(states, events, i, store)
    requires store in states[n].refs && store !in states[n].published
    ensures states[n].root == states[i].root
    ensures store in states[n].scans && states[n].scans[store] == states[i].root
  {
    RunKeepsInv(states, events, i);
    assert StepAt(states, events, i);
    if n > i + 1 {
      assert StepAt(states, events, n - 1);
      RunKeepsInv(states, events, n - 1);
      StoresAreNumbered(states, events, i, n - 1);
      ScanCarries(states[n - 1], events[n - 1], store, states[i].root);
      ScanStaysTrue(states, events, i, n - 1, store);
    }
  }

  lemma {:induction false} StoresAreNumbered(states: seq<Server>, events: seq<Event>, i: nat, n: nat)
    requires IsRun(states, events) && i <= n < |states|
    ensures states[i].next <= states[n].next
  {
    if i < n {
      StoresAreNumbered(states, events, i, n - 1);
      assert StepAt(states, events, n - 1);
    }
  }

  /** When a plan's publishing begins, the root is exactly what its scan saw; and only publishing changes the root. */
  lemma PublishMeetsItsScan(states: seq<Server>, events: seq<Event>, n: nat)
    requires IsRun(states, events) && n < |events|
    ensures events[n].Commit? ==>
      && Committing(events[n].request) in states[n].holders
      && var store := states[n].holders[Committing(events[n].request)];
        store in states[n].scans && states[n].root == states[n].scans[store]
    ensures states[n + 1].root != states[n].root ==>
      && events[n].Rename? && Publishing(events[n].request) in states[n].holders
      && forall h :: h in states[n].holders ==> states[n].holders[h] == states[n].holders[Publishing(events[n].request)]
  {
    RunKeepsInv(states, events, n);
    assert StepAt(states, events, n);
  }

  // ---------------------------------------------------------------- progress

  /** A plan request is turned away exactly while something refers to a prepared store. */
  lemma PrepareExactly(states: seq<Server>, events: seq<Event>, n: nat, k: nat)
    requires IsRun(states, events) && n < |states|
    ensures Enabled(states[n], Prepare(k)) <==> states[n].holders == map[]
  {
    LockFollowsHolders(states, events, n);
  }

  /** The reference an event uses up. */
  predicate UsesUp(e: Event, h: Holder) {
    match h
    case Planning(k) => e == Release(h) || (e.Insert? && e.request == k)
    case Record(plan) => e == Release(h) || (e.Take? && e.plan == plan)
    case Serving(_) => e == Release(h)
    case Committing(k) => e == Release(h) || e == Commit(k)
    case Publishing(_) => e == Release(h)
  }

  /** A reference stays with its store until an event uses it up, and one used up is gone. */
  lemma HoldersStay(s: Server, e: Event, h: Holder)
    requires Inv(s) && Enabled(s, e) && h in s.holders
    ensures if UsesUp(e, h) then h !in Next(s, e).holders
            else h in Next(s, e).holders && Next(s, e).holders[h] == s.holders[h]
  {
  }

  /** A record keeps its store until it is taken or released, whatever other events come between. */
  lemma {:induction false} RecordStays(states: seq<Server>, events: seq<Event>, i: nat, n: nat, plan: string)
    requires IsRun(states, events) && i < n < |states| && events[i].Insert? && events[i].plan == plan
    requires forall m :: i < m < n ==> !UsesUp(events[m], Record(plan))
    ensures Planning(events[i].request) in states[i].holders && Record(plan) in states[n].holders
    ensures states[n].holders[Record(plan)] == states[i].holders[Planning(events[i].request)]
  {
    assert StepAt(states, events, i);
    if n > i + 1 {
      RecordStays(states, events, i, n - 1, plan);
      assert StepAt(states, events, n - 1);
      RunKeepsInv(states, events, n - 1);
      HoldersStay(states[n - 1], events[n - 1], Record(plan));
    }
  }

  /** The events can happen one after the other. */
  ghost predicate Possible(s: Server, events: seq<Event>)
    decreases |events|
  {
    events == [] || (Enabled(s, events[0]) && Possible(Next(s, events[0]), events[1..]))
  }

  ghost function AfterAll(s: Server, events: seq<Event>): Server
    requires Possible(s, events)
    decreases |events|
  {
    if events == [] then s else AfterAll(Next(s, events[0]), events[1..])
  }

  lemma OneMore(s: Server, e: Event, rest: seq<Event>)
    requires Enabled(s, e) && Possible(Next(s, e), rest)
    ensures Possible(s, [e] + rest) && AfterAll(s, [e] + rest) == AfterAll(Next(s, e), rest)
  {
    assert ([e] + rest)[1..] == rest;
  }

  /** Reference counts, lock and holders fit each other. */
  lemma LockedByHolders(s: Server)
    requires Inv(s)
    ensures s.locked <==> s.holders != map[]
    ensures forall h :: h in s.holders ==> Enabled(s, Release(h))
  {
    if store :| store in s.refs {
      assert HoldersOf(s, store) != {} by { assert |HoldersOf(s, store)| > 0; }
      var h :| h in HoldersOf(s, store);
    }
  }

  /** From every reachable state the lock comes free once the holders let go, and the root stays as it is. */
  lemma {:induction false} LockComesFree(s: Server) returns (events: seq<Event>)
    requires Inv(s)
    ensures Possible(s, events) && forall e :: e in events ==> e.Release?
    ensures AfterAll(s, events).holders == map[] && !AfterAll(s, events).locked && AfterAll(s, events).root == s.root
    decreases |s.holders|
  {
    LockedByHolders(s);
    if s.holders == map[] {
      events := [];
    } else {
      var h :| h in s.holders;
      var next := Next(s, Release(h));
      StepKeepsInv(s, Release(h));
      FewerHolders(s, h);
      var rest := LockComesFree(next);
      OneMore(s, Release(h), rest);
      events := [Release(h)] + rest;
    }
  }

  lemma FewerHolders(s: Server, h: Holder)
    requires Enabled(s, Release(h))
    ensures Next(s, Release(h)).holders == s.holders - {h} && Next(s, Release(h)).root == s.root
    ensures |s.holders - {h}| < |s.holders|
  {
    assert |s.holders - {h}| == |(s.holders - {h}).Keys| && |s.holders| == |s.holders.Keys|;
    assert (s.holders - {h}).Keys == s.holders.Keys - {h};
  }

  /** What a commit goes through: it takes the record, publishes, and lets go. */
  function CommitEvents(c: nat, plan: string, root: Root): seq<Event> {
    [Take(c, plan)] + ([Commit(c)] + ([Rename(c, root)] + ([Release(Publishing(c))] + [])))
  }

  lemma ReleaseGoesThrough(s: Server, h: Holder)
    requires Inv(s) && h in s.holders
    ensures Possible(s, [Release(h)] + [])
    ensures var t := AfterAll(s, [Release(h)] + []); Inv(t) && t.root == s.root && t.holders == s.holders - {h}
  {
    LockedByHolders(s);
    StepKeepsInv(s, Release(h));
    FewerHolders(s, h);
    OneMore(s, Release(h), []);
  }

  lemma RenameGoesThrough(s: Server, c: nat, root: Root)
    requires Inv(s) && Publishing(c) in s.holders
    ensures Possible(s, [Rename(c, root)] + ([Release(Publishing(c))] + []))
    ensures var t := AfterAll(s, [Rename(c, root)] + ([Release(Publishing(c))] + []));
      Inv(t) && t.root == root && t.holders == s.holders - {Publishing(c)}
  {
    StepKeepsInv(s, Rename(c, root));
    ReleaseGoesThrough(s.(root := root), Publishing(c));
    OneMore(s, Rename(c, root), [Release(Publishing(c))] + []);
  }

  /** Of a commit that has taken its record, the rest. */
  lemma PublishGoesThrough(s: Server, c: nat, root: Root)
    requires Inv(s) && Committing(c) in s.holders && Publishing(c) !in s.holders
    ensures Possible(s, [Commit(c)] + ([Rename(c, root)] + ([Release(Publishing(c))] + [])))
    ensures var t := AfterAll(s, [Commit(c)] + ([Rename(c, root)] + ([Release(Publishing(c))] + [])));
      Inv(t) && t.root == root && t.holders == s.holders - {Committing(c)}
  {
    var a := Next(s, Commit(c));
    StepKeepsInv(s, Commit(c));
    RenameGoesThrough(a, c, root);
    assert a.holders - {Publishing(c)} == s.holders - {Committing(c)};
    OneMore(s, Commit(c), [Rename(c, root)] + ([Release(Publishing(c))] + []));
  }

  /**
   A recorded plan can be committed at any moment, also while other requests work on it; the lock is
   then free as soon as the last of these is done.
   */
  lemma CommitGoesThrough(s: Server, c: nat, plan: string, root: Root)
    requires Inv(s) && Record(plan) in s.holders && Committing(c) !in s.holders && Publishing(c) !in s.holders
    ensures Possible(s, CommitEvents(c, plan, root))
    ensures var t := AfterAll(s, CommitEvents(c, plan, root));
      && t.root == root && t.holders == s.holders - {Record(plan)}
      && (t.locked <==> s.holders - {Record(plan)} != map[])
  {
    var taken := Next(s, Take(c, plan));
    StepKeepsInv(s, Take(c, plan));
    PublishGoesThrough(taken, c, root);
    var rest := [Commit(c)] + ([Rename(c, root)] + ([Release(Publishing(c))] + []));
    OneMore(s, Take(c, plan), rest);
    assert taken.holders - {Committing(c)} == s.holders - {Record(plan)};
    LockedByHolders(AfterAll(taken, rest));
  }

  /** What a plan request goes through: prepare, scan, record. */
  function PlanEvents(k: nat, plan: string): seq<Event> {
    [Prepare(k)] + ([Scan(k)] + ([Insert(k, plan)] + []))
  }

  /** Of a plan request that has its store to itself, the rest. */
  lemma RecordGoesThrough(s: Server, k: nat, plan: string, store: nat)
    requires Inv(s) && s.holders == map[Planning(k) := store]
    ensures Possible(s, [Scan(k)] + ([Insert(k, plan)] + []))
    ensures var t := AfterAll(s, [Scan(k)] + ([Insert(k, plan)] + []));
      && Inv(t) && t.holders == map[Record(plan) := store] && t.root == s.root
      && store in t.scans && t.scans[store] == s.root
  {
    var a := Next(s, Scan(k));
    StepKeepsInv(s, Scan(k));
    StepKeepsInv(a, Insert(k, plan));
    assert Next(a, Insert(k, plan)).holders == map[Record(plan) := store];
    OneMore(a, Insert(k, plan), []);
    OneMore(s, Scan(k), [Insert(k, plan)] + []);
  }

  /** While nothing refers to a store a new plan can be made and recorded, and its scan sees the root as it is. */
  lemma PlanGoesThrough(s: Server, k: nat, plan: string)
    requires Inv(s) && s.holders == map[]
    ensures Possible(s, PlanEvents(k, plan))
    ensures var t := AfterAll(s, PlanEvents(k, plan));
      && Inv(t) && t.holders == map[Record(plan) := s.next] && t.root == s.root
      && s.next in t.scans && t.scans[s.next] == s.root
  {
    LockedByHolders(s);
    StepKeepsInv(s, Prepare(k));
    RecordGoesThrough(Next(s, Prepare(k)), k, plan, s.next);
    OneMore(s, Prepare(k), [Scan(k)] + ([Insert(k, plan)] + []));
  }

  /** While a plan is recorded, other requests can work on it: one more reference, and the record stays. */
  lemma LookGoesThrough(s: Server, k: nat, plan: string)
    requires Inv(s) && Record(plan) in s.holders && Serving(k) !in s.holders
    ensures Enabled(s, Look(k, plan))
    ensures Next(s, Look(k, plan)).holders == s.holders[Serving(k) := s.holders[Record(plan)]]
    ensures Next(s, Look(k, plan)).root == s.root && Inv(Next(s, Look(k, plan)))
  {
    StepKeepsInv(s, Look(k, plan));
  }
}
