/** The transfer scheduler's log: which entries were started and finished, how, and in what order. */
module Schedule {
  import opened Wrappers
  import opened Seqs

  /** How a transfer task ends; a failed one says whether its target may have changed all the same. */
  datatype TaskOutcome = Done | TaskFailed(error: SyncError, targetChanged: bool) | Panicked

  datatype Event = Start(index: nat) | Finish(index: nat, outcome: TaskOutcome) {
    predicate Fails() { Finish? && !outcome.Done? }
  }

  ghost function Started(log: seq<Event>): nat {
    if log == [] then 0 else Started(log[..|log| - 1]) + if log[|log| - 1].Start? then 1 else 0
  }

  ghost function OpenAfter(open: set<nat>, e: Event): set<nat> {
    if e.Start? then open + {e.index} else open - {e.index}
  }

  /** Started and not yet finished. */
  ghost function Open(log: seq<Event>): set<nat> {
    if log == [] then {} else OpenAfter(Open(log[..|log| - 1]), log[|log| - 1])
  }

  ghost predicate Failed(log: seq<Event>) {
    exists k :: 0 <= k < |log| && log[k].Fails()
  }

  /** No further entry can be at work: the limit is reached, or all are started. */
  ghost predicate Busy(log: seq<Event>, total: nat, limit: nat) { |Open(log)| == limit || Started(log) == total }

  /**
   Starts go in plan order, below the limit and before any failure; only open entries finish, and
   while nothing has failed no finished one is collected before as many are at work as can be.
   */
  ghost predicate Admissible(log: seq<Event>, e: Event, total: nat, limit: nat) {
    if e.Start? then e.index == Started(log) < total && |Open(log)| < limit && !Failed(log)
    else e.index in Open(log) && (Failed(log) || Busy(log, total, limit))
  }

  /**
   A schedule of `total` entries: entries start in plan order, each once; never more than `limit`
   are open, and until a failure that many while there are entries left; nothing starts after a
   failure; only open entries finish.
   */
  ghost predicate IsSchedule(log: seq<Event>, total: nat, limit: nat) {
    log == [] ||
    (IsSchedule(log[..|log| - 1], total, limit) && Admissible(log[..|log| - 1], log[|log| - 1], total, limit))
  }

  lemma Append(log: seq<Event>, e: Event, total: nat, limit: nat)
    ensures Open(log + [e]) == OpenAfter(Open(log), e)
    ensures Started(log + [e]) == Started(log) + if e.Start? then 1 else 0
    ensures Failed(log + [e]) <==> Failed(log) || e.Fails()
    ensures IsSchedule(log + [e], total, limit) <==> IsSchedule(log, total, limit) && Admissible(log, e, total, limit)
  {
    var next := log + [e];
    assert next[..|next| - 1] == log;
    assert forall k :: 0 <= k < |log| ==> next[k] == log[k];
    assert next[|log|] == e;
  }

  /** In every schedule the entries started are a prefix of the plan and at most `limit` are ever open. */
  lemma {:induction false} ScheduleBounds(log: seq<Event>, total: nat, limit: nat)
    requires IsSchedule(log, total, limit)
    ensures Started(log) <= total
    ensures |Open(log)| <= limit
    ensures forall i :: i in Open(log) ==> i < Started(log)
  {
    if log != [] {
      var init := log[..|log| - 1];
      ScheduleBounds(init, total, limit);
      match log[|log| - 1]
      case Start(i) =>
      case Finish(i, _) => assert |Open(init) - {i}| == |Open(init)| - 1;
    }
  }

  /** Prefixes of a schedule are schedules: the bounds hold at every moment. */
  lemma {:induction false} SchedulePrefix(log: seq<Event>, n: nat, total: nat, limit: nat)
    requires IsSchedule(log, total, limit) && n <= |log|
    ensures IsSchedule(log[..n], total, limit)
    decreases |log|
  {
    if n < |log| {
      var init := log[..|log| - 1];
      SchedulePrefix(init, n, total, limit);
      assert init[..n] == log[..n];
    } else {
      assert log[..n] == log;
    }
  }

  /** After a failure no entry starts any more. */
  lemma {:induction false} NothingStartsAfterFailure(log: seq<Event>, total: nat, limit: nat, k: nat, m: nat)
    requires IsSchedule(log, total, limit)
    requires k < m < |log| && log[k].Fails()
    ensures log[m].Finish?
    decreases |log|
  {
    var init := log[..|log| - 1];
    if m < |log| - 1 {
      NothingStartsAfterFailure(init, total, limit, k, m);
    } else {
      assert init[k] == log[k];
    }
  }

  /** Each entry is started at most once, in plan order. */
  lemma {:induction false} StartsInOrder(log: seq<Event>, total: nat, limit: nat, k: nat)
    requires IsSchedule(log, total, limit)
    requires k < |log| && log[k].Start?
    ensures log[k].index == Started(log[..k])
    decreases |log|
  {
    if k < |log| - 1 {
      var init := log[..|log| - 1];
      StartsInOrder(init, total, limit, k);
      assert init[..k] == log[..k];
    }
  }

  /** A run without failure with as many at work as can be, entry `i` and the one started last among them. */
  ghost predicate Holds(log: seq<Event>, i: nat, started: nat, total: nat, limit: nat) {
    && IsSchedule(log, total, limit) && !Failed(log) && Started(log) == started
    && |Open(log)| == (if started < limit then started else limit)
    && i in Open(log) && started > 0 && started - 1 in Open(log)
  }

  lemma StartMore(log: seq<Event>, i: nat, started: nat, total: nat, limit: nat)
    requires Holds(log, i, started, total, limit) && started < limit && started < total
    ensures Holds(log + [Start(started)], i, started + 1, total, limit)
    ensures Holds(log + [Start(started)], started, started + 1, total, limit)
  {
    ScheduleBounds(log, total, limit);
    Append(log, Start(started), total, limit);
  }

  lemma SlideOn(log: seq<Event>, i: nat, x: nat, started: nat, total: nat, limit: nat)
    requires Holds(log, i, started, total, limit) && limit <= started < total && x in Open(log)
    ensures x != i ==> Holds(log + [Finish(x, Done)] + [Start(started)], i, started + 1, total, limit)
    ensures Holds(log + [Finish(x, Done)] + [Start(started)], started, started + 1, total, limit)
  {
    ScheduleBounds(log, total, limit);
    Append(log, Finish(x, Done), total, limit);
    assert |Open(log) - {x}| == |Open(log)| - 1;
    Append(log + [Finish(x, Done)], Start(started), total, limit);
  }

  /** Entry `i` can stay at work while others come and go. */
  lemma {:induction false} Outlasts(i: nat, started: nat, total: nat, limit: nat) returns (log: seq<Event>)
    requires i < started <= total && limit > 1
    ensures Holds(log, i, started, total, limit)
    decreases started
  {
    if started == 1 {
      Append([], Start(0), total, limit);
      assert [] + [Start(0)] == [Start(0)];
      return [Start(0)];
    }
    var last := started - 1;
    var before := Outlasts(if i < last then i else last - 1, last, total, limit);
    if last < limit {
      StartMore(before, if i < last then i else last - 1, last, total, limit);
      return before + [Start(last)];
    }
    var x := OtherThan(Open(before), if i < last then i else last - 1);
    SlideOn(before, if i < last then i else last - 1, x, last, total, limit);
    return before + [Finish(x, Done)] + [Start(last)];
  }

  lemma OtherThan(open: set<nat>, i: nat) returns (x: nat)
    requires |open| > 1
    ensures x in open && x != i
  {
    if open - {i} == {} {
      assert open <= {i};
      SubsetSize(open, {i});
    }
    x :| x in open - {i};
  }

  lemma SubsetSize(a: set<nat>, b: set<nat>)
    requires a <= b
    ensures |a| <= |b|
  {
    assert b == a + (b - a);
  }

  /** Entries `i` and `j` are at work together, and `j` was started last. */
  ghost predicate Together(log: seq<Event>, i: nat, j: nat, total: nat, limit: nat) {
    IsSchedule(log, total, limit) && !Failed(log) && {i, j} <= Open(log) && Started(log) == j + 1
  }

  /**
   Where two tasks may run at a time, any two entries of the plan can be at work together: while the
   first stays open, every later entry is started in its turn.
   */
  lemma AnyTwoTogether(i: nat, j: nat, total: nat, limit: nat) returns (log: seq<Event>)
    requires i < j < total && limit > 1
    ensures Together(log, i, j, total, limit)
  {
    log := Outlasts(i, j + 1, total, limit);
  }

  // ---------------------------------------------------------------- how tasks ended

  /** What a failed task reports as its error. */
  function ErrorOf(outcome: TaskOutcome): SyncError {
    if outcome.TaskFailed? then outcome.error else Internal
  }

  ghost predicate FirstFailure(log: seq<Event>, k: nat) {
    k < |log| && log[k].Fails() && forall m :: 0 <= m < k ==> !log[m].Fails()
  }

  /** `error` is what the first task that failed reports. */
  ghost predicate FirstErrorIs(log: seq<Event>, error: SyncError) {
    exists k: nat :: FirstFailure(log, k) && error == ErrorOf(log[k].outcome)
  }

  /** Some failed task says that its target changed. */
  ghost predicate Flagged(log: seq<Event>) {
    exists k :: 0 <= k < |log| && log[k].Finish? && log[k].outcome.TaskFailed? && log[k].outcome.targetChanged
  }

  ghost predicate Crashed(log: seq<Event>) { exists k :: 0 <= k < |log| && log[k].Finish? && log[k].outcome.Panicked? }

  /** Some task finished, crashed or says that its target may have changed. */
  ghost predicate Touched(log: seq<Event>) {
    exists k :: 0 <= k < |log| && log[k].Finish? && (log[k].outcome.TaskFailed? ==> log[k].outcome.targetChanged)
  }

  lemma Signs(log: seq<Event>, e: Event)
    ensures Flagged(log + [e]) <==>
      Flagged(log) || (e.Finish? && e.outcome.TaskFailed? && e.outcome.targetChanged)
    ensures Crashed(log + [e]) <==> Crashed(log) || (e.Finish? && e.outcome.Panicked?)
    ensures Touched(log + [e]) <==>
      Touched(log) || (e.Finish? && (e.outcome.TaskFailed? ==> e.outcome.targetChanged))
  {
    var next := log + [e];
    assert next[|log|] == e;
    assert forall k :: 0 <= k < |log| ==> next[k] == log[k];
  }

  lemma FirstErrorStays(log: seq<Event>, e: Event, error: SyncError)
    ensures FirstErrorIs(log, error) ==> FirstErrorIs(log + [e], error)
    ensures !Failed(log) && e.Fails() && error == ErrorOf(e.outcome) ==> FirstErrorIs(log + [e], error)
  {
    var next := log + [e];
    assert next[|log|] == e;
    if k: nat :| FirstFailure(log, k) && error == ErrorOf(log[k].outcome) {
      assert FirstFailure(next, k);
    } else if !Failed(log) && e.Fails() {
      assert FirstFailure(next, |log|);
    }
  }

  /** Signs of trouble show in the log of a failed run only. */
  lemma FailedSigns(log: seq<Event>)
    ensures Flagged(log) || Crashed(log) ==> Failed(log)
  {
    if Flagged(log) {
      var k :| 0 <= k < |log| && log[k].Finish? && log[k].outcome.TaskFailed? && log[k].outcome.targetChanged;
      assert log[k].Fails();
    }
    if Crashed(log) {
      var k :| 0 <= k < |log| && log[k].Finish? && log[k].outcome.Panicked?;
      assert log[k].Fails();
    }
  }

  /** A scheduler's record of the first error: there is one exactly if a task has failed. */
  ghost predicate NotedError(log: seq<Event>, firstError: Option<SyncError>) {
    match firstError
    case None => !Failed(log)
    case Some(error) => Failed(log) && FirstErrorIs(log, error)
  }

  lemma NotedStart(log: seq<Event>, index: nat, firstError: Option<SyncError>)
    requires NotedError(log, firstError)
    ensures NotedError(log + [Start(index)], firstError)
    ensures Touched(log + [Start(index)]) <==> Touched(log)
  {
    Append(log, Start(index), 0, 0);
    Signs(log, Start(index));
    if firstError.Some? { FirstErrorStays(log, Start(index), firstError.value); }
  }

  lemma NotedFinish(log: seq<Event>, index: nat, outcome: TaskOutcome, firstError: Option<SyncError>)
    requires NotedError(log, firstError)
    ensures NotedError(log + [Finish(index, outcome)],
                       if firstError.None? && !outcome.Done? then Some(ErrorOf(outcome)) else firstError)
  {
    Append(log, Finish(index, outcome), 0, 0);
    FirstErrorStays(log, Finish(index, outcome), if firstError.None? then ErrorOf(outcome) else firstError.value);
  }

  /** Of an empty plan nothing is started, so nothing fails. */
  lemma {:induction false} NothingStarted(log: seq<Event>, limit: nat)
    requires IsSchedule(log, 0, limit)
    ensures log == []
  {
    if log != [] {
      NothingStarted(log[..|log| - 1], limit);
    }
  }

  // ---------------------------------------------------------------- the join set

  /** A scheduler's bookkeeping agrees with its log: the tasks in flight, and how many entries were started. */
  ghost predicate Tracks(log: seq<Event>, inFlight: seq<nat>, started: nat, total: nat, limit: nat) {
    && IsSchedule(log, total, limit)
    && Distinct(inFlight) && Elems(inFlight) == Open(log)
    && started == Started(log) <= total
  }

  lemma {:induction false} DistinctCount(s: seq<nat>)
    requires Distinct(s)
    ensures |Elems(s)| == |s|
  {
    if s != [] {
      var init := s[..|s| - 1];
      DistinctCount(init);
      assert forall i :: 0 <= i < |init| ==> init[i] != s[|s| - 1];
      assert Elems(s) == Elems(init) + {s[|s| - 1]};
    }
  }

  function RemoveAt(s: seq<nat>, k: nat): (r: seq<nat>)
    requires k < |s|
    ensures |r| == |s| - 1
  {
    s[..k] + s[k + 1..]
  }

  lemma RemoveAtElems(s: seq<nat>, k: nat)
    requires k < |s| && Distinct(s)
    ensures Distinct(RemoveAt(s, k)) && Elems(RemoveAt(s, k)) == Elems(s) - {s[k]}
  {
    var r := RemoveAt(s, k);
    assert forall i :: 0 <= i < |r| ==> r[i] == s[if i < k then i else i + 1];
    forall x | x in s && x != s[k]
      ensures x in r
    {
      var i :| 0 <= i < |s| && s[i] == x;
      assert r[if i < k then i else i - 1] == x;
    }
  }

  lemma TrackStart(log: seq<Event>, inFlight: seq<nat>, started: nat, total: nat, limit: nat)
    requires Tracks(log, inFlight, started, total, limit) && !Failed(log)
    requires started < total && |inFlight| < limit
    ensures Tracks(log + [Start(started)], inFlight + [started], started + 1, total, limit)
    ensures !Failed(log + [Start(started)])
  {
    ScheduleBounds(log, total, limit);
    DistinctCount(inFlight);
    Append(log, Start(started), total, limit);
    assert forall x :: x in inFlight ==> x in Elems(inFlight);
  }

  lemma TrackFinish(log: seq<Event>, inFlight: seq<nat>, started: nat, total: nat, limit: nat, k: nat,
                    outcome: TaskOutcome)
    requires Tracks(log, inFlight, started, total, limit) && k < |inFlight|
    requires Failed(log) || |inFlight| == limit || started == total
    ensures inFlight[k] < started
    ensures Tracks(log + [Finish(inFlight[k], outcome)], RemoveAt(inFlight, k), started, total, limit)
    ensures Failed(log + [Finish(inFlight[k], outcome)]) <==> Failed(log) || !outcome.Done?
  {
    ScheduleBounds(log, total, limit);
    DistinctCount(inFlight);
    assert inFlight[k] in Elems(inFlight);
    RemoveAtElems(inFlight, k);
    Append(log, Finish(inFlight[k], outcome), total, limit);
  }
}
