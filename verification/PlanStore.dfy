/** The server's plans in progress: who made them, what they cover, and when they lapse. */
module PlanStore {
  import opened Wrappers
  import opened Paths
  import opened Manifest
  import opened Planner

  const PLAN_TTL_MS: u64 := 30 * 60 * 1000

  datatype PlanDirection = PullPlan | PushPlan

  datatype TransferMeta = TransferMeta(sizeBytes: u64, modifiedMs: u64)

  /** A record keeps the store it was planned on; `store` names that store. */
  datatype PlanRecord = PlanRecord(
    store: nat,
    direction: PlanDirection,
    deviceId: string,
    mode: SyncMode,
    transfer: map<Path, TransferMeta>,
    delete: seq<Path>,
    createdAtMs: u64)

  type Records = map<string, PlanRecord>

  datatype Snapshot = Snapshot(store: nat, direction: PlanDirection, transfer: map<Path, TransferMeta>)

  /** The transfers of a plan, by path. */
  function MetaOf(transfer: seq<Entry>): map<Path, TransferMeta> {
    if transfer == [] then map[]
    else
      var last := transfer[|transfer| - 1];
      MetaOf(transfer[..|transfer| - 1])[last.path := TransferMeta(last.size, last.mtime)]
  }

  lemma {:induction false} MetaOfLast(transfer: seq<Entry>, p: Path)
    ensures p in MetaOf(transfer) <==> LastFor(transfer, p).Some?
    ensures p in MetaOf(transfer) ==>
      MetaOf(transfer)[p] == TransferMeta(LastFor(transfer, p).value.size, LastFor(transfer, p).value.mtime)
  {
    if transfer != [] {
      MetaOfLast(transfer[..|transfer| - 1], p);
    }
  }

  /** Exactly the planned paths have an entry, with the planned size and time. */
  lemma MetaOfMeaning(transfer: seq<Entry>, p: Path)
    ensures p in MetaOf(transfer) <==> ListsPath(transfer, p)
    ensures p in MetaOf(transfer) ==>
      var meta := MetaOf(transfer)[p];
      Entry(p, meta.sizeBytes, meta.modifiedMs) in transfer
  {
    MetaOfLast(transfer, p);
    LastForMeaning(transfer, p);
  }

  predicate Alive(record: PlanRecord, now: u64) { WrappingAdd(record.createdAtMs, PLAN_TTL_MS) > now }

  /** `retain_unexpired`. */
  function Unexpired(records: Records, now: u64): Records {
    map id | id in records && Alive(records[id], now) :: records[id]
  }

  /** What any request sees of a plan: missing or lapsed, somebody else's, or the record. */
  function Visible(records: Records, id: string, deviceId: string, now: u64): Result<PlanRecord> {
    if id !in records || !Alive(records[id], now) then Err(NotFound)
    else if records[id].deviceId != deviceId then Err(Unauthorized)
    else Ok(records[id])
  }

  /** The calls of a server's life; `allowed` is the verdict of a take's validator. */
  datatype Call = Insert(now: u64, id: string, record: PlanRecord)
                | Look(now: u64)
                | Take(now: u64, id: string, deviceId: string, allowed: bool)
                | Timer(now: u64, id: string)

  ghost predicate Taken(records: Records, call: Call) {
    call.Take? && call.allowed && Visible(records, call.id, call.deviceId, call.now).Ok?
  }

  /** The validator's verdict on the record a take would see. */
  ghost predicate Approves(validate: PlanRecord -> Result<()>, records: Records, id: string, deviceId: string,
                           now: u64) {
    var seen := Visible(records, id, deviceId, now);
    seen.Ok? && validate(seen.value).Ok?
  }

  ghost function After(records: Records, call: Call): Records {
    match call
    case Insert(now, id, record) => Unexpired(records, now)[id := record]
    case Look(now) => Unexpired(records, now)
    case Take(now, id, _, _) => if Taken(records, call) then Unexpired(records, now) - {id} else Unexpired(records, now)
    case Timer(_, id) => records - {id}
  }

  /** The plan is there, and its lifetime is not over. */
  ghost predicate Held(records: Records, id: string, now: u64) {
    id in records && WrappingAdd(records[id].createdAtMs, 1_800_000) > now
  }

  /** `PlanStore`, with the clock as an input of every call. */
  class PlanStore {
    var records: Records

    constructor ()
      ensures records == map[]
    {
      records := map[];
    }

    method RetainUnexpired(now: u64)
      modifies this
      ensures records == Unexpired(old(records), now)
    {
      records := map id | id in records && Alive(records[id], now) :: records[id];
    }

    /** `insert`; `timed` says that a timer was started to remove the record when it lapses. */
    method Insert(deviceId: string, direction: PlanDirection, mode: SyncMode, plan: Plan, store: nat,
                  databaseId: string, now: u64)
      returns (timed: bool)
      modifies this
      ensures records == After(old(records), Call.Insert(now, plan.id,
        PlanRecord(store, direction, deviceId, mode, MetaOf(plan.transfer), plan.delete, now)))
      ensures timed <==> databaseId in plan.selection
    {
      RetainUnexpired(now);
      var transfer: map<Path, TransferMeta> := map[];
      for i := 0 to |plan.transfer|
        invariant transfer == MetaOf(plan.transfer[..i]) && records == Unexpired(old(records), now)
      {
        assert plan.transfer[..i + 1][..i] == plan.transfer[..i];
        transfer := transfer[plan.transfer[i].path := TransferMeta(plan.transfer[i].size, plan.transfer[i].mtime)];
      }
      assert plan.transfer[..|plan.transfer|] == plan.transfer;
      records := records[plan.id := PlanRecord(store, direction, deviceId, mode, transfer, plan.delete, now)];
      timed := databaseId in plan.selection;
    }

    /** The timer of a plan that owns the database lock. */
    method TimerFires(id: string, ghost now: u64)
      modifies this
      ensures records == After(old(records), Timer(now, id))
    {
      records := records - {id};
    }

    /** `snapshot`. */
    method TakeSnapshot(id: string, deviceId: string, now: u64) returns (r: Result<Snapshot>)
      modifies this
      ensures records == After(old(records), Look(now))
      ensures r == if !Held(old(records), id, now) then Err(NotFound)
                   else if old(records)[id].deviceId != deviceId then Err(Unauthorized)
                   else Ok(Snapshot(old(records)[id].store, old(records)[id].direction, old(records)[id].transfer))
    {
      RetainUnexpired(now);
      if id !in records {
        return Err(NotFound);
      }
      var record := records[id];
      if record.deviceId != deviceId {
        return Err(Unauthorized);
      }
      return Ok(Snapshot(record.store, record.direction, record.transfer));
    }

    /** `transfer_meta`. */
    method Meta(id: string, deviceId: string, path: Path, now: u64)
      returns (r: Result<(PlanDirection, TransferMeta, nat)>)
      modifies this
      ensures records == After(old(records), Look(now))
      ensures r == if !Held(old(records), id, now) then Err(NotFound)
                   else if old(records)[id].deviceId != deviceId then Err(Unauthorized)
                   else if path !in old(records)[id].transfer then Err(NotFound)
                   else Ok((old(records)[id].direction, old(records)[id].transfer[path], old(records)[id].store))
    {
      RetainUnexpired(now);
      if id !in records {
        return Err(NotFound);
      }
      var record := records[id];
      if record.deviceId != deviceId {
        return Err(Unauthorized);
      }
      if path !in record.transfer {
        return Err(NotFound);
      }
      return Ok((record.direction, record.transfer[path], record.store));
    }

    /** `take_if`: only an accepted take removes the record. */
    method TakeIf(id: string, deviceId: string, validate: PlanRecord -> Result<()>, now: u64)
      returns (r: Result<PlanRecord>)
      modifies this
      ensures r == if !Held(old(records), id, now) then Err(NotFound)
                   else if old(records)[id].deviceId != deviceId then Err(Unauthorized)
                   else if validate(old(records)[id]).Err? then Err(validate(old(records)[id]).error)
                   else Ok(old(records)[id])
      ensures forall other :: other in records <==> Held(old(records), other, now) && !(other == id && r.Ok?)
      ensures forall other :: other in records ==>
        other in old(records) && records[other] == old(records)[other]
      ensures records
        == After(old(records), Take(now, id, deviceId, Approves(validate, old(records), id, deviceId, now)))
      ensures r.Ok?
        <==> Taken(old(records), Take(now, id, deviceId, Approves(validate, old(records), id, deviceId, now)))
    {
      RetainUnexpired(now);
      if id !in records {
        return Err(NotFound);
      }
      var record := records[id];
      if record.deviceId != deviceId {
        return Err(Unauthorized);
      }
      var verdict := validate(record);
      if verdict.Err? {
        return Err(verdict.error);
      }
      records := records - {id};
      return Ok(record);
    }
  }

  // ---------------------------------------------------------------- runs of calls

  ghost function RecordsBefore(run: seq<Call>, n: nat): Records
    requires n <= |run|
  {
    if n == 0 then map[] else After(RecordsBefore(run, n - 1), run[n - 1])
  }

  ghost predicate TakenAt(run: seq<Call>, j: nat) {
    j < |run| && Taken(RecordsBefore(run, j), run[j])
  }

  /** Plan ids are fresh, records are stamped with the clock, and the clock never goes back nor near the end of u64. */
  ghost predicate Orderly(run: seq<Call>) {
    && (forall i, j :: 0 <= i <= j < |run| ==> run[i].now <= run[j].now)
    && (forall i, j :: 0 <= i < j < |run| && run[i].Insert? && run[j].Insert? ==> run[i].id != run[j].id)
    && (forall i :: 0 <= i < |run| && run[i].Insert? ==>
          run[i].record.createdAtMs == run[i].now && run[i].now + PLAN_TTL_MS < U64_LIMIT)
  }

  /** Every record held comes from its own insertion, and no take of it has succeeded since. */
  lemma {:induction false} RecordOrigin(run: seq<Call>, n: nat, id: string) returns (i: nat)
    requires Orderly(run) && n <= |run| && id in RecordsBefore(run, n)
    ensures i < n && run[i].Insert? && run[i].id == id && run[i].record == RecordsBefore(run, n)[id]
    ensures forall j :: i < j < n && TakenAt(run, j) ==> run[j].id != id
  {
    var call := run[n - 1];
    if call.Insert? && call.id == id {
      i := n - 1;
    } else {
      i := RecordOrigin(run, n - 1, id);
    }
  }

  /** A plan is taken only by the device that inserted it, within its lifetime, and exactly as inserted. */
  lemma TakenByInserter(run: seq<Call>, j: nat) returns (i: nat)
    requires Orderly(run) && TakenAt(run, j)
    ensures i < j && run[i].Insert? && run[i].id == run[j].id
    ensures run[i].record.deviceId == run[j].deviceId
    ensures run[j].now < run[i].now + 1_800_000
    ensures Visible(RecordsBefore(run, j), run[j].id, run[j].deviceId, run[j].now) == Ok(run[i].record)
  {
    i := RecordOrigin(run, j, run[j].id);
  }

  /** A plan is taken at most once. */
  lemma TakenOnce(run: seq<Call>, j: nat, k: nat)
    requires Orderly(run) && j < k && TakenAt(run, j) && TakenAt(run, k)
    ensures run[j].id != run[k].id
  {
    if run[j].id == run[k].id {
      var i := RecordOrigin(run, k, run[k].id);
      var i' := RecordOrigin(run, j, run[j].id);
    }
  }

  /** A refused take changes nothing but what has lapsed anyway. */
  lemma RefusedTakeKeeps(run: seq<Call>, j: nat, id: string)
    requires j < |run| && run[j].Take? && !TakenAt(run, j)
    requires id in RecordsBefore(run, j) && Alive(RecordsBefore(run, j)[id], run[j].now)
    ensures id in RecordsBefore(run, j + 1) && RecordsBefore(run, j + 1)[id] == RecordsBefore(run, j)[id]
  {
  }

  /** Timers fire no earlier than the plan lapses. */
  ghost predicate Timely(run: seq<Call>) {
    forall i, j :: 0 <= i < j < |run| && run[i].Insert? && run[j].Timer? && run[i].id == run[j].id ==>
      run[i].now + PLAN_TTL_MS <= run[j].now
  }

  /** A plan stays available to its owner until it is taken or lapses, whatever else happens. */
  lemma {:induction false} AvailableUntilTaken(run: seq<Call>, i: nat, n: nat)
    requires Orderly(run) && Timely(run) && i < n <= |run| && run[i].Insert?
    requires run[n - 1].now < run[i].now + 1_800_000
    requires forall j :: i < j < n && TakenAt(run, j) ==> run[j].id != run[i].id
    ensures run[i].id in RecordsBefore(run, n) && RecordsBefore(run, n)[run[i].id] == run[i].record
  {
    if n > i + 1 {
      assert run[n - 2].now <= run[n - 1].now;
      AvailableUntilTaken(run, i, n - 1);
      assert TakenAt(run, n - 1) ==> run[n - 1].id != run[i].id;
    }
  }
}
