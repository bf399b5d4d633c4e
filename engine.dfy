/**
 * The parking session engine of the application component (App.tsx): the
 * four collections it keeps (slots, cars, records, payments) and the
 * operations the front desk invokes on them.
 *
 * The collection updates are written, as in the source, with `find`, `map`
 * and `filter`; the functions below name each such update and state its
 * effect element by element. Ids that the source draws from the clock are
 * parameters here, and so is the current time.
 */
module Engine {

  import opened Types
  import opened Sequences
  import opened Billing
  import opened Views

  // ---------------------------------------------------------------------
  // Lookups
  // ---------------------------------------------------------------------

  /** `slots.find(s => s.id === id)`, as an index. */
  function FindSlot(slots: seq<ParkingSlot>, id: string): (r: Option<nat>)
    ensures r.Some? ==> r.value < |slots| && slots[r.value].id == id
                        && forall j :: 0 <= j < r.value ==> slots[j].id != id
    ensures r.None? ==> forall j :: 0 <= j < |slots| ==> slots[j].id != id
  {
    FindIndex(slots, (s: ParkingSlot) => s.id == id)
  }

  /** `records.find(r => r.id === id)`, as an index. */
  function FindRecord(records: seq<ParkingRecord>, id: string): (r: Option<nat>)
    ensures r.Some? ==> r.value < |records| && records[r.value].id == id
                        && forall j :: 0 <= j < r.value ==> records[j].id != id
    ensures r.None? ==> forall j :: 0 <= j < |records| ==> records[j].id != id
  {
    FindIndex(records, (r: ParkingRecord) => r.id == id)
  }

  /** `slots.find(s => s.status === AVAILABLE)`: the first free slot in list order. */
  function FirstAvailableSlot(slots: seq<ParkingSlot>): (r: Option<nat>)
    ensures r.Some? ==> r.value < |slots| && slots[r.value].status == Available
                        && forall j :: 0 <= j < r.value ==> slots[j].status == Occupied
    ensures r.None? ==> forall j :: 0 <= j < |slots| ==> slots[j].status == Occupied
  {
    FindIndex(slots, (s: ParkingSlot) => s.status == Available)
  }

  // ---------------------------------------------------------------------
  // Collection updates
  // ---------------------------------------------------------------------

  /** The slot update of `startParking`: every slot with this id becomes Occupied. */
  function OccupySlot(slots: seq<ParkingSlot>, id: string): (r: seq<ParkingSlot>)
    ensures |r| == |slots|
    ensures forall i :: 0 <= i < |slots| ==>
              r[i] == if slots[i].id == id then slots[i].(status := Occupied) else slots[i]
  {
    MapWhere(slots, (s: ParkingSlot) => s.id == id, (s: ParkingSlot) => s.(status := Occupied))
  }

  /** The slot update of `exitParking`: every slot with this slot number becomes Available. */
  function ReleaseSlots(slots: seq<ParkingSlot>, slotNumber: string): (r: seq<ParkingSlot>)
    ensures |r| == |slots|
    ensures forall i :: 0 <= i < |slots| ==>
              r[i] == if slots[i].slotNumber == slotNumber then slots[i].(status := Available) else slots[i]
  {
    MapWhere(slots, (s: ParkingSlot) => s.slotNumber == slotNumber,
             (s: ParkingSlot) => s.(status := Available))
  }

  /** The record update of `exitParking`: every record with this id is replaced by `updated`. */
  function ReplaceRecords(records: seq<ParkingRecord>, id: string, updated: ParkingRecord): (r: seq<ParkingRecord>)
    ensures |r| == |records|
    ensures forall i :: 0 <= i < |records| ==>
              r[i] == if records[i].id == id then updated else records[i]
  {
    MapWhere(records, (x: ParkingRecord) => x.id == id, _ => updated)
  }

  /** `deleteRecord`: the records without this id, in order; slots and payments are not involved. */
  function RemoveRecords(records: seq<ParkingRecord>, id: string): (r: seq<ParkingRecord>)
    ensures IsSubsequence(r, records)
    ensures forall i :: 0 <= i < |r| ==> r[i].id != id
    ensures forall x :: multiset(r)[x] == if x.id != id then multiset(records)[x] else 0
  {
    Filter(records, (x: ParkingRecord) => x.id != id)
  }

  /**
   * A `Partial<ParkingRecord>`: `None` for a key that is absent. An optional
   * field may be present with the value `undefined`, which is `Some(None)`.
   */
  datatype RecordPatch = RecordPatch(
    id: Option<string>,
    plateNumber: Option<string>,
    slotNumber: Option<string>,
    entryTime: Option<int>,
    exitTime: Option<Option<int>>,
    duration: Option<Option<int>>,
    amountPaid: Option<Option<int>>,
    status: Option<RecordStatus>)

  const EMPTY_PATCH := RecordPatch(None, None, None, None, None, None, None, None)

  /** `{ ...r, ...patch }`: the keys present in the patch override those of r. */
  function Patched(r: ParkingRecord, patch: RecordPatch): (res: ParkingRecord)
    ensures res.id == (if patch.id.Some? then patch.id.value else r.id)
    ensures res.plateNumber == (if patch.plateNumber.Some? then patch.plateNumber.value else r.plateNumber)
    ensures res.slotNumber == (if patch.slotNumber.Some? then patch.slotNumber.value else r.slotNumber)
    ensures res.entryTime == (if patch.entryTime.Some? then patch.entryTime.value else r.entryTime)
    ensures res.exitTime == (if patch.exitTime.Some? then patch.exitTime.value else r.exitTime)
    ensures res.duration == (if patch.duration.Some? then patch.duration.value else r.duration)
    ensures res.amountPaid == (if patch.amountPaid.Some? then patch.amountPaid.value else r.amountPaid)
    ensures res.status == (if patch.status.Some? then patch.status.value else r.status)
  {
    ParkingRecord(
      patch.id.GetOr(r.id),
      patch.plateNumber.GetOr(r.plateNumber),
      patch.slotNumber.GetOr(r.slotNumber),
      patch.entryTime.GetOr(r.entryTime),
      patch.exitTime.GetOr(r.exitTime),
      patch.duration.GetOr(r.duration),
      patch.amountPaid.GetOr(r.amountPaid),
      patch.status.GetOr(r.status))
  }

  /** The edited record as the edit dialog passes it: every key of `e`, optional keys only when set. */
  function AsPatch(e: ParkingRecord): (p: RecordPatch)
    ensures forall r :: Patched(r, p).(exitTime := e.exitTime, duration := e.duration, amountPaid := e.amountPaid) == e
    ensures forall r :: e.exitTime.None? ==> Patched(r, p).exitTime == r.exitTime
    ensures forall r :: e.duration.None? ==> Patched(r, p).duration == r.duration
    ensures forall r :: e.amountPaid.None? ==> Patched(r, p).amountPaid == r.amountPaid
    ensures e.exitTime.Some? && e.duration.Some? && e.amountPaid.Some? ==> forall r :: Patched(r, p) == e
    ensures Patched(e, p) == e
  {
    RecordPatch(
      Some(e.id), Some(e.plateNumber), Some(e.slotNumber), Some(e.entryTime),
      if e.exitTime.Some? then Some(e.exitTime) else None,
      if e.duration.Some? then Some(e.duration) else None,
      if e.amountPaid.Some? then Some(e.amountPaid) else None,
      Some(e.status))
  }

  /**
   * Saving the edit dialog, which lets the operator retype the plate and the
   * slot number of a record, changes exactly those two fields.
   */
  lemma EditDialogChangesPlateAndSlot(r: ParkingRecord, plate: string, slotNumber: string)
    ensures Patched(r, AsPatch(r.(plateNumber := plate, slotNumber := slotNumber)))
            == r.(plateNumber := plate, slotNumber := slotNumber)
  {
  }

  /** The record update of `updateRecord`: every record with this id is merged with the patch. */
  function PatchRecords(records: seq<ParkingRecord>, id: string, patch: RecordPatch): (r: seq<ParkingRecord>)
    ensures |r| == |records|
    ensures forall i :: 0 <= i < |records| ==>
              r[i] == if records[i].id == id then Patched(records[i], patch) else records[i]
  {
    MapWhere(records, (x: ParkingRecord) => x.id == id, (x: ParkingRecord) => Patched(x, patch))
  }

  /**
   * A record as `exitParking` completes it: same id, plate, slot and entry,
   * status Completed, and all three optional fields set from the fee.
   */
  function CheckOut(rec: ParkingRecord, exitTime: int, rate: nat): (r: ParkingRecord)
    ensures r.id == rec.id && r.plateNumber == rec.plateNumber
    ensures r.slotNumber == rec.slotNumber && r.entryTime == rec.entryTime
    ensures r.status == Completed && r.exitTime == Some(exitTime)
    ensures r.duration == Some(CalculateFee(rec.entryTime, exitTime, rate).hours)
    ensures r.amountPaid == Some(CalculateFee(rec.entryTime, exitTime, rate).amount)
    ensures r.duration.Some? && r.duration.value >= 1
    ensures exitTime - rec.entryTime <= r.duration.value * MS_PER_HOUR
    ensures r.duration.value > 1 ==> (r.duration.value - 1) * MS_PER_HOUR < exitTime - rec.entryTime
    ensures r.amountPaid == Some(r.duration.value * rate)
  {
    var fee := CalculateFee(rec.entryTime, exitTime, rate);
    rec.(exitTime := Some(exitTime), duration := Some(fee.hours), amountPaid := Some(fee.amount),
         status := Completed)
  }

  /** The four slots of a first run, before anything has been stored. */
  function InitialSlots(): (s: seq<ParkingSlot>)
    ensures |s| == 4
    ensures forall i :: 0 <= i < |s| ==> s[i].status == Available
    ensures UniqueSlotIds(s) && UniqueSlotNumbers(s)
  {
    [ ParkingSlot("1", "P-01", Available),
      ParkingSlot("2", "P-02", Available),
      ParkingSlot("3", "P-03", Available),
      ParkingSlot("4", "P-04", Available) ]
  }

  // ---------------------------------------------------------------------
  // Occupancy: a condition the source does not enforce
  // ---------------------------------------------------------------------

  predicate UniqueSlotIds(slots: seq<ParkingSlot>)
  {
    forall i, j :: 0 <= i < j < |slots| ==> slots[i].id != slots[j].id
  }

  predicate UniqueSlotNumbers(slots: seq<ParkingSlot>)
  {
    forall i, j :: 0 <= i < j < |slots| ==> slots[i].slotNumber != slots[j].slotNumber
  }

  predicate UniqueRecordIds(records: seq<ParkingRecord>)
  {
    forall i, j :: 0 <= i < j < |records| ==> records[i].id != records[j].id
  }

  predicate HasActiveRecord(records: seq<ParkingRecord>, slotNumber: string)
  {
    exists r :: r in records && r.status == Active && r.slotNumber == slotNumber
  }

  /**
   * A slot is Occupied exactly when an Active record names its slot number,
   * and no two Active records name the same slot number.
   */
  predicate OccupancyMatches(slots: seq<ParkingSlot>, records: seq<ParkingRecord>)
  {
    && (forall i :: 0 <= i < |slots| ==>
          (slots[i].status == Occupied <==> HasActiveRecord(records, slots[i].slotNumber)))
    && (forall j, k :: 0 <= j < k < |records| && records[j].status == Active && records[k].status == Active ==>
          records[j].slotNumber != records[k].slotNumber)
  }

  lemma InitialStateMatches()
    ensures OccupancyMatches(InitialSlots(), [])
  {
  }

  /**
   * Starting a session on a free slot keeps occupancy consistent, provided
   * slot ids and slot numbers are unique.
   */
  lemma StartParkingKeepsOccupancy(slots: seq<ParkingSlot>, records: seq<ParkingRecord>,
                                   slotId: string, i: nat, rec: ParkingRecord)
    requires UniqueSlotIds(slots) && UniqueSlotNumbers(slots) && OccupancyMatches(slots, records)
    requires FindSlot(slots, slotId) == Some(i) && slots[i].status == Available
    requires rec.status == Active && rec.slotNumber == slots[i].slotNumber
    ensures OccupancyMatches(OccupySlot(slots, slotId), records + [rec])
  {
    var slots', records' := OccupySlot(slots, slotId), records + [rec];
    assert !HasActiveRecord(records, rec.slotNumber);
    assert rec in records';
    forall k | 0 <= k < |slots'| && k != i
      ensures slots'[k] == slots[k] && slots[k].slotNumber != rec.slotNumber
    {
      assert slots[k].id != slots[i].id && slots[k].slotNumber != slots[i].slotNumber;
    }
    forall j, k | 0 <= j < k < |records'| && records'[j].status == Active && records'[k].status == Active
      ensures records'[j].slotNumber != records'[k].slotNumber
    {
      assert records'[j] == records[j] && records[j] in records;
    }
  }

  /**
   * Checking out an Active record keeps occupancy consistent, provided record
   * ids are unique. Slot numbers need not be unique: every slot carrying the
   * record's number is released.
   */
  lemma ExitParkingKeepsOccupancy(slots: seq<ParkingSlot>, records: seq<ParkingRecord>,
                                  recordId: string, k: nat, updated: ParkingRecord)
    requires UniqueRecordIds(records) && OccupancyMatches(slots, records)
    requires FindRecord(records, recordId) == Some(k) && records[k].status == Active
    requires updated.status == Completed
    ensures OccupancyMatches(ReleaseSlots(slots, records[k].slotNumber),
                             ReplaceRecords(records, recordId, updated))
  {
    var n := records[k].slotNumber;
    var slots', records' := ReleaseSlots(slots, n), ReplaceRecords(records, recordId, updated);
    forall j | 0 <= j < |records| && j != k
      ensures records'[j] == records[j]
    {
      assert records[j].id != records[k].id;
    }
    forall j | 0 <= j < |records| && j != k && records[j].status == Active
      ensures records[j].slotNumber != n
    {
      if j < k {
        assert records[j].slotNumber != records[k].slotNumber;
      } else {
        assert records[k].slotNumber != records[j].slotNumber;
      }
    }
    forall m | 0 <= m < |slots'|
      ensures slots'[m].status == Occupied <==> HasActiveRecord(records', slots'[m].slotNumber)
    {
      var sn := slots[m].slotNumber;
      assert slots'[m].slotNumber == sn;
      if HasActiveRecord(records', sn) {
        var r :| r in records' && r.status == Active && r.slotNumber == sn;
        var j :| 0 <= j < |records'| && records'[j] == r;
        assert records[j] == r && records[j] in records;
      }
      if sn != n && HasActiveRecord(records, sn) {
        var r :| r in records && r.status == Active && r.slotNumber == sn;
        var j :| 0 <= j < |records| && records[j] == r;
        assert records'[j] == r && records'[j] in records';
      }
    }
    forall j, l | 0 <= j < l < |records'| && records'[j].status == Active && records'[l].status == Active
      ensures records'[j].slotNumber != records'[l].slotNumber
    {
      assert records'[j] == records[j] && records'[l] == records[l];
    }
  }

  /**
   * `updateRecord` does not keep occupancy consistent: moving an Active
   * record to another slot number leaves its slot Occupied with nobody in it.
   */
  lemma UpdateRecordCanBreakOccupancy()
    ensures var slots := [ParkingSlot("1", "P-01", Occupied), ParkingSlot("2", "P-02", Available)];
            var records := [ParkingRecord("r1", "RAC123A", "P-01", 0, None, None, None, Active)];
            var patch := EMPTY_PATCH.(slotNumber := Some("P-02"));
            && UniqueSlotIds(slots) && UniqueSlotNumbers(slots) && UniqueRecordIds(records)
            && OccupancyMatches(slots, records)
            && !OccupancyMatches(slots, PatchRecords(records, "r1", patch))
  {
    var slots := [ParkingSlot("1", "P-01", Occupied), ParkingSlot("2", "P-02", Available)];
    var records := [ParkingRecord("r1", "RAC123A", "P-01", 0, None, None, None, Active)];
    var patch := EMPTY_PATCH.(slotNumber := Some("P-02"));
    assert records[0] in records;
    var records' := PatchRecords(records, "r1", patch);
    assert records' == [records[0].(slotNumber := "P-02")];
    assert slots[0].status == Occupied && !HasActiveRecord(records', slots[0].slotNumber);
  }

  // ---------------------------------------------------------------------
  // Deleting a record
  // ---------------------------------------------------------------------

  /**
   * `deleteRecord` as written: removing an Active record leaves its slot
   * Occupied although no record is parked there, so "Assign Parking" no
   * longer finds any free slot.
   */
  lemma DeleteActiveRecordStrandsSlot()
    ensures var slots := [ParkingSlot("1", "P-01", Occupied)];
            var records := [ParkingRecord("r1", "RAC123A", "P-01", 0, None, None, None, Active)];
            && UniqueSlotIds(slots) && UniqueSlotNumbers(slots) && UniqueRecordIds(records)
            && OccupancyMatches(slots, records)
            && RemoveRecords(records, "r1") == []
            && !OccupancyMatches(slots, RemoveRecords(records, "r1"))
            && FirstAvailableSlot(slots) == None
  {
    var slots := [ParkingSlot("1", "P-01", Occupied)];
    var records := [ParkingRecord("r1", "RAC123A", "P-01", 0, None, None, None, Active)];
    assert records[0] in records;
    var rest := RemoveRecords(records, "r1");
    assert |rest| == |multiset(rest)|;
    assert multiset(rest) == multiset{} by {
      forall x: ParkingRecord ensures multiset(rest)[x] == 0 {
        assert x.id != "r1" ==> x !in records;
      }
    }
    assert rest == [];
    assert slots[0].status == Occupied && !HasActiveRecord(rest, slots[0].slotNumber);
  }

  /** The slot number that deleting record `id` frees: the found record's, when it is Active. */
  function DeletedActiveSlot(records: seq<ParkingRecord>, id: string): Option<string>
  {
    match FindRecord(records, id)
    case None => None
    case Some(k) => if records[k].status == Active then Some(records[k].slotNumber) else None
  }

  /**
   * The slots after deleting record `id` with the evidently intended release:
   * when the record found is Active, its slot number is released.
   */
  function ReleaseForDeletion(slots: seq<ParkingSlot>, records: seq<ParkingRecord>, id: string): (r: seq<ParkingSlot>)
    ensures |r| == |slots|
    ensures forall i :: 0 <= i < |slots| ==>
              r[i] == if DeletedActiveSlot(records, id) == Some(slots[i].slotNumber)
                      then slots[i].(status := Available) else slots[i]
  {
    match FindRecord(records, id)
    case None => slots
    case Some(k) => if records[k].status == Active then ReleaseSlots(slots, records[k].slotNumber) else slots
  }

  function IsActive(r: ParkingRecord): bool
  {
    r.status == Active
  }

  function SlotNumberOf(r: ParkingRecord): string
  {
    r.slotNumber
  }

  /** With unique ids, deleting by id removes exactly the record `find` locates. */
  lemma RemoveRecordsById(records: seq<ParkingRecord>, id: string, k: nat)
    requires UniqueRecordIds(records) && FindRecord(records, id) == Some(k)
    ensures forall x :: x in RemoveRecords(records, id) <==> x in records && x != records[k]
  {
    var rest := RemoveRecords(records, id);
    forall x | x in records
      ensures x in rest <==> x != records[k]
    {
      assert multiset(records)[x] > 0;
      var j :| 0 <= j < |records| && records[j] == x;
      assert x.id == id ==> j == k;
    }
  }

  /** The slot facts behind deleting an Active record with its slot released. */
  lemma DeleteActiveKeepsSlots(slots: seq<ParkingSlot>, records: seq<ParkingRecord>, k: nat, rest: seq<ParkingRecord>)
    requires OccupancyMatches(slots, records)
    requires k < |records| && records[k].status == Active
    requires forall x :: x in rest <==> x in records && x != records[k]
    ensures var slots' := ReleaseSlots(slots, records[k].slotNumber);
            forall m :: 0 <= m < |slots'| ==>
              (slots'[m].status == Occupied <==> HasActiveRecord(rest, slots'[m].slotNumber))
  {
    var n := records[k].slotNumber;
    var slots' := ReleaseSlots(slots, n);
    forall r | r in rest && r.status == Active
      ensures r.slotNumber != n
    {
      var j :| 0 <= j < |records| && records[j] == r;
      if j < k {
        assert records[j].slotNumber != records[k].slotNumber;
      } else {
        assert records[k].slotNumber != records[j].slotNumber;
      }
    }
    forall m | 0 <= m < |slots'|
      ensures slots'[m].status == Occupied <==> HasActiveRecord(rest, slots'[m].slotNumber)
    {
      var sn := slots[m].slotNumber;
      if sn != n {
        assert slots'[m] == slots[m];
        if HasActiveRecord(records, sn) {
          var r :| r in records && r.status == Active && r.slotNumber == sn;
          assert r in rest;
        }
      }
    }
  }

  /** The slot facts behind deleting a record that is not Active: no slot changes. */
  lemma DeleteInactiveKeepsSlots(slots: seq<ParkingSlot>, records: seq<ParkingRecord>, k: nat, rest: seq<ParkingRecord>)
    requires OccupancyMatches(slots, records)
    requires k < |records| && records[k].status != Active
    requires forall x :: x in rest <==> x in records && x != records[k]
    ensures forall m :: 0 <= m < |slots| ==>
              (slots[m].status == Occupied <==> HasActiveRecord(rest, slots[m].slotNumber))
  {
    forall m | 0 <= m < |slots|
      ensures slots[m].status == Occupied <==> HasActiveRecord(rest, slots[m].slotNumber)
    {
      if HasActiveRecord(records, slots[m].slotNumber) {
        var r :| r in records && r.status == Active && r.slotNumber == slots[m].slotNumber;
        assert r in rest;
      }
    }
  }

  /** Deleting with the release keeps occupancy consistent, provided record ids are unique. */
  lemma DeleteRecordReleasingKeepsOccupancy(slots: seq<ParkingSlot>, records: seq<ParkingRecord>, id: string)
    requires UniqueRecordIds(records) && OccupancyMatches(slots, records)
    ensures OccupancyMatches(ReleaseForDeletion(slots, records, id), RemoveRecords(records, id))
  {
    var rest := RemoveRecords(records, id);
    assert DistinctWhere(records, IsActive, SlotNumberOf);
    SubsequenceKeepsDistinct(rest, records, IsActive, SlotNumberOf);
    match FindRecord(records, id)
    case None =>
      assert rest == records;
    case Some(k) =>
      RemoveRecordsById(records, id, k);
      if records[k].status == Active {
        DeleteActiveKeepsSlots(slots, records, k, rest);
      } else {
        DeleteInactiveKeepsSlots(slots, records, k, rest);
      }
  }

  /** On the input that strands a slot, the corrected deletion frees it for the next assignment. */
  lemma DeleteActiveRecordFreesSlot()
    ensures var slots := [ParkingSlot("1", "P-01", Occupied)];
            var records := [ParkingRecord("r1", "RAC123A", "P-01", 0, None, None, None, Active)];
            && ReleaseForDeletion(slots, records, "r1") == [ParkingSlot("1", "P-01", Available)]
            && FirstAvailableSlot(ReleaseForDeletion(slots, records, "r1")) == Some(0)
  {
    var slots := [ParkingSlot("1", "P-01", Occupied)];
    var records := [ParkingRecord("r1", "RAC123A", "P-01", 0, None, None, None, Active)];
    assert FindRecord(records, "r1") == Some(0);
  }

  // ---------------------------------------------------------------------
  // The component's state and its handlers
  // ---------------------------------------------------------------------

  /** With unique slot ids, looking up the first free slot by its id finds that same slot. */
  lemma FirstAvailableIsFound(slots: seq<ParkingSlot>, i: nat)
    requires UniqueSlotIds(slots) && FirstAvailableSlot(slots) == Some(i)
    ensures FindSlot(slots, slots[i].id) == Some(i)
  {
    var found := FindSlot(slots, slots[i].id);
    assert found.Some? && found.value <= i;
  }

  /**
   * The effect of `startParking(plate, slotId)` at time `now` with the fresh
   * record id `recordId`: nothing when the slot is unknown or Occupied;
   * otherwise one Active record on that slot's number is appended and every
   * slot with that id becomes Occupied.
   */
  ghost predicate StartParkingEffect(slots0: seq<ParkingSlot>, records0: seq<ParkingRecord>,
                                     slots1: seq<ParkingSlot>, records1: seq<ParkingRecord>,
                                     plate: string, slotId: string, recordId: string, now: int)
    ensures StartParkingEffect(slots0, records0, slots1, records1, plate, slotId, recordId, now) ==>
              |slots1| == |slots0| && (records1 == records0 || |records1| == |records0| + 1)
    ensures StartParkingEffect(slots0, records0, slots1, records1, plate, slotId, recordId, now) &&
            records1 != records0 ==>
              && FindSlot(slots0, slotId).Some?
              && slots0[FindSlot(slots0, slotId).value].status == Available
              && records1[..|records0|] == records0
              && records1[|records0|].id == recordId && records1[|records0|].plateNumber == plate
              && records1[|records0|].entryTime == now && records1[|records0|].status == Active
              && records1[|records0|].slotNumber == slots0[FindSlot(slots0, slotId).value].slotNumber
              && (forall j :: 0 <= j < |slots1| && slots1[j].id == slotId ==> slots1[j].status == Occupied)
  {
    var found := FindSlot(slots0, slotId);
    if found.None? || slots0[found.value].status == Occupied then
      slots1 == slots0 && records1 == records0
    else
      assert slots0[found.value].status.Available?;
      && records1 == records0 + [ParkingRecord(recordId, plate, slots0[found.value].slotNumber, now,
                                               None, None, None, Active)]
      && slots1 == OccupySlot(slots0, slotId)
  }

  /** The application component's four collections and the handlers that update them. */
  class ParkingApp {
    var slots: seq<ParkingSlot>
    var cars: seq<Car>
    var records: seq<ParkingRecord>
    var payments: seq<Payment>
    /** HOURLY_RATE. */
    const hourlyRate: nat

    /** The collections as they were last stored. */
    constructor (rate: nat, slots0: seq<ParkingSlot>, cars0: seq<Car>,
                 records0: seq<ParkingRecord>, payments0: seq<Payment>)
      ensures hourlyRate == rate
      ensures slots == slots0 && cars == cars0 && records == records0 && payments == payments0
    {
      hourlyRate := rate;
      slots, cars, records, payments := slots0, cars0, records0, payments0;
    }

    /** A first run: the four seeded slots and nothing else; occupancy is consistent. */
    constructor Seeded(rate: nat)
      ensures hourlyRate == rate
      ensures slots == InitialSlots() && cars == [] && records == [] && payments == []
      ensures UniqueSlotIds(slots) && UniqueSlotNumbers(slots) && UniqueRecordIds(records)
      ensures OccupancyMatches(slots, records)
    {
      hourlyRate := rate;
      slots, cars, records, payments := InitialSlots(), [], [], [];
      InitialStateMatches();
    }

    /** `addCar`: an empty plate or driver name is ignored; otherwise the car is appended, duplicates included. */
    method AddCar(plateNumber: string, driverName: string, phoneNumber: string)
      modifies this
      ensures slots == old(slots) && records == old(records) && payments == old(payments)
      ensures cars == if plateNumber == "" || driverName == "" then old(cars)
                      else old(cars) + [Car(plateNumber, driverName, phoneNumber)]
    {
      if plateNumber == "" || driverName == "" {
        return;
      }
      cars := cars + [Car(plateNumber, driverName, phoneNumber)];
    }

    /** `addSlot`: an empty slot number is ignored; otherwise an Available slot is appended, duplicates included. */
    method AddSlot(slotId: string, slotNumber: string)
      modifies this
      ensures cars == old(cars) && records == old(records) && payments == old(payments)
      ensures slots == if slotNumber == "" then old(slots)
                       else old(slots) + [ParkingSlot(slotId, slotNumber, Available)]
    {
      if slotNumber == "" {
        return;
      }
      slots := slots + [ParkingSlot(slotId, slotNumber, Available)];
    }

    /**
     * `startParking`: the plate is not checked against the cars or the
     * records. Occupancy stays consistent when it was and ids and slot
     * numbers are unique.
     */
    method StartParking(plateNumber: string, slotId: string, recordId: string, now: int)
      modifies this
      ensures cars == old(cars) && payments == old(payments)
      ensures StartParkingEffect(old(slots), old(records), slots, records, plateNumber, slotId, recordId, now)
      ensures old(UniqueSlotIds(slots) && UniqueSlotNumbers(slots) && OccupancyMatches(slots, records)) ==>
                OccupancyMatches(slots, records)
    {
      var found := FindSlot(slots, slotId);
      if found.None? || slots[found.value].status == Occupied {
        return;
      }
      var slot := slots[found.value];
      var rec := ParkingRecord(recordId, plateNumber, slot.slotNumber, now, None, None, None, Active);
      if UniqueSlotIds(slots) && UniqueSlotNumbers(slots) && OccupancyMatches(slots, records) {
        StartParkingKeepsOccupancy(slots, records, slotId, found.value, rec);
      }
      records := records + [rec];
      slots := OccupySlot(slots, slotId);
    }

    /**
     * "Assign Parking": parks the car in the first Available slot in list
     * order, or does nothing when every slot is Occupied. With unique slot
     * ids the car is always placed there.
     */
    method AssignParking(plateNumber: string, recordId: string, now: int)
      modifies this
      ensures cars == old(cars) && payments == old(payments)
      ensures FirstAvailableSlot(old(slots)).None? ==> slots == old(slots) && records == old(records)
      ensures FirstAvailableSlot(old(slots)).Some? ==>
                StartParkingEffect(old(slots), old(records), slots, records, plateNumber,
                                   old(slots)[FirstAvailableSlot(old(slots)).value].id, recordId, now)
      ensures FirstAvailableSlot(old(slots)).Some? && old(UniqueSlotIds(slots)) ==>
                var i := FirstAvailableSlot(old(slots)).value;
                && records == old(records) + [ParkingRecord(recordId, plateNumber, old(slots)[i].slotNumber, now,
                                                            None, None, None, Active)]
                && slots == OccupySlot(old(slots), old(slots)[i].id)
    {
      var available := FirstAvailableSlot(slots);
      if available.None? {
        return;
      }
      if UniqueSlotIds(slots) {
        FirstAvailableIsFound(slots, available.value);
      }
      StartParking(plateNumber, slots[available.value].id, recordId, now);
    }

    /**
     * `exitParking`: the record found by id is billed and completed whatever
     * its status; every record with that id is replaced by the completed one,
     * one payment is appended, and every slot with the record's slot number
     * is released.
     */
    method ExitParking(recordId: string, paymentId: string, now: int)
      modifies this
      ensures cars == old(cars)
      ensures FindRecord(old(records), recordId).None? ==>
                slots == old(slots) && records == old(records) && payments == old(payments)
      ensures FindRecord(old(records), recordId).Some? ==>
                var rec := old(records)[FindRecord(old(records), recordId).value];
                var fee := CalculateFee(rec.entryTime, now, hourlyRate);
                && records == ReplaceRecords(old(records), recordId, CheckOut(rec, now, hourlyRate))
                && payments == old(payments) + [Payment(paymentId, recordId, rec.plateNumber, fee.amount, now)]
                && CheckOut(rec, now, hourlyRate).amountPaid == Some(payments[|payments| - 1].amountPaid)
                && slots == ReleaseSlots(old(slots), rec.slotNumber)
                && TotalRevenue(payments) == TotalRevenue(old(payments)) + fee.amount
      ensures old(UniqueRecordIds(records) && OccupancyMatches(slots, records)
                  && FindRecord(records, recordId).Some?
                  && records[FindRecord(records, recordId).value].status == Active) ==>
                OccupancyMatches(slots, records)
    {
      var found := FindRecord(records, recordId);
      if found.None? {
        return;
      }
      var rec := records[found.value];
      var fee := CalculateFee(rec.entryTime, now, hourlyRate);
      var updated := CheckOut(rec, now, hourlyRate);
      var payment := Payment(paymentId, recordId, rec.plateNumber, fee.amount, now);
      if UniqueRecordIds(records) && OccupancyMatches(slots, records) && rec.status == Active {
        ExitParkingKeepsOccupancy(slots, records, recordId, found.value, updated);
      }
      TotalRevenueAppend(payments, payment);
      records := ReplaceRecords(records, recordId, updated);
      payments := payments + [payment];
      slots := ReleaseSlots(slots, rec.slotNumber);
    }

    /** `updateRecord`: every record with this id is merged with the patch; nothing else changes. */
    method UpdateRecord(id: string, patch: RecordPatch)
      modifies this
      ensures slots == old(slots) && cars == old(cars) && payments == old(payments)
      ensures records == PatchRecords(old(records), id, patch)
    {
      records := PatchRecords(records, id, patch);
    }

    /** `deleteRecord` as written: the records with this id go; slots and payments stay as they are. */
    method DeleteRecord(id: string)
      modifies this
      ensures slots == old(slots) && cars == old(cars) && payments == old(payments)
      ensures records == RemoveRecords(old(records), id)
    {
      records := RemoveRecords(records, id);
    }

    /**
     * Deleting a record and, when the record found is Active, releasing its
     * slot number; this keeps occupancy consistent where `DeleteRecord` does not.
     */
    method DeleteRecordReleasingSlot(id: string)
      modifies this
      ensures cars == old(cars) && payments == old(payments)
      ensures records == RemoveRecords(old(records), id)
      ensures slots == ReleaseForDeletion(old(slots), old(records), id)
      ensures old(UniqueRecordIds(records) && OccupancyMatches(slots, records)) ==>
                OccupancyMatches(slots, records)
    {
      var found := FindRecord(records, id);
      if UniqueRecordIds(records) && OccupancyMatches(slots, records) {
        DeleteRecordReleasingKeepsOccupancy(slots, records, id);
      }
      if found.Some? && records[found.value].status == Active {
        slots := ReleaseSlots(slots, records[found.value].slotNumber);
      }
      records := RemoveRecords(records, id);
    }
  }
}
