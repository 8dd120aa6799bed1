/**
 * What each ledger transaction does to the two tables, as pure functions from the
 * tables before to the tables after and the endpoint's answer, with the properties
 * the booking core promises proved about them. The `Ledger` class in `slot_ledger.dfy`
 * performs the same transactions step by step and is proved to agree with these.
 */
module SlotSpec {

  import opened Values
  import opened SlotTables

  // ===========================================================================
  // Book (create_appointment)
  // ===========================================================================

  /** doctorId, scheduleDate, period, patientName and patientPhone are all truthy. */
  predicate HasRequiredFields(req: BookRequest) {
    GivenId(req.doctorId) && req.scheduleDate.Some? && Given(req.period)
    && Given(req.patientName) && Given(req.patientPhone)
  }

  function BookKey(req: BookRequest): Key
    requires HasRequiredFields(req)
  {
    Key(req.doctorId.value, req.scheduleDate.value, req.period.value)
  }

  /** The row the INSERT writes: the caller's fields, status `pending`. */
  function NewAppointment(id: nat, req: BookRequest): Appointment
    requires HasRequiredFields(req)
  {
    Appointment(id, BookKey(req), req.snapshot,
      Patient(req.patientName.value, req.patientGender, req.patientAge, req.patientPhone.value, req.symptoms),
      Pending)
  }

  /** Every schedule entry except the one at `k` is the same in `t` and `r` (and so is absence). */
  ghost predicate OtherEntriesUnchanged(t: Tables, r: Tables, k: Key) {
    forall k' :: k' != k ==>
      (k' in r.schedules <==> k' in t.schedules) && (k' in t.schedules ==> r.schedules[k'] == t.schedules[k'])
  }

  /** A successful booking did exactly three things: one fewer remaining slot at the
      requested entry, no other entry touched, one new pending appointment. */
  ghost predicate BookedExactly(t: Tables, r: Tables, req: BookRequest, id: nat)
    requires HasRequiredFields(req)
  {
    var k := BookKey(req);
    && k in t.schedules && k in r.schedules
    && r.schedules[k] == t.schedules[k].(remaining := t.schedules[k].remaining - 1)
    && OtherEntriesUnchanged(t, r, k)
    && id !in t.appointments
    && r.appointments == t.appointments[id := NewAppointment(id, req)]
    && r.nextScheduleId == t.nextScheduleId
  }

  /** One booking transaction. `insertFails` stands for the INSERT raising, which
      rolls back the decrement already made. */
  function Book(t: Tables, req: BookRequest, insertFails: bool): (res: (Tables, Outcome<nat>))
    ensures res.1.Err? ==> res.0 == t
    ensures !HasRequiredFields(req) ==> res.1 == Err(MissingFields)
    ensures HasRequiredFields(req) && BookKey(req) !in t.schedules ==> res.1 == Err(NoSlotsOpened)
    ensures (HasRequiredFields(req) && BookKey(req) in t.schedules && t.schedules[BookKey(req)].remaining <= 0)
              ==> res.1 == Err(SlotsFull)
    ensures res.1.Ok? <==>
              HasRequiredFields(req) && BookKey(req) in t.schedules
              && t.schedules[BookKey(req)].remaining > 0 && !insertFails
    ensures WellFormed(t) && res.1.Ok? ==> BookedExactly(t, res.0, req, res.1.value)
    ensures WellFormed(t) ==> WellFormed(res.0)
  {
    if !HasRequiredFields(req) then (t, Err(MissingFields))
    else
      var k := BookKey(req);
      if k !in t.schedules then (t, Err(NoSlotsOpened))
      else if t.schedules[k].remaining <= 0 then (t, Err(SlotsFull))
      else if insertFails then (t, Err(StorageFailure))
      else
        var e := t.schedules[k];
        var id := t.nextAppointmentId;
        (t.(schedules := t.schedules[k := e.(remaining := e.remaining - 1)],
            appointments := t.appointments[id := NewAppointment(id, req)],
            nextAppointmentId := id + 1),
         Ok(id))
  }

  // ===========================================================================
  // Cancel (cancel_appointment)
  // ===========================================================================

  /** The appointment id a cancel request names, if any (a falsy body field names none). */
  function CancelTarget(ref: IdSource): Option<nat> {
    match ref
    case FromBody(o) => if GivenId(o) then o else None
    case FromPath(n) => Some(n)
  }

  /** A successful cancel set the record's status to `cancelled`, changed nothing else
      in the record or the table, and gave back one slot to its entry if that entry
      still exists. */
  ghost predicate CancelledExactly(t: Tables, r: Tables, id: nat) {
    && id in t.appointments
    && var a := t.appointments[id];
    && r.appointments == t.appointments[id := a.(status := Cancelled)]
    && OtherEntriesUnchanged(t, r, a.key)
    && (a.key in t.schedules <==> a.key in r.schedules)
    && (a.key in t.schedules ==>
          r.schedules[a.key] == t.schedules[a.key].(remaining := t.schedules[a.key].remaining + 1))
    && r.nextScheduleId == t.nextScheduleId && r.nextAppointmentId == t.nextAppointmentId
  }

  /** One cancel transaction. `restoreFails` stands for the second UPDATE raising, which
      rolls back the status change already made. */
  function Cancel(t: Tables, ref: IdSource, restoreFails: bool): (res: (Tables, Outcome<()>))
    ensures res.1.Err? ==> res.0 == t
    ensures res.1 == Err(IdRequired) <==> CancelTarget(ref).None?
    ensures (CancelTarget(ref).Some? && CancelTarget(ref).value !in t.appointments)
              ==> res.1 == Err(AppointmentNotFound)
    ensures (CancelTarget(ref).Some? && CancelTarget(ref).value in t.appointments
             && t.appointments[CancelTarget(ref).value].status == Cancelled)
              ==> res.1 == Err(AlreadyCancelled)
    ensures res.1.Ok? <==>
              CancelTarget(ref).Some? && CancelTarget(ref).value in t.appointments
              && t.appointments[CancelTarget(ref).value].status == Pending && !restoreFails
    ensures res.1.Ok? ==> CancelledExactly(t, res.0, CancelTarget(ref).value)
    ensures WellFormed(t) ==> WellFormed(res.0)
  {
    if CancelTarget(ref).None? then (t, Err(IdRequired))
    else
      var id := CancelTarget(ref).value;
      if id !in t.appointments then (t, Err(AppointmentNotFound))
      else
        var a := t.appointments[id];
        if a.status == Cancelled then (t, Err(AlreadyCancelled))
        else if restoreFails then (t, Err(StorageFailure))
        else
          assert a.status == Pending;
          var s := t.schedules;
          (t.(appointments := t.appointments[id := a.(status := Cancelled)],
              schedules := if a.key in s then s[a.key := s[a.key].(remaining := s[a.key].remaining + 1)] else s),
           Ok(()))
  }

  // ===========================================================================
  // Upsert, single save (save_schedule)
  // ===========================================================================

  /** `INSERT ... ON DUPLICATE KEY UPDATE total_slots = v, remaining_slots = v`. */
  function Upsert(t: Tables, k: Key, v: int): (r: Tables)
    ensures k in r.schedules && r.schedules[k].total == v && r.schedules[k].remaining == v
    ensures k in t.schedules ==> r.schedules[k].id == t.schedules[k].id
    ensures OtherEntriesUnchanged(t, r, k)
    ensures r.appointments == t.appointments && r.nextAppointmentId == t.nextAppointmentId
    ensures WellFormed(t) ==> WellFormed(r)
  {
    if k in t.schedules then
      t.(schedules := t.schedules[k := Entry(t.schedules[k].id, v, v)])
    else
      t.(schedules := t.schedules[k := Entry(t.nextScheduleId, v, v)], nextScheduleId := t.nextScheduleId + 1)
  }

  /** The guard of the single-save endpoint: the three key fields truthy and totalSlots
      present; the Express port also rejects a totalSlots of 0 (it tests truthiness). */
  predicate SaveAccepted(backend: Backend, req: SaveRequest) {
    GivenId(req.doctorId) && req.scheduleDate.Some? && Given(req.period) && req.totalSlots.Some?
    && (backend == Express ==> req.totalSlots.value != 0)
  }

  function SaveKey(req: SaveRequest): Key
    requires GivenId(req.doctorId) && req.scheduleDate.Some? && req.period.Some?
  {
    Key(req.doctorId.value, req.scheduleDate.value, req.period.value)
  }

  function Save(t: Tables, backend: Backend, req: SaveRequest): (res: (Tables, Outcome<()>))
    ensures res.1.Ok? <==> SaveAccepted(backend, req)
    ensures res.1.Err? ==> res.0 == t && res.1.error == MissingFields
    ensures res.1.Ok? ==> res.0 == Upsert(t, SaveKey(req), req.totalSlots.value)
  {
    if SaveAccepted(backend, req) then (Upsert(t, SaveKey(req), req.totalSlots.value), Ok(()))
    else (t, Err(MissingFields))
  }

  // ===========================================================================
  // Batch seeding (batch_schedules)
  // ===========================================================================

  /** Every day from `lo` to `hi` inclusive, ascending; empty when `lo > hi`. */
  function DayRange(lo: Day, hi: Day): (r: seq<Day>)
    ensures |r| == Max(0, hi - lo + 1)
    ensures forall i :: 0 <= i < |r| ==> r[i] == lo + i
  {
    seq(Max(0, hi - lo + 1), i requires 0 <= i => lo + i)
  }

  /** The dates a batch request covers: the inclusive range when both ends are given,
      else `days` days from today, else none (a 400). */
  function BatchDates(req: BatchRequest, today: Day): Option<seq<Day>> {
    if req.startDate.Some? && req.endDate.Some? then Some(DayRange(req.startDate.value, req.endDate.value))
    else if req.days.Some? && req.days.value != 0 then Some(DayRange(today, today + req.days.value - 1))
    else None
  }

  /** A per-period slot count that the batch writes: present and non-negative. */
  predicate Writable(slots: Option<int>) {
    slots.Some? && slots.value >= 0
  }

  /** The upserts the batch issues for one date, in order. */
  function DayWrites(doctor: nat, d: Day, morning: Option<int>, afternoon: Option<int>): seq<(Key, int)> {
    (if Writable(morning) then [(Key(doctor, d, Morning), morning.value)] else [])
    + (if Writable(afternoon) then [(Key(doctor, d, Afternoon), afternoon.value)] else [])
  }

  /** The upserts the batch issues for all dates, in order. */
  function Writes(doctor: nat, dates: seq<Day>, morning: Option<int>, afternoon: Option<int>): seq<(Key, int)> {
    if dates == [] then []
    else Writes(doctor, dates[..|dates| - 1], morning, afternoon) + DayWrites(doctor, dates[|dates| - 1], morning, afternoon)
  }

  /** The value the last of `ws` to touch `k` wrote there, if any did. */
  function LastWrite(ws: seq<(Key, int)>, k: Key): Option<int> {
    if ws == [] then None
    else if ws[|ws| - 1].0 == k then Some(ws[|ws| - 1].1)
    else LastWrite(ws[..|ws| - 1], k)
  }

  /** `r` is `t` with `plan` applied at `k`: reset to `plan` (keeping an existing id),
      or left exactly as it was when there is no plan for `k`. */
  ghost predicate Applied(t: Tables, r: Tables, k: Key, plan: Option<int>) {
    if plan.Some? then
      k in r.schedules && r.schedules[k].total == plan.value && r.schedules[k].remaining == plan.value
      && (k in t.schedules ==> r.schedules[k].id == t.schedules[k].id)
    else
      (k in r.schedules <==> k in t.schedules) && (k in t.schedules ==> r.schedules[k] == t.schedules[k])
  }

  /** Upserts applied one after another. */
  function UpsertAll(t: Tables, ws: seq<(Key, int)>): (r: Tables)
    ensures r.appointments == t.appointments && r.nextAppointmentId == t.nextAppointmentId
    ensures WellFormed(t) ==> WellFormed(r)
  {
    if ws == [] then t
    else Upsert(UpsertAll(t, ws[..|ws| - 1]), ws[|ws| - 1].0, ws[|ws| - 1].1)
  }

  /** After a sequence of upserts every key holds the last value written to it, and a
      key nobody wrote to is exactly as before. */
  lemma {:induction false} UpsertAllEffect(t: Tables, ws: seq<(Key, int)>, k: Key)
    ensures Applied(t, UpsertAll(t, ws), k, LastWrite(ws, k))
  {
    if ws != [] {
      UpsertAllEffect(t, ws[..|ws| - 1], k);
    }
  }

  /** What a batch over `dates` plans for key `k`: the morning count for a morning key of
      that doctor on one of the dates (when writable), likewise for the afternoon. */
  function Planned(doctor: nat, dates: seq<Day>, morning: Option<int>, afternoon: Option<int>, k: Key): Option<int> {
    if k.doctor == doctor && k.date in dates && k.period == Morning && Writable(morning) then Some(morning.value)
    else if k.doctor == doctor && k.date in dates && k.period == Afternoon && Writable(afternoon) then Some(afternoon.value)
    else None
  }

  lemma {:induction false} LastWriteAppend(w1: seq<(Key, int)>, w2: seq<(Key, int)>, k: Key)
    ensures LastWrite(w1 + w2, k) == if LastWrite(w2, k).Some? then LastWrite(w2, k) else LastWrite(w1, k)
    decreases |w2|
  {
    if w2 != [] {
      assert (w1 + w2)[..|w1 + w2| - 1] == w1 + w2[..|w2| - 1];
      LastWriteAppend(w1, w2[..|w2| - 1], k);
    } else {
      assert w1 + w2 == w1;
    }
  }

  /** The last write a single day's upserts make to `k`. */
  lemma DayWritesLast(doctor: nat, d: Day, morning: Option<int>, afternoon: Option<int>, k: Key)
    ensures LastWrite(DayWrites(doctor, d, morning, afternoon), k) ==
              if k == Key(doctor, d, Afternoon) && Writable(afternoon) then Some(afternoon.value)
              else if k == Key(doctor, d, Morning) && Writable(morning) then Some(morning.value)
              else None
  {
    var mk := Key(doctor, d, Morning);
    var ak := Key(doctor, d, Afternoon);
    assert Morning[0] != Afternoon[0];
    assert mk != ak;
    if Writable(morning) && Writable(afternoon) {
      var ws := [(mk, morning.value), (ak, afternoon.value)];
      assert DayWrites(doctor, d, morning, afternoon) == ws;
      assert ws[..1] == [(mk, morning.value)];
      assert ws[..1][..0] == [];
      if k != ak {
        assert LastWrite(ws, k) == LastWrite([(mk, morning.value)], k);
      }
    } else if Writable(morning) {
      assert DayWrites(doctor, d, morning, afternoon) == [(mk, morning.value)];
      assert [(mk, morning.value)][..0] == [];
    } else if Writable(afternoon) {
      assert DayWrites(doctor, d, morning, afternoon) == [(ak, afternoon.value)];
      assert [(ak, afternoon.value)][..0] == [];
    } else {
      assert DayWrites(doctor, d, morning, afternoon) == [];
    }
  }

  /** Adding a date to the plan: that date's writes win, the earlier plan fills the rest. */
  lemma PlannedStep(doctor: nat, init: seq<Day>, d: Day, morning: Option<int>, afternoon: Option<int>, k: Key)
    ensures var day := LastWrite(DayWrites(doctor, d, morning, afternoon), k);
            Planned(doctor, init + [d], morning, afternoon, k) ==
              if day.Some? then day else Planned(doctor, init, morning, afternoon, k)
  {
    DayWritesLast(doctor, d, morning, afternoon, k);
    assert k.date in init + [d] <==> k.date in init || k.date == d;
    assert Morning[0] != Afternoon[0];
  }

  /** The write list realises the plan: its last write to every key is the planned value. */
  lemma {:induction false} WritesRealisePlan(doctor: nat, dates: seq<Day>, morning: Option<int>, afternoon: Option<int>, k: Key)
    ensures LastWrite(Writes(doctor, dates, morning, afternoon), k) == Planned(doctor, dates, morning, afternoon, k)
    decreases |dates|
  {
    if dates != [] {
      var init := dates[..|dates| - 1];
      var d := dates[|dates| - 1];
      WritesRealisePlan(doctor, init, morning, afternoon, k);
      LastWriteAppend(Writes(doctor, init, morning, afternoon), DayWrites(doctor, d, morning, afternoon), k);
      assert dates == init + [d];
      PlannedStep(doctor, init, d, morning, afternoon, k);
    }
  }

  /** One batch transaction. `failAt` names the write (by position) that raises, if any;
      a failure rolls back every write already made. The answer is the number of dates. */
  function Batch(t: Tables, req: BatchRequest, today: Day, failAt: Option<nat>): (res: (Tables, Outcome<nat>))
    ensures res.1.Err? ==> res.0 == t
    ensures !GivenId(req.doctorId) ==> res.1 == Err(MissingDoctorId)
    ensures GivenId(req.doctorId) && BatchDates(req, today).None? ==> res.1 == Err(MissingDateSpec)
    ensures res.1.Ok? <==>
              GivenId(req.doctorId) && BatchDates(req, today).Some?
              && (failAt.None? ||
                  failAt.value >= |Writes(req.doctorId.value, BatchDates(req, today).value, req.morningSlots, req.afternoonSlots)|)
    ensures res.1.Ok? ==> res.1.value == |BatchDates(req, today).value|
    ensures WellFormed(t) ==> WellFormed(res.0)
  {
    if !GivenId(req.doctorId) then (t, Err(MissingDoctorId))
    else match BatchDates(req, today)
      case None => (t, Err(MissingDateSpec))
      case Some(dates) =>
        var ws := Writes(req.doctorId.value, dates, req.morningSlots, req.afternoonSlots);
        if failAt.Some? && failAt.value < |ws| then (t, Err(StorageFailure))
        else (UpsertAll(t, ws), Ok(|dates|))
  }

  /** A committed batch reset exactly the planned entries (total = remaining = the
      period's count) and left every other entry, and the appointments, alone. */
  lemma BatchAppliesPlan(t: Tables, req: BatchRequest, today: Day, failAt: Option<nat>, k: Key)
    requires Batch(t, req, today, failAt).1.Ok?
    ensures GivenId(req.doctorId) && BatchDates(req, today).Some?
    ensures var r := Batch(t, req, today, failAt).0;
            var dates := BatchDates(req, today).value;
            && Applied(t, r, k, Planned(req.doctorId.value, dates, req.morningSlots, req.afternoonSlots, k))
            && r.appointments == t.appointments
  {
    var dates := BatchDates(req, today).value;
    var ws := Writes(req.doctorId.value, dates, req.morningSlots, req.afternoonSlots);
    WritesRealisePlan(req.doctorId.value, dates, req.morningSlots, req.afternoonSlots, k);
    UpsertAllEffect(t, ws, k);
  }

  // ===========================================================================
  // Update by id (update_schedule)
  // ===========================================================================

  /** The slot count an update request carries. The Python handlers take totalSlots,
      else morningSlots, else afternoonSlots; the Express handler reads morningSlots only. */
  function ChosenSlots(backend: Backend, req: UpdateRequest): Option<int> {
    if backend == Express then req.morningSlots
    else if req.totalSlots.Some? then req.totalSlots
    else if req.morningSlots.Some? then req.morningSlots
    else req.afternoonSlots
  }

  /** The slot count is the first present field in precedence order. */
  lemma ChosenSlotsPrecedence(backend: Backend, req: UpdateRequest)
    requires backend != Express
    ensures ChosenSlots(backend, req).None? <==>
              req.totalSlots.None? && req.morningSlots.None? && req.afternoonSlots.None?
    ensures req.totalSlots.Some? ==> ChosenSlots(backend, req) == req.totalSlots
    ensures req.totalSlots.None? && req.morningSlots.Some? ==> ChosenSlots(backend, req) == req.morningSlots
  {
  }

  predicate HasScheduleId(t: Tables, id: nat) {
    exists k :: k in t.schedules && t.schedules[k].id == id
  }

  /** `UPDATE doctor_schedules SET total_slots = v, remaining_slots = v WHERE id = ...`. */
  function SetById(t: Tables, id: nat, v: int): (r: Tables)
    ensures r.schedules.Keys == t.schedules.Keys
    ensures forall k :: k in t.schedules && t.schedules[k].id == id ==> r.schedules[k] == Entry(id, v, v)
    ensures forall k :: k in t.schedules && t.schedules[k].id != id ==> r.schedules[k] == t.schedules[k]
    ensures r.appointments == t.appointments
    ensures WellFormed(t) ==> WellFormed(r)
  {
    t.(schedules := map k | k in t.schedules :: if t.schedules[k].id == id then Entry(id, v, v) else t.schedules[k])
  }

  /** The schedule id an update names, if any. */
  function UpdateTarget(ref: IdSource): Option<nat> {
    match ref
    case FromBody(o) => if GivenId(o) then o else None
    case FromPath(n) => Some(n)
  }

  function Update(t: Tables, backend: Backend, req: UpdateRequest): (res: (Tables, Outcome<()>))
    ensures res.1.Err? ==> res.0 == t
    ensures res.1 == Err(IdRequired) <==> UpdateTarget(req.scheduleId).None?
    ensures UpdateTarget(req.scheduleId).Some? && ChosenSlots(backend, req).None? ==> res.1 == Err(NoFieldsToUpdate)
    ensures res.1 == Err(ScheduleNotFound) <==>
              UpdateTarget(req.scheduleId).Some? && ChosenSlots(backend, req).Some?
              && backend != Express && !HasScheduleId(t, UpdateTarget(req.scheduleId).value)
    ensures res.1.Ok? <==>
              UpdateTarget(req.scheduleId).Some? && ChosenSlots(backend, req).Some?
              && (backend == Express || HasScheduleId(t, UpdateTarget(req.scheduleId).value))
    ensures res.1.Ok? ==> res.0 == SetById(t, UpdateTarget(req.scheduleId).value, ChosenSlots(backend, req).value)
    ensures WellFormed(t) ==> WellFormed(res.0)
  {
    match UpdateTarget(req.scheduleId)
    case None => (t, Err(IdRequired))
    case Some(id) =>
      match ChosenSlots(backend, req)
      case None => (t, Err(NoFieldsToUpdate))
      case Some(v) =>
        if backend != Express && !HasScheduleId(t, id) then (t, Err(ScheduleNotFound))
        else (SetById(t, id, v), Ok(()))
  }

  /** The Express update reports success for an id no entry has, and changes nothing. */
  lemma ExpressUpdateOfUnknownId(t: Tables, req: UpdateRequest)
    requires UpdateTarget(req.scheduleId).Some? && req.morningSlots.Some?
    requires !HasScheduleId(t, UpdateTarget(req.scheduleId).value)
    ensures Update(t, Express, req) == (t, Ok(()))
  {
    var r := SetById(t, UpdateTarget(req.scheduleId).value, req.morningSlots.value);
    assert r.schedules == t.schedules;
  }

  // ===========================================================================
  // Admin calendar merge (admin_get_schedules with doctorId, startDate, endDate)
  // ===========================================================================

  /** The reference answer for one day: that day's morning and afternoon entries of the
      doctor, or zero slots and no id for a period without an entry. */
  function ExpectedDay(s: map<Key, Entry>, doctor: nat, d: Day): DayRow {
    var mk := Key(doctor, d, Morning);
    var ak := Key(doctor, d, Afternoon);
    DayRow(d,
      if mk in s then s[mk].total else 0,
      if ak in s then s[ak].total else 0,
      if mk in s then Some(s[mk].id) else None,
      if ak in s then Some(s[ak].id) else None,
      doctor)
  }

  /** The monolith's and the Express port's row: `id = morningId or afternoonId`. */
  function LegacyRow(r: DayRow): LegacyDayRow {
    LegacyDayRow(OrId(r.morningId, r.afternoonId), r.date, r.morningSlots, r.afternoonSlots)
  }

  /** With positive ids, the legacy row's id is the morning entry's id when there is one,
      else the afternoon entry's, and absent exactly for a day with neither. */
  lemma LegacyDayId(t: Tables, doctor: nat, d: Day)
    requires WellFormed(t)
    ensures var l := LegacyRow(ExpectedDay(t.schedules, doctor, d));
            var mk := Key(doctor, d, Morning);
            var ak := Key(doctor, d, Afternoon);
            && (mk in t.schedules ==> l.id == Some(t.schedules[mk].id))
            && (mk !in t.schedules && ak in t.schedules ==> l.id == Some(t.schedules[ak].id))
            && (l.id.None? <==> mk !in t.schedules && ak !in t.schedules)
  {
  }

  /** A key of a JavaScript `Map`. The Express merge keys its map by the DATE column as
      the driver returns it, a `Date` object (one per row, compared by identity), and
      looks days up by an ISO date string. */
  datatype JsKey = DateObject(row: nat) | IsoText(day: Day)

  /** The Express merge's first pass as written: the item for row `i` is filed under that
      row's own `Date` object. */
  function ExpressDateMap(rows: seq<Row>, doctor: nat): (m: map<JsKey, DayRow>)
    ensures forall key :: key in m ==> key.DateObject?
  {
    if rows == [] then map[]
    else
      var m := ExpressDateMap(rows[..|rows| - 1], doctor);
      var row := rows[|rows| - 1];
      var key := DateObject(|rows| - 1);
      var item := if key in m then m[key] else DayRow(row.key.date, 0, 0, None, None, doctor);
      m[key := if row.key.period == Morning then item.(morningSlots := row.entry.total, morningId := Some(row.entry.id))
               else if row.key.period == Afternoon then item.(afternoonSlots := row.entry.total, afternoonId := Some(row.entry.id))
               else item]
  }

  /** The Express merge's second pass as written: each day of the range is looked up by
      its ISO string. No such key is ever in the map, so every day comes out empty. */
  function ExpressMergeAsWritten(rows: seq<Row>, doctor: nat, start: Day, end: Day): (r: seq<LegacyDayRow>)
    ensures |r| == Max(0, end - start + 1)
    ensures forall i :: 0 <= i < |r| ==> r[i] == LegacyDayRow(None, start + i, 0, 0)
  {
    var m := ExpressDateMap(rows, doctor);
    seq(Max(0, end - start + 1), i requires 0 <= i =>
      if IsoText(start + i) in m then LegacyRow(m[IsoText(start + i)]) else LegacyDayRow(None, start + i, 0, 0))
  }

  /** A doctor with five morning slots on `d`: the reference day shows them, the Express
      merge as written shows none. */
  lemma ExpressMergeHidesSlots(doctor: nat, d: Day)
    ensures var s := map[Key(doctor, d, Morning) := Entry(1, 5, 5)];
            var rows := [Row(Key(doctor, d, Morning), Entry(1, 5, 5))];
            && LegacyRow(ExpectedDay(s, doctor, d)) == LegacyDayRow(Some(1), d, 5, 0)
            && ExpressMergeAsWritten(rows, doctor, d, d)[0] == LegacyDayRow(None, d, 0, 0)
  {
    assert Morning != Afternoon by { assert Morning[0] != Afternoon[0]; }
  }

  // ===========================================================================
  // Booking answer status
  // ===========================================================================

  /** The HTTP status a successful booking answers with as written: the routers package
      declares no status and so answers 200; the monolith and the Express port answer 201. */
  function BookSuccessStatus(backend: Backend): int {
    if backend == Router then 200 else 201
  }

  /** The status every backend is meant to answer a successful booking with. */
  function BookSuccessStatusFixed(backend: Backend): int {
    201
  }

  // ===========================================================================
  // Listing filters
  // ===========================================================================

  /** Whether a query `doctorId` filters. The monolith declares it an integer, so 0 is
      falsy like an absent one; the routers and the Express port keep the query text, and
      any non-empty text, "0" included, is truthy. */
  predicate QueryIdFilters(backend: Backend, doctorId: Option<nat>) {
    if backend == Monolith then GivenId(doctorId) else doctorId.Some?
  }

  /** `GET /appointments`: each truthy query parameter must match its column. */
  predicate ListMatches(backend: Backend, a: Appointment, phone: Option<string>, doctorId: Option<nat>, status: Option<string>) {
    && (Given(phone) ==> a.patient.phone == phone.value)
    && (QueryIdFilters(backend, doctorId) ==> a.key.doctor == doctorId.value)
    && (Given(status) ==> a.status.Text() == status.value)
  }

  /** `GET /admin/schedules`: optional doctor and date bounds; with neither bound, only
      entries dated today or later. */
  predicate AdminMatches(backend: Backend, k: Key, doctorId: Option<nat>, startDate: Option<Day>, endDate: Option<Day>, today: Day) {
    && (QueryIdFilters(backend, doctorId) ==> k.doctor == doctorId.value)
    && (startDate.Some? ==> k.date >= startDate.value)
    && (endDate.Some? ==> k.date <= endDate.value)
    && (startDate.None? && endDate.None? ==> k.date >= today)
  }

  /** The entries a merged calendar reads: one doctor's, dated within [start, end]. */
  predicate InCalendar(k: Key, doctor: nat, start: Day, end: Day) {
    k.doctor == doctor && start <= k.date <= end
  }

  /** With a filtering doctorId and both bounds, the admin filter is the calendar's. */
  lemma AdminMatchesCalendar(backend: Backend, k: Key, doctorId: Option<nat>, start: Day, end: Day, today: Day)
    requires QueryIdFilters(backend, doctorId)
    ensures AdminMatches(backend, k, doctorId, Some(start), Some(end), today) <==> InCalendar(k, doctorId.value, start, end)
  {
  }

  // ===========================================================================
  // The ledger's accounting
  // ===========================================================================

  /** The pending appointments booked against key `k`. */
  function PendingIn(apps: map<nat, Appointment>, k: Key): set<nat> {
    set i | i in apps && apps[i].key == k && apps[i].status == Pending
  }

  function PendingFor(t: Tables, k: Key): set<nat> {
    PendingIn(t.appointments, k)
  }

  /** Storing a new record adds its id to the pending set of its key, if it is pending. */
  lemma PendingAfterInsert(apps: map<nat, Appointment>, id: nat, a: Appointment, k: Key)
    requires id !in apps
    ensures PendingIn(apps[id := a], k) == PendingIn(apps, k) + (if a.key == k && a.status == Pending then {id} else {})
  {
  }

  /** Marking a pending record cancelled removes its id from the pending set of its key. */
  lemma PendingAfterCancel(apps: map<nat, Appointment>, id: nat, k: Key)
    requires id in apps && apps[id].status == Pending
    ensures PendingIn(apps[id := apps[id].(status := Cancelled)], k) ==
              PendingIn(apps, k) - (if apps[id].key == k then {id} else {})
  {
  }

  /** Entry `k` accounts for its pending appointments: remaining + pending = total. */
  ghost predicate Balanced(t: Tables, k: Key) {
    k in t.schedules && t.schedules[k].remaining + |PendingFor(t, k)| == t.schedules[k].total
  }

  /** Booking keeps every entry balanced: the one booked loses a slot and gains a
      pending appointment, the others are untouched. */
  lemma BookKeepsBalance(t: Tables, req: BookRequest, insertFails: bool, k: Key)
    requires WellFormed(t) && Balanced(t, k)
    ensures Balanced(Book(t, req, insertFails).0, k)
  {
    BookPending(t, req, insertFails, k);
  }

  /** Cancelling keeps every entry balanced: the cancelled appointment stops being
      pending and its entry, which exists since it is balanced, gets the slot back. */
  lemma CancelKeepsBalance(t: Tables, ref: IdSource, restoreFails: bool, k: Key)
    requires WellFormed(t) && Balanced(t, k)
    ensures Balanced(Cancel(t, ref, restoreFails).0, k)
  {
    var (r, o) := Cancel(t, ref, restoreFails);
    if o.Ok? {
      var id := CancelTarget(ref).value;
      PendingAfterCancel(t.appointments, id, k);
    }
  }

  /** Re-seeding discards the accounting: afterwards the entry is balanced only if it
      had no pending appointments. */
  lemma ReseedBalance(t: Tables, k: Key, v: int)
    ensures Balanced(Upsert(t, k, v), k) <==> PendingFor(t, k) == {}
  {
    assert PendingFor(Upsert(t, k, v), k) == PendingFor(t, k);
  }

  /** A second save of the same key wins outright, whatever the first one set. */
  lemma ReseedResets(t: Tables, k: Key, first: int, second: int)
    ensures Upsert(Upsert(t, k, first), k, second).schedules[k].remaining == second
    ensures Upsert(Upsert(t, k, first), k, second).schedules[k].total == second
  {
  }

  // ===========================================================================
  // Repeated bookings on one key: no over-booking
  // ===========================================================================

  datatype Run = Run(tables: Tables, successes: nat)

  /** `n` booking attempts with the same request, one after another. */
  function BookRepeatedly(t: Tables, req: BookRequest, n: nat): Run {
    if n == 0 then Run(t, 0)
    else
      var before := BookRepeatedly(t, req, n - 1);
      var (r, o) := Book(before.tables, req, false);
      Run(r, before.successes + if o.Ok? then 1 else 0)
  }

  /** A booking adds one pending appointment for the booked key when it succeeds, and
      leaves the pending set of every key alone otherwise. */
  lemma BookPending(t: Tables, req: BookRequest, insertFails: bool, k: Key)
    requires WellFormed(t)
    ensures var (r, o) := Book(t, req, insertFails);
            |PendingFor(r, k)| == |PendingFor(t, k)| + (if o.Ok? && k == BookKey(req) then 1 else 0)
  {
    var (r, o) := Book(t, req, insertFails);
    if o.Ok? {
      var id := o.value;
      PendingAfterInsert(t.appointments, id, NewAppointment(id, req), k);
    }
  }

  /** One booking attempt against an existing entry, seen from that entry: it succeeds
      exactly when a slot remains, and then takes one slot and adds one pending
      appointment for the key. */
  lemma BookOnKey(t: Tables, req: BookRequest)
    requires WellFormed(t) && HasRequiredFields(req) && BookKey(req) in t.schedules
    ensures var k := BookKey(req);
            var (r, o) := Book(t, req, false);
            && WellFormed(r)
            && (o.Ok? <==> t.schedules[k].remaining > 0)
            && k in r.schedules
            && r.schedules[k] == (if o.Ok? then t.schedules[k].(remaining := t.schedules[k].remaining - 1) else t.schedules[k])
            && OtherEntriesUnchanged(t, r, k)
            && |PendingFor(r, k)| == |PendingFor(t, k)| + (if o.Ok? then 1 else 0)
  {
    BookPending(t, req, false, BookKey(req));
  }

  lemma OtherEntriesUnchangedTrans(t1: Tables, t2: Tables, t3: Tables, k: Key)
    requires OtherEntriesUnchanged(t1, t2, k) && OtherEntriesUnchanged(t2, t3, k)
    ensures OtherEntriesUnchanged(t1, t3, k)
  {
  }

  /** Of `n` bookings against an entry with `K` remaining slots exactly min(n, K) succeed
      (none when K <= 0), remaining ends at max(0, K - n) (unchanged when K <= 0), each
      success adds one pending appointment for the key, and no other entry changes. */
  lemma {:induction false} NoOverbooking(t: Tables, req: BookRequest, n: nat)
    requires WellFormed(t) && HasRequiredFields(req) && BookKey(req) in t.schedules
    ensures var k := BookKey(req);
            var K := t.schedules[k].remaining;
            var run := BookRepeatedly(t, req, n);
            && WellFormed(run.tables)
            && run.successes == Min(n, Max(0, K))
            && k in run.tables.schedules
            && run.tables.schedules[k] == t.schedules[k].(remaining := if K <= 0 then K else Max(0, K - n))
            && OtherEntriesUnchanged(t, run.tables, k)
            && |PendingFor(run.tables, k)| == |PendingFor(t, k)| + run.successes
  {
    if n > 0 {
      NoOverbooking(t, req, n - 1);
      var k := BookKey(req);
      var before := BookRepeatedly(t, req, n - 1);
      var (r, o) := Book(before.tables, req, false);
      assert BookRepeatedly(t, req, n) == Run(r, before.successes + if o.Ok? then 1 else 0);
      BookOnKey(before.tables, req);
      OtherEntriesUnchangedTrans(t, before.tables, r, k);
    }
  }

  /** Two bookings against a single remaining slot: exactly one succeeds. */
  lemma LastSlotGoesOnce(t: Tables, req: BookRequest)
    requires WellFormed(t) && HasRequiredFields(req) && BookKey(req) in t.schedules
    requires t.schedules[BookKey(req)].remaining == 1
    ensures BookRepeatedly(t, req, 2).successes == 1
    ensures BookKey(req) in BookRepeatedly(t, req, 2).tables.schedules
    ensures BookRepeatedly(t, req, 2).tables.schedules[BookKey(req)].remaining == 0
  {
    NoOverbooking(t, req, 2);
  }

  // ===========================================================================
  // Cancel after Book, Cancel twice
  // ===========================================================================

  /** Booking then cancelling that booking, with no re-seed in between, leaves the
      schedule table exactly as it was. */
  lemma BookThenCancelRestores(t: Tables, req: BookRequest)
    requires WellFormed(t) && Book(t, req, false).1.Ok?
    ensures var (t1, o) := Book(t, req, false);
            var (t2, c) := Cancel(t1, FromPath(o.value), false);
            c.Ok? && t2.schedules == t.schedules
  {
    var (t1, o) := Book(t, req, false);
    var k := BookKey(req);
    var id := o.value;
    assert BookedExactly(t, t1, req, id);
    assert t1.appointments[id] == NewAppointment(id, req);
    assert CancelTarget(FromPath(id)) == Some(id);
    var (t2, c) := Cancel(t1, FromPath(id), false);
    assert c.Ok? && CancelledExactly(t1, t2, id);
    assert t2.schedules[k] == t.schedules[k];
    assert forall k' :: k' in t2.schedules <==> k' in t.schedules;
    assert forall k' :: k' in t.schedules ==> t2.schedules[k'] == t.schedules[k'];
  }

  /** A second cancel of the same appointment fails with "already cancelled" and
      changes nothing. */
  lemma CancelTwice(t: Tables, ref: IdSource, restoreFails: bool)
    requires Cancel(t, ref, false).1.Ok?
    ensures var t1 := Cancel(t, ref, false).0;
            Cancel(t1, ref, restoreFails) == (t1, Err(AlreadyCancelled))
  {
  }

  /** Remaining can exceed total: book the only slot, re-seed the entry with one slot,
      then cancel the booking. */
  lemma CancelAfterReseedExceedsTotal(req: BookRequest)
    requires HasRequiredFields(req)
    ensures var k := BookKey(req);
            var t1 := Upsert(EmptyTables, k, 1);
            var (t2, o) := Book(t1, req, false);
            var t3 := Upsert(t2, k, 1);
            var (t4, c) := Cancel(t3, FromPath(o.value), false);
            o.Ok? && c.Ok? && t4.schedules[k].total == 1 && t4.schedules[k].remaining == 2
  {
    var k := BookKey(req);
    var t1 := Upsert(EmptyTables, k, 1);
    var (t2, o) := Book(t1, req, false);
    assert t2.appointments[o.value].key == k;
  }
}
