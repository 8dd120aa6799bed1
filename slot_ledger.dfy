/**
 * The appointment-slot ledger as the backends drive it: a store holding the
 * `doctor_schedules` and `appointments` tables whose endpoint handlers change it
 * statement by statement inside a transaction, and roll back to the saved state on
 * every error path. Each handler is proved to end in exactly the state and answer that
 * the matching function of `SlotSpec` describes, so the properties proved there hold
 * of the store.
 */
module SlotLedger {

  import opened Values
  import opened SlotTables
  import opened SlotSpec

  /** The answer of `GET /admin/schedules`: the sorted rows, or, when doctorId, startDate
      and endDate are all given, one merged row per day of the range. */
  datatype AdminAnswer = Flat(rows: seq<Row>) | Merged(days: seq<DayRow>)

  /** Inserts `row` into rows sorted by key, where no row has its key yet. */
  function InsertRow(rows: seq<Row>, row: Row): (r: seq<Row>)
    requires SortedRows(rows)
    requires forall i :: 0 <= i < |rows| ==> rows[i].key != row.key
    ensures SortedRows(r)
    ensures forall x :: x in r <==> x in rows || x == row
    ensures |r| == |rows| + 1
  {
    if rows == [] then [row]
    else
      KeyLtTotal(row.key, rows[0].key);
      if KeyLt(row.key, rows[0].key) then
        assert forall j :: 0 < j < |rows| ==> KeyLt(row.key, rows[j].key) by {
          forall j | 0 < j < |rows| {
            KeyLtTransitive(row.key, rows[0].key, rows[j].key);
          }
        }
        [row] + rows
      else
        var tail := InsertRow(rows[1..], row);
        assert forall x :: x in tail ==> KeyLt(rows[0].key, x.key) by {
          forall x | x in tail ensures KeyLt(rows[0].key, x.key) {
            if x != row {
              var j :| 0 <= j < |rows[1..]| && rows[1..][j] == x;
              assert rows[j + 1] == x;
            }
          }
        }
        [rows[0]] + tail
  }

  class Ledger {
    var schedules: map<Key, Entry>
    var appointments: map<nat, Appointment>
    var nextScheduleId: nat
    var nextAppointmentId: nat

    /** The two tables as a value. */
    function Snapshot(): Tables
      reads this
    {
      Tables(schedules, appointments, nextScheduleId, nextAppointmentId)
    }

    ghost predicate Valid()
      reads this
    {
      WellFormed(Snapshot())
    }

    /** Empty tables; both auto-increment counters at 1. */
    constructor ()
      ensures Valid() && Snapshot() == EmptyTables
    {
      schedules := map[];
      appointments := map[];
      nextScheduleId := 1;
      nextAppointmentId := 1;
    }

    /** ROLLBACK: back to the state saved when the transaction began. */
    method Rollback(saved: Tables)
      modifies this
      ensures Snapshot() == saved
    {
      schedules := saved.schedules;
      appointments := saved.appointments;
      nextScheduleId := saved.nextScheduleId;
      nextAppointmentId := saved.nextAppointmentId;
    }

    /** One `INSERT ... ON DUPLICATE KEY UPDATE total_slots = v, remaining_slots = v`. */
    method UpsertEntry(k: Key, v: int)
      modifies this
      ensures Snapshot() == Upsert(old(Snapshot()), k, v)
    {
      if k in schedules {
        schedules := schedules[k := Entry(schedules[k].id, v, v)];
      } else {
        schedules := schedules[k := Entry(nextScheduleId, v, v)];
        nextScheduleId := nextScheduleId + 1;
      }
    }

    /** `POST /appointments`: lock the entry, check it, take a slot, insert the record.
        `insertFails` stands for the INSERT raising after the slot was taken. */
    method CreateAppointment(req: BookRequest, insertFails: bool) returns (o: Outcome<nat>)
      requires Valid()
      modifies this
      ensures Valid()
      ensures (Snapshot(), o) == Book(old(Snapshot()), req, insertFails)
    {
      if !HasRequiredFields(req) {
        return Err(MissingFields);
      }
      var saved := Snapshot();
      var k := BookKey(req);
      ghost var expected := Book(saved, req, insertFails);
      if k !in schedules {
        Rollback(saved);
        return Err(NoSlotsOpened);
      }
      var e := schedules[k];
      if e.remaining <= 0 {
        Rollback(saved);
        return Err(SlotsFull);
      }
      schedules := schedules[k := e.(remaining := e.remaining - 1)];
      if insertFails {
        Rollback(saved);
        return Err(StorageFailure);
      }
      var id := nextAppointmentId;
      appointments := appointments[id := NewAppointment(id, req)];
      nextAppointmentId := id + 1;
      o := Ok(id);
      assert (Snapshot(), o) == expected;
    }

    /** Cancel an appointment: lock the record, check it, mark it cancelled, then give
        one slot back to its entry. `restoreFails` stands for the second UPDATE raising. */
    method CancelAppointment(ref: IdSource, restoreFails: bool) returns (o: Outcome<()>)
      requires Valid()
      modifies this
      ensures Valid()
      ensures (Snapshot(), o) == Cancel(old(Snapshot()), ref, restoreFails)
    {
      var target := CancelTarget(ref);
      if target.None? {
        return Err(IdRequired);
      }
      var id := target.value;
      var saved := Snapshot();
      if id !in appointments {
        Rollback(saved);
        return Err(AppointmentNotFound);
      }
      var a := appointments[id];
      ghost var expected := Cancel(saved, ref, restoreFails);
      if a.status == Cancelled {
        Rollback(saved);
        return Err(AlreadyCancelled);
      }
      appointments := appointments[id := a.(status := Cancelled)];
      if restoreFails {
        Rollback(saved);
        return Err(StorageFailure);
      }
      // The UPDATE matches by (doctor, date, period) and touches nothing when the
      // entry is gone.
      if a.key in schedules {
        schedules := schedules[a.key := schedules[a.key].(remaining := schedules[a.key].remaining + 1)];
      }
      o := Ok(());
      assert (Snapshot(), o) == expected;
    }

    /** `POST /admin/schedules`: upsert one entry. */
    method SaveSchedule(backend: Backend, req: SaveRequest) returns (o: Outcome<()>)
      requires Valid()
      modifies this
      ensures Valid()
      ensures (Snapshot(), o) == Save(old(Snapshot()), backend, req)
    {
      if !SaveAccepted(backend, req) {
        return Err(MissingFields);
      }
      UpsertEntry(SaveKey(req), req.totalSlots.value);
      o := Ok(());
    }

    /** The list of dates of a batch request, built the way the handler builds it: a
        day-by-day walk from start to end, or `days` steps from today. */
    static method MaterializeDates(req: BatchRequest, today: Day) returns (r: Option<seq<Day>>)
      ensures r == BatchDates(req, today)
    {
      if req.startDate.Some? && req.endDate.Some? {
        var start, end := req.startDate.value, req.endDate.value;
        var dates := [];
        var current := start;
        while current <= end
          invariant start <= current && (current <= end + 1 || current == start)
          invariant dates == DayRange(start, current - 1)
          decreases end - current
        {
          dates := dates + [current];
          current := current + 1;
        }
        return Some(dates);
      } else if req.days.Some? && req.days.value != 0 {
        var dates := [];
        var i := 0;
        while i < req.days.value
          invariant 0 <= i && (i <= req.days.value || i == 0)
          invariant dates == DayRange(today, today + i - 1)
          decreases req.days.value - i
        {
          dates := dates + [today + i];
          i := i + 1;
        }
        return Some(dates);
      } else {
        return None;
      }
    }

    /** `POST /admin/schedules/batch`: one upsert per date and writable period, in one
        transaction. `failAt` names the write, by position, that raises, if any. */
    method BatchSchedules(req: BatchRequest, today: Day, failAt: Option<nat>) returns (o: Outcome<nat>)
      requires Valid()
      modifies this
      ensures Valid()
      ensures (Snapshot(), o) == Batch(old(Snapshot()), req, today, failAt)
    {
      if !GivenId(req.doctorId) {
        return Err(MissingDoctorId);
      }
      var maybeDates := MaterializeDates(req, today);
      if maybeDates.None? {
        return Err(MissingDateSpec);
      }
      var dates := maybeDates.value;
      var saved := Snapshot();
      var failed := WriteDates(req.doctorId.value, dates, req.morningSlots, req.afternoonSlots, failAt);
      if failed {
        Rollback(saved);
        return Err(StorageFailure);
      }
      o := Ok(|dates|);
    }

    /** The batch's loop: for each date in order, its day's upserts. Stops at the write
        numbered `failAt`, if there is one. */
    method WriteDates(doctor: nat, dates: seq<Day>, morning: Option<int>, afternoon: Option<int>, failAt: Option<nat>)
      returns (failed: bool)
      modifies this
      ensures failed <==> failAt.Some? && failAt.value < |Writes(doctor, dates, morning, afternoon)|
      ensures !failed ==> Snapshot() == UpsertAll(old(Snapshot()), Writes(doctor, dates, morning, afternoon))
    {
      ghost var saved := Snapshot();
      var count := 0;
      ghost var done: seq<(Key, int)> := [];
      for i := 0 to |dates|
        invariant done == Writes(doctor, dates[..i], morning, afternoon)
        invariant Snapshot() == UpsertAll(saved, done)
        invariant count == |done|
        invariant failAt.None? || failAt.value >= count
      {
        assert dates[..i + 1][..i] == dates[..i];
        ghost var day := DayWrites(doctor, dates[i], morning, afternoon);
        failed, count := WriteDay(doctor, dates[i], morning, afternoon, failAt, count);
        if failed {
          WritesPrefix(doctor, dates, i + 1, morning, afternoon);
          return;
        }
        UpsertAllAppend(saved, done, day);
        done := done + day;
      }
      assert dates[..|dates|] == dates;
      failed := false;
    }

    /** The upserts for one date: the morning entry, then the afternoon entry, each only
        when its count is writable. Writes are numbered from `count`; the one numbered
        `failAt` raises instead, leaving the store for the caller to roll back. */
    method WriteDay(doctor: nat, d: Day, morning: Option<int>, afternoon: Option<int>, failAt: Option<nat>, count: nat)
      returns (failed: bool, next: nat)
      requires failAt.None? || failAt.value >= count
      modifies this
      ensures failed ==> failAt.Some? && failAt.value < count + |DayWrites(doctor, d, morning, afternoon)|
      ensures !failed ==> next == count + |DayWrites(doctor, d, morning, afternoon)|
      ensures !failed ==> Snapshot() == UpsertAll(old(Snapshot()), DayWrites(doctor, d, morning, afternoon))
      ensures !failed ==> failAt.None? || failAt.value >= next
    {
      ghost var start := Snapshot();
      var mk, ak := Key(doctor, d, Morning), Key(doctor, d, Afternoon);
      next := count;
      if Writable(morning) {
        if failAt == Some(next) {
          return true, next;
        }
        UpsertEntry(mk, morning.value);
        next := next + 1;
        assert [(mk, morning.value)][..0] == [];
      }
      ghost var afterMorning := Snapshot();
      if Writable(afternoon) {
        if failAt == Some(next) {
          return true, next;
        }
        UpsertEntry(ak, afternoon.value);
        next := next + 1;
        if Writable(morning) {
          ghost var ws := [(mk, morning.value), (ak, afternoon.value)];
          assert ws[..1] == [(mk, morning.value)];
          assert UpsertAll(start, ws[..1]) == afterMorning;
        } else {
          assert [(ak, afternoon.value)][..0] == [];
        }
      }
      failed := false;
    }

    /** `POST /admin/schedules/updateOne`: reset total and remaining of the entry with
        the given id. */
    method UpdateSchedule(backend: Backend, req: UpdateRequest) returns (o: Outcome<()>)
      requires Valid()
      modifies this
      ensures Valid()
      ensures (Snapshot(), o) == Update(old(Snapshot()), backend, req)
    {
      var target := UpdateTarget(req.scheduleId);
      if target.None? {
        return Err(IdRequired);
      }
      var slots := ChosenSlots(backend, req);
      if slots.None? {
        return Err(NoFieldsToUpdate);
      }
      var id, v := target.value, slots.value;
      var matched := HasScheduleId(Snapshot(), id);
      schedules := SetById(Snapshot(), id, v).schedules;
      if backend != Express && !matched {
        // rowcount == 0: nothing was written, and the handler answers 404
        assert schedules == old(schedules);
        return Err(ScheduleNotFound);
      }
      o := Ok(());
    }

    /** The rows whose key passes `keep`, in `ORDER BY schedule_date, doctor_id, period`
        order: exactly the entries of the table that pass, each once. */
    method SelectSorted(keep: Key -> bool) returns (rows: seq<Row>)
      ensures SortedRows(rows)
      ensures forall row :: row in rows <==> row.key in schedules && schedules[row.key] == row.entry && keep(row.key)
    {
      var todo := schedules.Keys;
      rows := [];
      while todo != {}
        invariant todo <= schedules.Keys
        invariant SortedRows(rows)
        invariant forall row :: row in rows <==>
                    row.key in schedules && row.key !in todo && schedules[row.key] == row.entry && keep(row.key)
        decreases |todo|
      {
        var k :| k in todo;
        if keep(k) {
          assert forall i :: 0 <= i < |rows| ==> rows[i].key != k by {
            forall i | 0 <= i < |rows| ensures rows[i].key != k {
              assert rows[i] in rows;
            }
          }
          rows := InsertRow(rows, Row(k, schedules[k]));
        }
        todo := todo - {k};
      }
    }

    /** `GET /doctors/{id}/schedules`: the doctor's entries from `startDate` (default
        today) on, by date then period. */
    method DoctorSchedules(doctor: nat, startDate: Option<Day>, today: Day) returns (rows: seq<Row>)
      ensures SortedRows(rows)
      ensures forall row :: row in rows <==>
                row.key in schedules && schedules[row.key] == row.entry
                && row.key.doctor == doctor && row.key.date >= startDate.GetOr(today)
    {
      var start := startDate.GetOr(today);
      rows := SelectSorted((k: Key) => k.doctor == doctor && k.date >= start);
    }

    /** `GET /admin/schedules` (router shape). */
    method AdminSchedules(backend: Backend, doctorId: Option<nat>, startDate: Option<Day>, endDate: Option<Day>, today: Day)
      returns (ans: AdminAnswer)
      requires Valid()
      ensures ans.Merged? <==> QueryIdFilters(backend, doctorId) && startDate.Some? && endDate.Some?
      ensures ans.Flat? ==> SortedRows(ans.rows)
      ensures ans.Flat? ==> forall row :: row in ans.rows <==>
                row.key in schedules && schedules[row.key] == row.entry
                && AdminMatches(backend, row.key, doctorId, startDate, endDate, today)
      ensures ans.Merged? ==>
                && |ans.days| == Max(0, endDate.value - startDate.value + 1)
                && forall i :: 0 <= i < |ans.days| ==>
                     ans.days[i] == ExpectedDay(schedules, doctorId.value, startDate.value + i)
    {
      var rows := SelectSorted((k: Key) => AdminMatches(backend, k, doctorId, startDate, endDate, today));
      if !(QueryIdFilters(backend, doctorId) && startDate.Some? && endDate.Some?) {
        return Flat(rows);
      }
      forall k: Key {
        AdminMatchesCalendar(backend, k, doctorId, startDate.value, endDate.value, today);
      }
      var days := MergeDays(rows, doctorId.value, startDate.value, endDate.value);
      return Merged(days);
    }

    /** The merge: collect each date's morning and afternoon entry from the rows, then
        walk the range day by day, filling a day without entries with zeros. */
    method MergeDays(rows: seq<Row>, doctor: nat, start: Day, end: Day) returns (days: seq<DayRow>)
      requires forall row :: row in rows <==>
                 row.key in schedules && schedules[row.key] == row.entry
                 && InCalendar(row.key, doctor, start, end)
      ensures |days| == Max(0, end - start + 1)
      ensures forall i :: 0 <= i < |days| ==> days[i] == ExpectedDay(schedules, doctor, start + i)
    {
      var dateMap: map<Day, DayRow> := map[];
      ghost var seen: map<Key, Entry> := map[];
      for j := 0 to |rows|
        invariant forall i :: 0 <= i < j ==> rows[i].key in seen && seen[rows[i].key] == rows[i].entry
        invariant forall k :: k in seen ==> k in schedules && seen[k] == schedules[k] && k.doctor == doctor
        invariant forall d :: d in dateMap ==> dateMap[d] == ExpectedDay(seen, doctor, d)
        invariant forall d :: d !in dateMap ==> Key(doctor, d, Morning) !in seen && Key(doctor, d, Afternoon) !in seen
      {
        var row := rows[j];
        assert row in rows;
        var d := row.key.date;
        var item := if d in dateMap then dateMap[d] else DayRow(d, 0, 0, None, None, doctor);
        if row.key.period == Morning {
          item := item.(morningSlots := row.entry.total, morningId := Some(row.entry.id));
        } else if row.key.period == Afternoon {
          item := item.(afternoonSlots := row.entry.total, afternoonId := Some(row.entry.id));
        }
        dateMap := dateMap[d := item];
        seen := seen[row.key := row.entry];
      }
      days := [];
      var current := start;
      while current <= end
        invariant start <= current && (current <= end + 1 || current == start)
        invariant |days| == current - start
        invariant forall i :: 0 <= i < |days| ==> days[i] == ExpectedDay(schedules, doctor, start + i)
        decreases end - current
      {
        var mk, ak := Key(doctor, current, Morning), Key(doctor, current, Afternoon);
        if mk in schedules {
          assert Row(mk, schedules[mk]) in rows;
        }
        if ak in schedules {
          assert Row(ak, schedules[ak]) in rows;
        }
        var item := if current in dateMap then dateMap[current] else DayRow(current, 0, 0, None, None, doctor);
        assert item == ExpectedDay(schedules, doctor, current);
        days := days + [item];
        current := current + 1;
      }
    }

    /** The merged admin view in the shape the monolith and the Express port return,
        each day keyed by its ISO date (as the monolith does): `id` is the morning
        entry's id or else the afternoon entry's. */
    method LegacyMergedDays(doctor: nat, start: Day, end: Day) returns (days: seq<LegacyDayRow>)
      ensures |days| == Max(0, end - start + 1)
      ensures forall i :: 0 <= i < |days| ==> days[i] == LegacyRow(ExpectedDay(schedules, doctor, start + i))
    {
      var rows := SelectSorted((k: Key) => InCalendar(k, doctor, start, end));
      var merged := MergeDays(rows, doctor, start, end);
      days := seq(|merged|, i requires 0 <= i < |merged| => LegacyRow(merged[i]));
    }

    /** `GET /appointments`: the records passing the filters, newest first (ids grow with
        creation time, so newest first is descending id). */
    method ListAppointments(backend: Backend, phone: Option<string>, doctorId: Option<nat>, status: Option<string>)
      returns (list: seq<Appointment>)
      requires Valid()
      ensures forall i, j :: 0 <= i < j < |list| ==> list[i].id > list[j].id
      ensures forall a :: a in list <==> a.id in appointments && appointments[a.id] == a && ListMatches(backend, a, phone, doctorId, status)
    {
      list := [];
      var id := nextAppointmentId;
      while id > 0
        invariant 0 <= id <= nextAppointmentId
        invariant forall i :: 0 <= i < |list| ==> list[i].id >= id
        invariant forall i, j :: 0 <= i < j < |list| ==> list[i].id > list[j].id
        invariant forall a :: a in list <==>
                    a.id in appointments && appointments[a.id] == a && a.id >= id && ListMatches(backend, a, phone, doctorId, status)
      {
        id := id - 1;
        if id in appointments && ListMatches(backend, appointments[id], phone, doctorId, status) {
          list := list + [appointments[id]];
        }
      }
    }
  }

  /** Applying two lists of upserts one after the other is applying their concatenation. */
  lemma {:induction false} UpsertAllAppend(t: Tables, a: seq<(Key, int)>, b: seq<(Key, int)>)
    ensures UpsertAll(UpsertAll(t, a), b) == UpsertAll(t, a + b)
    decreases |b|
  {
    if b == [] {
      assert a + b == a;
    } else {
      assert (a + b)[..|a + b| - 1] == a + b[..|b| - 1];
      UpsertAllAppend(t, a, b[..|b| - 1]);
    }
  }

  /** The writes for the first `j` dates are a prefix of the writes for all of them. */
  lemma {:induction false} WritesPrefix(doctor: nat, dates: seq<Day>, j: nat, morning: Option<int>, afternoon: Option<int>)
    requires j <= |dates|
    ensures Writes(doctor, dates[..j], morning, afternoon) <= Writes(doctor, dates, morning, afternoon)
    decreases |dates|
  {
    if j < |dates| {
      var init := dates[..|dates| - 1];
      assert init[..j] == dates[..j];
      WritesPrefix(doctor, init, j, morning, afternoon);
    } else {
      assert dates[..j] == dates;
    }
  }
}
