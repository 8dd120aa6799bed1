/**
 * The two tables of the appointment-slot ledger and the request and error shapes
 * of the endpoints that touch them.
 *
 * `doctor_schedules` is keyed by (doctor_id, schedule_date, period) and holds an
 * auto-increment id, total_slots and remaining_slots; `appointments` maps an
 * auto-increment id to a booking record. Dates are day numbers; ids start at 1, so
 * an id of 0 is falsy exactly like an absent one.
 */
module SlotTables {

  import opened Values
  import opened Text

  type Day = int

  /** The two period labels the batch endpoint writes (morning, afternoon). */
  const Morning: string := "上午"
  const Afternoon: string := "下午"

  datatype Key = Key(doctor: nat, date: Day, period: string)

  datatype Entry = Entry(id: nat, total: int, remaining: int)

  datatype Status = Pending | Cancelled {
    /** The text stored in the `status` column. */
    function Text(): string {
      match this
      case Pending => "pending"
      case Cancelled => "cancelled"
    }
  }

  /** Display fields copied from the caller's request at booking time; never re-read. */
  datatype Snapshot = Snapshot(
    doctorName: Option<string>,
    hospitalName: Option<string>,
    departmentName: Option<string>,
    registrationFee: Option<string>)

  datatype Patient = Patient(
    name: string,
    gender: Option<string>,
    age: Option<int>,
    phone: string,
    symptoms: Option<string>)

  datatype Appointment = Appointment(id: nat, key: Key, snapshot: Snapshot, patient: Patient, status: Status)

  /** Both tables and their auto-increment counters. */
  datatype Tables = Tables(
    schedules: map<Key, Entry>,
    appointments: map<nat, Appointment>,
    nextScheduleId: nat,
    nextAppointmentId: nat)

  /** What the auto-increment columns guarantee: ids are positive, below the counter,
      and a schedule id names at most one entry; an appointment is stored under its id. */
  ghost predicate WellFormed(t: Tables) {
    && 1 <= t.nextScheduleId
    && 1 <= t.nextAppointmentId
    && (forall k :: k in t.schedules ==> 1 <= t.schedules[k].id < t.nextScheduleId)
    && (forall k1, k2 :: k1 in t.schedules && k2 in t.schedules && t.schedules[k1].id == t.schedules[k2].id ==> k1 == k2)
    && (forall i :: i in t.appointments ==> 1 <= i < t.nextAppointmentId && t.appointments[i].id == i)
  }

  const EmptyTables: Tables := Tables(map[], map[], 1, 1)

  /** Which of the three implementations: the FastAPI routers package, the
      older FastAPI monolith (`app.py`), or the Express port (`server.js`). */
  datatype Backend = Router | Monolith | Express

  /** Where an id comes from: a JSON body field (may be absent) or a URL path segment. */
  datatype IdSource = FromBody(field: Option<nat>) | FromPath(id: nat)

  datatype Error =
    | MissingFields        // 400 "Missing required fields"
    | NoSlotsOpened        // 400: no schedule entry for the slot
    | SlotsFull            // 400: remaining_slots <= 0
    | IdRequired           // 400 "appointmentId is required" / "scheduleId is required"
    | AppointmentNotFound  // 404
    | AlreadyCancelled     // 400
    | MissingDoctorId      // 400 "Missing doctorId"
    | MissingDateSpec      // 400 "Missing date range or days parameter"
    | NoFieldsToUpdate     // 400
    | ScheduleNotFound     // 404
    | StorageFailure       // an exception inside the transaction: rolled back, 500
  {
    function HttpStatus(): int {
      match this
      case AppointmentNotFound => 404
      case ScheduleNotFound => 404
      case StorageFailure => 500
      case _ => 400
    }
  }

  datatype Outcome<+T> = Ok(value: T) | Err(error: Error)

  datatype BookRequest = BookRequest(
    doctorId: Option<nat>,
    scheduleDate: Option<Day>,
    period: Option<string>,
    patientName: Option<string>,
    patientPhone: Option<string>,
    snapshot: Snapshot,
    patientGender: Option<string>,
    patientAge: Option<int>,
    symptoms: Option<string>)

  datatype SaveRequest = SaveRequest(
    doctorId: Option<nat>,
    scheduleDate: Option<Day>,
    period: Option<string>,
    totalSlots: Option<int>)

  datatype BatchRequest = BatchRequest(
    doctorId: Option<nat>,
    days: Option<int>,
    startDate: Option<Day>,
    endDate: Option<Day>,
    morningSlots: Option<int>,
    afternoonSlots: Option<int>)

  datatype UpdateRequest = UpdateRequest(
    scheduleId: IdSource,
    totalSlots: Option<int>,
    morningSlots: Option<int>,
    afternoonSlots: Option<int>)

  /** One row of the schedule table as a query returns it. */
  datatype Row = Row(key: Key, entry: Entry)

  /** One day of the admin calendar view (the router's shape, which names both ids). */
  datatype DayRow = DayRow(
    date: Day,
    morningSlots: int,
    afternoonSlots: int,
    morningId: Option<nat>,
    afternoonId: Option<nat>,
    doctorId: nat)

  /** The same day in the shape `app.py` and `server.js` return: one id. */
  datatype LegacyDayRow = LegacyDayRow(id: Option<nat>, date: Day, morningSlots: int, afternoonSlots: int)

  /** `ORDER BY schedule_date, doctor_id, period`. */
  predicate KeyLt(a: Key, b: Key) {
    a.date < b.date
    || (a.date == b.date && a.doctor < b.doctor)
    || (a.date == b.date && a.doctor == b.doctor && StrLt(a.period, b.period))
  }

  lemma KeyLtIrreflexive(a: Key)
    ensures !KeyLt(a, a)
  {
    StrLtIrreflexive(a.period);
  }

  lemma KeyLtTransitive(a: Key, b: Key, c: Key)
    requires KeyLt(a, b) && KeyLt(b, c)
    ensures KeyLt(a, c)
  {
    if a.date == b.date == c.date && a.doctor == b.doctor == c.doctor {
      StrLtTransitive(a.period, b.period, c.period);
    }
  }

  lemma KeyLtTotal(a: Key, b: Key)
    ensures a == b || KeyLt(a, b) || KeyLt(b, a)
  {
    StrLtTotal(a.period, b.period);
  }

  /** Rows strictly ascending by key: sorted and free of duplicates. */
  predicate SortedRows(rows: seq<Row>) {
    forall i, j :: 0 <= i < j < |rows| ==> KeyLt(rows[i].key, rows[j].key)
  }
}
