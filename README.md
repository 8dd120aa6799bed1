# Appointment-slot ledger of a hospital booking mini-app, in Dafny

The system is a WeChat mini-app for booking doctor appointments. It has three
interchangeable backends: a FastAPI service split into routers, an older FastAPI
monolith (`app.py`) and an Express port (`server.js`). Their shared core is a ledger
of appointment slots held in two tables:

- `doctor_schedules`: one entry per (doctor, date, period), with a total and a remaining number of slots;
- `appointments`: one record per booking, `pending` or `cancelled`.

Booking takes a slot and inserts a pending record inside one transaction, and
cancelling gives the slot back. The admin endpoints seed entries one at a time, in
batches over a date range, or by id. They also list entries, or merge a doctor's
morning and afternoon entries into one calendar row per day.

Around the ledger sit smaller pieces:

- avatar text handling (stripping `data:` URI prefixes, serving a stored image as a data URI);
- the doctor row mappers;
- the mini-app's global state: favourite hospitals, locally kept appointments, and a queue of callbacks waiting for the doctor list;
- the booking form's checks;
- the keyword searches of three pages.

The project models these as follows.

- `slot_tables.dfy` holds the tables as values (`Tables`), the request shapes and the error answers.
- `slot_spec.dfy` holds each ledger transaction as a pure function from the tables before to the tables after plus the answer. It also holds the ledger's properties: no over-booking, balance of remaining and pending slots, rollback, and book-then-cancel.
- `slot_ledger.dfy` holds a `Ledger` class whose methods do the same work step by step: the batch loop, the date loop, the merge loops, sorted selection. Each method is proved to produce exactly what the matching function produces.
- `avatar.dfy` and `doctor_rows.dfy` model the helpers of `backend_fastapi/utils.py` and their copies in `app.py` and `server.js`.
- `mini_app.dfy`, `doctor_helper.dfy`, `appointment_detail.dfy` and `search.dfy` model the mini-app side.
- `values.dfy`, `text.dfy` and `seqs.dfy` are shared helpers:
  - optional values;
  - trimming, ASCII lower-casing, substring search, `str.replace`, decimal digits and `parseInt`;
  - `Array.prototype.filter`.

Conventions of the model:

- **Three backends.** Where they differ, the transaction takes a `Backend` argument (`Router`, `Monolith`, `Express`).
- **Ids.** Ids are natural numbers. In a JSON body, a missing id and the id 0 are both falsy. A `doctorId` in a listing query is falsy only when absent for the routers and the Express port, which keep the query text (`"0"` is truthy), and also when 0 for the monolith, which declares it an integer (`SlotSpec.QueryIdFilters`).
- **Dates.** Dates are day numbers, and "today" is a parameter.
- **Failures.** A storage failure inside a transaction is a parameter (`insertFails`, `restoreFails`, `failAt`), so the model also covers the rolled-back outcome.
- **Stubs.** The current time, device storage, the network reply and the base64 encoder and decoder are parameters or fields.

## Model

| member | source | states |
|---|---|---|
| SlotTables.KeyLtTotal | backend_fastapi/routers/schedules.py:136 | The row order (date, then doctor, then period) relates any two distinct keys, so listings are totally ordered |
| SlotSpec.Book | backend_fastapi/routers/appointments.py:11-78 | Missing doctorId/date/period/name/phone gives "missing fields"; no entry gives "no slots opened"; remaining ≤ 0 gives "full". Any error leaves both tables unchanged. Success happens exactly when all checks pass and the insert does not fail; then one slot is taken at that entry only and one pending record is added. Table invariants are kept. The monolith and Express port do the same (app.py:546-616, server.js:650-739) |
| SlotSpec.Cancel | backend_fastapi/routers/appointments.py:104-141 | No id gives "id required" (iff); an unknown id gives 404; an already cancelled record gives "already cancelled". Errors change nothing. Success happens exactly for a pending record whose restore does not fail; it then marks only that record cancelled and returns one slot to its entry if the entry exists. Same in app.py:641-675 and server.js:775-831 with the id from the path |
| SlotSpec.Upsert | backend_fastapi/routers/schedules.py:41-48 | After the upsert, total = remaining = the value, an existing entry keeps its id, other entries and the appointments are unchanged, and the table invariants are kept |
| SlotSpec.Save | backend_fastapi/routers/schedules.py:31-50 | The save is accepted iff doctorId, date and period are truthy and totalSlots is present (Express also rejects 0, server.js:413). A rejection changes nothing; an accepted save is one upsert |
| SlotSpec.DayRange | backend_fastapi/routers/schedules.py:64-70 | The inclusive day range in ascending order, empty when start > end |
| SlotSpec.UpsertAll | backend_fastapi/routers/schedules.py:83-101 | A run of upserts never touches the appointments and keeps the table invariants |
| SlotSpec.UpsertAllEffect | backend_fastapi/routers/schedules.py:83-101 | After a run of upserts each key holds the last value written to it, and an unwritten key is exactly as before |
| SlotSpec.DayWritesLast | backend_fastapi/routers/schedules.py:84-101 | One date's writes set the morning key to morningSlots and the afternoon key to afternoonSlots, each only when present and ≥ 0 |
| SlotSpec.PlannedStep | backend_fastapi/routers/schedules.py:84-101 | Adding one more date to a batch: that date's writes decide its two keys, and the plan for the earlier dates decides every other key |
| SlotSpec.WritesRealisePlan | backend_fastapi/routers/schedules.py:83-101 | Over all dates, the last write to each key is the planned value: the morning or afternoon count for that doctor on a covered date, else none |
| SlotSpec.Batch | backend_fastapi/routers/schedules.py:53-108 | No doctorId gives "missing doctorId"; neither a start/end pair nor a non-zero days gives "missing date range"; a failing write rolls everything back. The batch commits exactly when doctorId and a date spec are present and no write fails, and then answers the number of dates. Errors change nothing. Table invariants are kept |
| SlotSpec.BatchAppliesPlan | backend_fastapi/routers/schedules.py:83-108 | A committed batch resets exactly the planned entries (total = remaining = count), leaves all other entries and the appointments alone |
| SlotSpec.ChosenSlotsPrecedence | backend_fastapi/routers/schedules.py:189-193 | The update's count is totalSlots, else morningSlots, else afternoonSlots; "no fields" iff all three are absent |
| SlotSpec.SetById | backend_fastapi/routers/schedules.py:196-199 | The entry with that id gets total = remaining = value; every other entry and the appointments are unchanged; invariants are kept |
| SlotSpec.Update | backend_fastapi/routers/schedules.py:184-202 | No id gives "id required" (iff); no count gives "no fields"; "not found" iff the Python backends see no entry with that id. The update succeeds exactly when an id and a count are present and the entry exists, or the backend is Express, which does not check. On success every entry with that id gets total = remaining = the count. Errors change nothing |
| SlotSpec.ExpressUpdateOfUnknownId | backend/server.js:616-640 | The Express update of an id no entry has reports success and changes nothing |
| SlotSpec.LegacyDayId | backend_fastapi/app.py:511-521 | The monolith's day row id is the morning entry's id, else the afternoon entry's, and absent exactly when the day has neither |
| SlotSpec.ExpressDateMap | backend/server.js:557-577 | As written, the Express merge files every row under the row's own date object, never under a date string |
| SlotSpec.ExpressMergeAsWritten | backend/server.js:583-603 | As written, every day of the range comes out with no id and zero slots |
| SlotSpec.ExpressMergeHidesSlots | backend/server.js:553-605 | A day with five morning slots shows them in the reference answer but shows zero in the Express merge as written |
| SlotSpec.BookKeepsBalance | backend_fastapi/routers/appointments.py:43-70 | If an entry's remaining + pending bookings = total before a booking, it still holds after, for every entry |
| SlotSpec.CancelKeepsBalance | backend_fastapi/routers/appointments.py:123-135 | If an entry's remaining + pending bookings = total before a cancel, it still holds after, for every entry |
| SlotSpec.ReseedBalance | backend_fastapi/routers/schedules.py:43-47 | After a re-seed the entry is balanced iff it had no pending bookings: re-seeding forgets them |
| SlotSpec.ReseedResets | backend_fastapi/routers/schedules.py:45 | A second save of the same key sets total and remaining to the second value, whatever the first was |
| SlotSpec.BookOnKey | backend_fastapi/routers/appointments.py:33-46 | One booking against an existing entry succeeds iff a slot remains, then takes exactly one slot and adds one pending booking for that key; no other entry changes |
| SlotSpec.NoOverbooking | backend_fastapi/routers/appointments.py:25-46 | Of n bookings against an entry with K remaining, exactly min(n, max(0, K)) succeed; remaining ends at max(0, K − n) (unchanged if K ≤ 0); each success adds one pending booking; no other entry changes |
| SlotSpec.LastSlotGoesOnce | backend_fastapi/routers/appointments.py:38-41 | Two bookings of the last slot: exactly one succeeds and remaining ends at 0 |
| SlotSpec.BookThenCancelRestores | backend_fastapi/routers/appointments.py:127-134 | Cancelling a booking just made succeeds and restores the schedule table exactly |
| SlotSpec.CancelTwice | backend_fastapi/routers/appointments.py:119-122 | A second cancel of the same record fails with "already cancelled" and changes nothing |
| SlotSpec.CancelAfterReseedExceedsTotal | backend_fastapi/routers/appointments.py:127-134 | Book the only slot, re-seed the entry with one slot, then cancel: remaining becomes 2 while total is 1 |
| SlotLedger.Ledger.Rollback | backend_fastapi/routers/appointments.py:71-74 | Rolling back restores the tables saved when the transaction began |
| SlotLedger.Ledger.UpsertEntry | backend_fastapi/routers/schedules.py:41-48 | The in-place upsert leaves the tables equal to `Upsert` of the old tables |
| SlotLedger.Ledger.CreateAppointment | backend_fastapi/routers/appointments.py:12-78 | The in-place booking (lock, check, decrement, insert, roll back on failure) gives the tables and answer of `Book`, and keeps the invariants |
| SlotLedger.Ledger.CancelAppointment | backend_fastapi/routers/appointments.py:105-141 | The in-place cancel gives the tables and answer of `Cancel`, and keeps the invariants |
| SlotLedger.Ledger.SaveSchedule | backend_fastapi/routers/schedules.py:32-50 | The save endpoint gives the tables and answer of `Save` |
| SlotLedger.Ledger.MaterializeDates | backend_fastapi/routers/schedules.py:63-77 | The while and for loops build exactly the inclusive range, or `days` days from today, or report the missing date spec |
| SlotLedger.Ledger.BatchSchedules | backend_fastapi/routers/schedules.py:54-108 | The batch endpoint, including its rollback, gives the tables and answer of `Batch`, and keeps the invariants |
| SlotLedger.Ledger.WriteDates | backend_fastapi/routers/schedules.py:83-101 | The per-date loop fails iff the failing write is one it issues; otherwise it leaves the tables equal to all the batch's upserts applied in order |
| SlotLedger.Ledger.WriteDay | backend_fastapi/routers/schedules.py:84-101 | One date's morning and afternoon upserts, counting writes for the failure position |
| SlotLedger.Ledger.UpdateSchedule | backend_fastapi/routers/schedules.py:185-202 | The update endpoint gives the tables and answer of `Update`, and keeps the invariants |
| SlotLedger.Ledger.SelectSorted | backend_fastapi/routers/schedules.py:118-137 | The query returns, strictly ascending by (date, doctor, period), exactly the stored entries the filter keeps |
| SlotLedger.Ledger.DoctorSchedules | backend_fastapi/routers/schedules.py:12-28 | Exactly the doctor's entries dated on or after startDate (default today), ordered by date then period |
| SlotSpec.AdminMatchesCalendar | backend_fastapi/routers/schedules.py:125-135 | When doctorId filters and both dates are given, the admin query selects exactly that doctor's entries dated within the range |
| SlotLedger.Ledger.AdminSchedules | backend_fastapi/routers/schedules.py:111-181 | The merged calendar is returned iff doctorId filters (any given id for the routers and Express, a non-zero one for the monolith) and startDate and endDate are both given, with one reference day per date of the range. Otherwise the answer is the sorted entries matching the given filters, or entries from today on when no date bound is given |
| SlotLedger.Ledger.MergeDays | backend_fastapi/routers/schedules.py:139-179 | The two merge loops give one row per day of the range, each equal to that day's morning and afternoon entries (zero and no id when missing) |
| SlotLedger.Ledger.LegacyMergedDays | backend_fastapi/app.py:485-523 | The monolith's merge gives one row per day with id = morning id or afternoon id; this is also the Express merge as intended |
| SlotLedger.Ledger.ListAppointments | backend_fastapi/routers/appointments.py:81-100 | Exactly the stored records matching each truthy filter (phone, doctorId, status), newest first. A doctorId of 0 filters for the routers and Express and is ignored by the monolith |
| Avatar.NormalizeAvatar | backend_fastapi/utils.py:26-31 | Nothing iff the value is not a non-empty string; otherwise the result is no longer than the input and starts and ends with a non-space |
| Avatar.NormalizePlain | backend_fastapi/utils.py:29-31 | Text containing neither prefix is only trimmed |
| Avatar.NormalizeDataUri | backend_fastapi/utils.py:26-31 | A PNG or JPEG data URI around base64 text normalises to exactly that text |
| Avatar.DataUriPrefixLength | backend/server.js:37 | When the anchored `data:image/<type>;base64,` pattern matches, the match starts at `data:image/` and covers a non-empty type |
| Avatar.StripDataUriPrefix | backend/server.js:37 | Stripping the pattern never lengthens the text |
| Avatar.DataUriPrefixMatches | backend/server.js:37 | The matcher answers a prefix length exactly when the text is `data:image/`, a non-empty run of `[a-zA-Z0-9+/]`, then `;base64,` with that run's length: every match is found, and nothing else counts as one |
| Avatar.JsKeepsParameterisedDataUri | backend/server.js:37 | A data URI whose media type carries a parameter (`svg+xml;charset=utf-8`) does not match the class, so its prefix is kept |
| Avatar.JsNormalizeAvatar | backend/server.js:33-38 | Nothing iff the value is not a non-empty string; otherwise no longer than the input |
| Avatar.JsStripsDataUri | backend/server.js:37 | A data URI of any image type made of `[a-zA-Z0-9+/]` loses exactly its prefix |
| Avatar.JsNormalizeDataUri | backend/server.js:33-38 | The Express normaliser reduces a PNG or JPEG data URI around base64 text to exactly that text |
| Avatar.JsLeavesUnprefixed | backend/server.js:37 | Text not starting with `data:image/` is only trimmed, since the pattern is anchored |
| Avatar.BackendsAgreeOnDataUri | backend/server.js:33-38 | On a PNG or JPEG data URI around base64 text, the Python and Express normalisers store the same text |
| Avatar.ToAvatarDataUri | backend_fastapi/utils.py:84-94 | Nothing iff both the stored text and the default are empty; otherwise a PNG data URI around the stored text, or around the default when the stored text is blank |
| Avatar.GetAvatarBase64 | backend/server.js:40-54 | Nothing iff both the stored text and the default are empty |
| Avatar.ServingAgrees | backend/server.js:40-54 | The Express and Python serving rules give the same answer on every value |
| Avatar.ServeThenNormalize | backend_fastapi/utils.py:84-94 | Serving stored base64 text and normalising the served URI gives the text back, in both backends |
| Avatar.ProcessAvatarPayload | backend_fastapi/utils.py:71-81 | A result exists iff normalisation gives non-empty text that decodes; it is the re-encoded compressed image |
| Avatar.ProcessDataUri | backend_fastapi/utils.py:71-81 | An uploaded data URI is decoded from its base64 body |
| DoctorRows.AvatarUrl | backend_fastapi/utils.py:108 | The avatar link starts with `/api/doctors/` and contains a non-empty id segment |
| DoctorRows.AvatarUrlRoundTrip | backend_fastapi/utils.py:108 | The avatar route reads back the id the link was built from |
| DoctorRows.AvatarUrlInjective | backend_fastapi/utils.py:108 | Different doctors get different avatar links |
| DoctorRows.MapDoctorSummaryRow | backend_fastapi/utils.py:112-122 | Each of the eight columns is copied unchanged under its camelCase name |
| DoctorRows.MapDoctorRow | backend_fastapi/utils.py:97-109 | The summary fields plus an avatar link exactly when the id is truthy, and the link leads back to that id |
| MiniApp.WithDefaultBg | app.js:31-34 | Every doctor keeps its fields; a falsy avatarBg becomes `#cfe2ff` and a truthy one is kept |
| MiniApp.WithDefaultBgIdempotent | app.js:31-34 | Applying the default colour twice is applying it once |
| MiniApp.ChooseDoctors | app.js:16-28 | The fetched list is used only when it is a non-empty array; otherwise the featured list is used |
| MiniApp.FlushCallsEachOnce | app.js:35-36 | A flush calls each queued function as many times as it is queued, always with the new list, and calls nothing else |
| MiniApp.Dedup | app.js:40 | The set built from storage has no duplicates and the same members as the stored list |
| MiniApp.ToggleMembership | app.js:41-45 | Toggling flips the id's membership, keeps every other id and keeps the list duplicate-free |
| MiniApp.ToggleTwiceAbsent | app.js:39-50 | Adding an absent id and toggling it again restores the list exactly |
| MiniApp.ToggleTwiceSameSet | app.js:39-50 | Toggling the same id twice restores the set of favourites |
| MiniApp.App.constructor | app.js:5-14 | Launch reads favourites and appointments from storage (empty when unset), with no doctors and an empty callback queue |
| MiniApp.App.SetDoctors | app.js:30-37 | Stores the list with default colours, calls every queued function once with it, in order, then empties the queue |
| MiniApp.App.LoadDoctors | app.js:16-28 | The request's completion sets the chosen list (fetched or featured), runs every queued callback with it and empties the queue. Favourites and appointments, and their stored copies, are unchanged |
| MiniApp.App.ToggleFavorite | app.js:39-50 | Returns the stored set with the id flipped, duplicate-free, and writes it to storage and to the global state; nothing else changes |
| MiniApp.App.AddAppointment | app.js:52-58 | Puts the record with id `apt-<now>` in front of the stored list and writes the list to storage and to the global state |
| MiniApp.AddedRecordShape | app.js:54 | The added record keeps every field except `id`, which is `apt-<now>`, and the earlier records follow unchanged |
| DoctorHelper.EnsureCallbacks | utils/doctorHelper.js:1-6 | Creates an empty queue only when none exists, and returns the queue |
| DoctorHelper.OnDoctorsReady | utils/doctorHelper.js:8-17 | With a loaded list, calls the callback once with it; otherwise appends it to the queue without calling it |
| DoctorHelper.QueuedCallbackRunsOnce | utils/doctorHelper.js:14-15 | A callback queued because the list was empty is called exactly once more by the next flush, after those queued before it |
| AppointmentDetail.MobileIffPattern | pages/appointment-detail/index.js:141 | The phone check accepts exactly the strings `^1[3-9]\d{9}$` matches |
| AppointmentDetail.MobileRange | pages/appointment-detail/index.js:141-147 | An accepted phone is 11 ASCII digits and reads as a number from 13000000000 to 19999999999 |
| AppointmentDetail.AgeField | pages/appointment-detail/index.js:164 | An empty age is sent as null |
| AppointmentDetail.AgeFieldReadsRendered | pages/appointment-detail/index.js:164 | A typed-in age of decimal digits is sent as that number |
| AppointmentDetail.Submit | pages/appointment-detail/index.js:120-168 | An empty name is rejected first, then an empty phone, then a malformed phone; nothing is sent unless all pass. The payload carries the page's date, period, name, phone, gender, parsed age, symptoms and the doctor's fields |
| AppointmentDetail.SentRequestIsWellFormed | pages/appointment-detail/index.js:149-168 | Every sent request has a name and an 11-digit mobile number in the mobile range |
| AppointmentDetail.ReadReply | pages/appointment-detail/index.js:169-191 | A booking counts as a success iff the status is 201 and success is true; otherwise the server's message, or a fixed text, is shown |
| AppointmentDetail.RouterBookingReadAsFailure | pages/appointment-detail/index.js:172 | As written, a booking the routers package accepts (status 200) is read as a failure; the other two backends' 201 is read as success |
| AppointmentDetail.FixedBookingReadAsSuccess | pages/appointment-detail/index.js:172 | With every backend answering 201, an accepted booking is read as a success |
| AppointmentDetail.DetailPage.constructor | pages/appointment-detail/index.js:5-14 | The page starts with no doctor, the morning period, gender 男 and empty fields |
| AppointmentDetail.DetailPage.OnLoad | pages/appointment-detail/index.js:16-46 | Without doctorId or date: an error toast and a navigation back, with nothing set or loaded. Otherwise: the date is set, the doctor is requested, and the name is prefilled from a nickname |
| AppointmentDetail.DetailPage.OnDoctorInfo | pages/appointment-detail/index.js:49-77 | Keeps the doctor record on status 200, else shows an error |
| AppointmentDetail.DetailPage.OnDoctorInfoFailed | pages/appointment-detail/index.js:67-72 | A doctor request that does not reach the server shows the network-error toast and keeps nothing |
| AppointmentDetail.DetailPage.SelectPeriod | pages/appointment-detail/index.js:80-85 | Sets the selected period only |
| AppointmentDetail.DetailPage.SelectGender | pages/appointment-detail/index.js:88-93 | Sets the gender only |
| AppointmentDetail.DetailPage.HandleInput | pages/appointment-detail/index.js:96-101 | Sets the bound field only |
| AppointmentDetail.DetailPage.GetPhoneNumber | pages/appointment-detail/index.js:104-117 | A confirmed non-empty dialog entry becomes the phone number; anything else changes nothing |
| AppointmentDetail.DetailPage.OnBookingReply | pages/appointment-detail/index.js:169-191 | On success the returned record is kept locally (`apt-<now>` first) and the page goes back; otherwise the failure toast is shown and nothing is stored. The page data, the doctor request and the app's favourites, doctors, callbacks and calls are unchanged either way |
| AppointmentDetail.DetailPage.OnBookingFailed | pages/appointment-detail/index.js:193-200 | A booking request that does not reach the server shows the retry toast and stores nothing |
| Search.KeywordIgnoresCase | pages/home/index.js:57 | Typing the keyword in another letter case gives the same search |
| Search.KeywordIgnoresSpaces | pages/home/index.js:57 | Surrounding spaces do not change the keyword, and a keyword of spaces is blank |
| Search.DoctorTest | pages/tab-booking/index.js:91-94 | A doctor is kept iff its lowercased name, or else its lowercased expertise, contains the keyword; the test throws on a missing name, or a missing expertise when the name does not match |
| Search.FilterDoctorListIsFilter | pages/tab-booking/index.js:91-95 | The filter throws iff some doctor's test throws, and otherwise keeps exactly the matching doctors in order |
| Search.SearchDoctors | pages/tab-booking/index.js:89-97 | A blank keyword returns the list unchanged. Otherwise the result is exactly the reference filter of the list by the keyword test (every matching doctor, each copy kept, in order), or a thrown error iff some test throws |
| Search.SearchDoctorsIdempotent | pages/tab-booking/index.js:91-94 | Searching the result again with the same keyword returns it unchanged |
| Search.SearchTeam | pages/doctor-team/index.js:26-35 | The team page searches the loaded list, or the empty list before the doctors arrive |
| Search.HospitalMatchesIff | pages/home/index.js:59-67 | A hospital matches iff its name, its address, or the name of some doctor in one of its departments contains the keyword; missing departments, doctors or names count as empty |
| Search.SearchHospitals | pages/home/index.js:55-70 | A blank keyword keeps all hospitals. Otherwise exactly the matching hospitals are kept, in their original order, with every copy of a matching hospital and none of the others |
| Search.FoundByDoctorName | pages/home/index.js:63-66 | A hospital whose name and address do not match is still found through a doctor's name |

## Left out

- Database and HTTP plumbing (connection pools, autocommit, routing, JSON encoding) is left out. Status codes become the `Error` datatype, and a backend's failure is a parameter of the transaction.
- Concurrency and row locking are left out: `SELECT ... FOR UPDATE` plus commit is modelled as one sequential transaction.
- Calendar dates and time zones are left out. Dates are integer days, and "today" is a parameter. The UTC shift of `toISOString` in `backend/server.js:459,468` is not reproduced.
- SQL itself is left out. Filters and `ORDER BY` are stated as postconditions. Listing order is by id, which stands for `created_at` (ties between equal timestamps are not modelled).
- The `rowcount` of an update that writes the same values is not modelled. "Not found" stands for "no entry has this id".
- The id that the single save echoes (`lastrowid`) is not modelled.
- In the Express batch and update, JavaScript `null >= 0` and `null !== undefined` make a null slot count pass the guards. The model treats only absent counts as missing.
- `parseInt` is modelled in base 10 only (no hex prefix, no radix).
- Whitespace is the ASCII set. Lower-casing covers ASCII letters only.
- Image compression, base64 encoding and decoding, and the default avatar file are parameters.
- The `avatarImage` field that `app.py` and `server.js` add in their row mappers is covered by `Avatar.ToAvatarDataUri` and `Avatar.GetAvatarBase64`, not by the mappers.
- Doctor create, update and delete, and the `registrationFee` default of 10.00 (a decimal), are not part of this model.
- WeChat phone decryption and webhook notifications are not part of this model: they are outbound network calls.
- The UI pages other than the booking form are not part of this model, nor are the calendar builders, toasts' timing, or the static mock data. Hospitals in the home search always have a name and an address, because they come from that static data.
- Callbacks are named by an index. A non-function value passed to `onDoctorsReady` is not modelled: calling it would throw.
- AppointmentDetail.AgeField: its contract states only the empty case. `AgeFieldReadsRendered` covers digit strings; other text goes through `parseInt`, where a NaN is sent as null.
- Where the written description and the code differ, the code is followed:
  - remaining slots can exceed the total after a re-seed followed by a cancel (`SlotSpec.CancelAfterReseedExceedsTotal`);
  - a single save accepts negative totals and any period text.
- SlotLedger.Ledger.AdminSchedules: for the routers backend the model assumes the admin listing's join succeeds. That query joins doctors on `d.doctor_id` (backend_fastapi/routers/schedules.py:121); every other query keys doctors by `id` (backend_fastapi/app.py:467, backend/server.js:524, backend_fastapi/routers/doctors.py:43). Without a `doctor_id` column every routers admin listing would fail with a 500. The doctors table's schema is not part of this model, so the model does not decide this.

## Findings

| source | as written | input that shows it | evidently intended | confidence | as-written member | corrected member |
|---|---|---|---|---|---|---|
| backend_fastapi/routers/appointments.py:11 | The routers package's booking endpoint declares no status code, so a successful booking answers 200; the booking page treats anything but 201 as a failure (pages/appointment-detail/index.js:172) | any valid booking through the routers backend | answer 201, as `app.py:546` and `server.js:724` do | not executed | AppointmentDetail.RouterBookingReadAsFailure | AppointmentDetail.FixedBookingReadAsSuccess |
| backend/server.js:558 | The Express calendar merge files rows under the driver's `Date` object but looks days up by ISO string (line 586), so no day is ever found | doctor 1 with 5 morning slots on the requested day: the merge shows 0 | key the map by the ISO date string, as the Python merges do | not executed; depends on the MySQL driver returning DATE columns as `Date` objects, its default | SlotSpec.ExpressMergeHidesSlots | SlotLedger.Ledger.LegacyMergedDays |
