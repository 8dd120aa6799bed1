/**
 * The booking form page (`pages/appointment-detail/index.js`): its page data, the
 * parameter check on load, the guard chain and payload of the submit handler, and how
 * the reply to the booking request is read.
 */
module AppointmentDetail {

  import opened Values
  import opened Text
  import opened SlotTables
  import opened SlotSpec
  import opened MiniApp

  // ---------------------------------------------------------------------------
  // The phone pattern ^1[3-9]\d{9}$
  // ---------------------------------------------------------------------------

  /** One position of an anchored pattern without repetition operators. */
  datatype CharClass = Exactly(c: char) | Between(lo: char, hi: char) {
    predicate Has(x: char) {
      match this
      case Exactly(c) => x == c
      case Between(lo, hi) => lo <= x <= hi
    }
  }

  /** `^p$` for a pattern of single-character classes, matched left to right. */
  predicate MatchesWhole(p: seq<CharClass>, s: string)
    decreases |p|
  {
    if p == [] then s == []
    else s != [] && p[0].Has(s[0]) && MatchesWhole(p[1..], s[1..])
  }

  /** The mobile-number pattern: '1', one of '3'..'9', then nine ASCII digits (`\d`). */
  const MobilePattern: seq<CharClass> :=
    [Exactly('1'), Between('3', '9')] + seq(9, _ => Between('0', '9'))

  /** The pattern read position by position: an 11-character string of ASCII digits
      whose first digit is 1 and whose second is 3 to 9. */
  predicate IsMobile(s: string) {
    && |s| == 11
    && s[0] == '1'
    && '3' <= s[1] <= '9'
    && AllDigits(s[2..])
  }

  /** Whole-string matching of a class sequence is position-wise membership. */
  lemma {:induction false} MatchesWholePositionwise(p: seq<CharClass>, s: string)
    ensures MatchesWhole(p, s) <==> |p| == |s| && forall i :: 0 <= i < |p| ==> p[i].Has(s[i])
    decreases |p|
  {
    if p != [] && s != [] {
      MatchesWholePositionwise(p[1..], s[1..]);
      if |p| == |s| && forall i :: 0 <= i < |p| ==> p[i].Has(s[i]) {
        forall i | 0 <= i < |p| - 1 ensures p[1..][i].Has(s[1..][i]) {
          assert p[1..][i] == p[i + 1] && s[1..][i] == s[i + 1];
        }
      }
      if MatchesWhole(p, s) {
        forall i | 0 <= i < |p| ensures p[i].Has(s[i]) {
          if i > 0 {
            assert p[1..][i - 1] == p[i] && s[1..][i - 1] == s[i];
          }
        }
      }
    }
  }

  /** `IsMobile` accepts exactly the strings the regular expression accepts. */
  lemma MobileIffPattern(s: string)
    ensures IsMobile(s) <==> MatchesWhole(MobilePattern, s)
  {
    MatchesWholePositionwise(MobilePattern, s);
    assert |MobilePattern| == 11;
    if |s| == 11 {
      assert forall i :: 2 <= i < 11 ==> MobilePattern[i] == Between('0', '9');
      assert forall i :: 2 <= i < 11 ==> s[i] == s[2..][i - 2];
    }
  }

  function Pow10(n: nat): (r: nat)
    ensures r >= 1
  {
    if n == 0 then 1 else 10 * Pow10(n - 1)
  }

  /** Joining two digit strings gives a digit string. */
  lemma AllDigitsAppend(a: string, b: string)
    requires AllDigits(a) && AllDigits(b)
    ensures AllDigits(a + b)
  {
    forall i | 0 <= i < |a + b| ensures IsDigit((a + b)[i]) {
      if i >= |a| {
        assert (a + b)[i] == b[i - |a|];
      }
    }
  }

  /** The digits of `a + b` denote `a`'s value shifted past `b`, plus `b`'s. */
  lemma {:induction false} DigitsValueAppend(a: string, b: string)
    requires AllDigits(a) && AllDigits(b)
    ensures AllDigits(a + b)
    ensures DigitsValue(a + b) == DigitsValue(a) * Pow10(|b|) + DigitsValue(b)
    decreases |b|
  {
    AllDigitsAppend(a, b);
    if b == [] {
      assert a + b == a;
    } else {
      var b' := b[..|b| - 1];
      assert AllDigits(b');
      DigitsValueAppend(a, b');
      assert (a + b)[..|a + b| - 1] == a + b';
      assert (a + b)[|a + b| - 1] == b[|b| - 1];
      DigitsValueLast(a + b, a + b');
      DigitsValueLast(b, b');
      ShiftDigit(DigitsValue(a), Pow10(|b'|), DigitsValue(b'), b[|b| - 1] as int - '0' as int);
    }
  }

  /** Peeling the last digit of `s` leaves `init`. */
  lemma DigitsValueLast(s: string, init: string)
    requires AllDigits(s) && s != [] && init == s[..|s| - 1]
    ensures AllDigits(init)
    ensures DigitsValue(s) == DigitsValue(init) * 10 + (s[|s| - 1] as int - '0' as int)
  {
  }

  lemma ShiftDigit(x: int, p: int, y: int, d: int)
    ensures (x * p + y) * 10 + d == x * (10 * p) + (y * 10 + d)
  {
  }

  lemma {:induction false} DigitsValueBelow(s: string)
    requires AllDigits(s)
    ensures DigitsValue(s) < Pow10(|s|)
    decreases |s|
  {
    if s != [] {
      DigitsValueBelow(s[..|s| - 1]);
    }
  }

  /** An accepted phone reads (with `parseInt`) as a number from 13000000000 to
      19999999999. */
  lemma MobileRange(s: string)
    requires IsMobile(s)
    ensures AllDigits(s)
    ensures ParseInt(s).Some? && 13000000000 <= ParseInt(s).value <= 19999999999
  {
    var head, tail := s[..2], s[2..];
    assert s == head + tail;
    assert AllDigits(head);
    DigitsValueAppend(head, tail);
    DigitsValueBelow(tail);
    assert head[..1] == [s[0]] && head[1] == s[1];
    assert [s[0]][..0] == [];
    assert DigitsValue([s[0]]) == 1;
    assert DigitsValue(head) == 10 + (s[1] as int - '0' as int);
    assert Pow10(9) == 1000000000;
    assert TrimStart(s) == s;
    assert Unsigned(s) == s;
    DigitRunOfDigits(s);
    assert s[..|s|] == s;
    assert LeadingNumber(s) == Some(DigitsValue(s));
  }

  // ---------------------------------------------------------------------------
  // Page data and the submit guard chain
  // ---------------------------------------------------------------------------

  /** The doctor record the page fetched (`GET /doctors/{id}`), the fields it sends on. */
  datatype DoctorInfo = DoctorInfo(
    id: nat,
    name: Option<string>,
    hospitalName: Option<string>,
    departmentName: Option<string>,
    registrationFee: Option<string>)

  datatype PageData = PageData(
    doctor: Option<DoctorInfo>,
    selectedDate: string,
    selectedPeriod: string,
    phoneNumber: string,
    patientName: string,
    patientGender: string,
    patientAge: string,
    symptoms: string)

  const InitialData := PageData(None, "", Morning, "", "", "男", "", "")

  /** The body of `POST /appointments`. */
  datatype Payload = Payload(
    doctorId: nat,
    doctorName: Option<string>,
    hospitalName: Option<string>,
    departmentName: Option<string>,
    scheduleDate: string,
    period: string,
    patientName: string,
    patientGender: string,
    patientAge: Option<int>,
    patientPhone: string,
    symptoms: string,
    registrationFee: Option<string>)

  datatype Rejection = NameMissing | PhoneMissing | PhoneMalformed {
    /** The toast shown. */
    function Message(): string {
      match this
      case NameMissing => "请输入就诊人姓名"
      case PhoneMissing => "请输入预约电话"
      case PhoneMalformed => "请输入正确的手机号"
    }
  }

  /** What pressing submit does: show a toast and send nothing, fail on the missing
      doctor record (a TypeError after the loading indicator is shown), or send. */
  datatype Submission = Rejected(reason: Rejection) | DoctorMissing | Send(payload: Payload)

  /** `parseInt(patientAge)` when the field is non-empty, else null; a NaN from
      `parseInt` is serialised as null too. */
  function AgeField(age: string): (r: Option<int>)
    ensures age == "" ==> r == None
  {
    if age != "" then ParseInt(age) else None
  }

  /** A typed-in age of plain digits is sent as that number. */
  lemma AgeFieldReadsRendered(n: nat)
    ensures AgeField(Decimal(n)) == Some(n)
  {
    ParseIntDecimal(n);
  }

  function Submit(d: PageData): (r: Submission)
    ensures r == Rejected(NameMissing) <==> d.patientName == ""
    ensures r == Rejected(PhoneMissing) <==> d.patientName != "" && d.phoneNumber == ""
    ensures r == Rejected(PhoneMalformed) <==>
              d.patientName != "" && d.phoneNumber != "" && !IsMobile(d.phoneNumber)
    ensures r == DoctorMissing <==> d.patientName != "" && IsMobile(d.phoneNumber) && d.doctor.None?
    ensures r.Send? <==> d.patientName != "" && IsMobile(d.phoneNumber) && d.doctor.Some?
    ensures r.Send? ==>
              && r.payload.scheduleDate == d.selectedDate
              && r.payload.period == d.selectedPeriod
              && r.payload.patientName == d.patientName
              && r.payload.patientPhone == d.phoneNumber
              && r.payload.patientGender == d.patientGender
              && r.payload.patientAge == AgeField(d.patientAge)
              && r.payload.symptoms == d.symptoms
              && r.payload.doctorId == d.doctor.value.id
              && r.payload.doctorName == d.doctor.value.name
              && r.payload.hospitalName == d.doctor.value.hospitalName
              && r.payload.departmentName == d.doctor.value.departmentName
              && r.payload.registrationFee == d.doctor.value.registrationFee
  {
    if d.patientName == "" then Rejected(NameMissing)
    else if d.phoneNumber == "" then Rejected(PhoneMissing)
    else if !IsMobile(d.phoneNumber) then Rejected(PhoneMalformed)
    else if d.doctor.None? then DoctorMissing
    else
      var doc := d.doctor.value;
      Send(Payload(doc.id, doc.name, doc.hospitalName, doc.departmentName, d.selectedDate,
                   d.selectedPeriod, d.patientName, d.patientGender, AgeField(d.patientAge),
                   d.phoneNumber, d.symptoms, doc.registrationFee))
  }

  /** A sent request always carries a name, a mobile number the server can read as a
      number in the mobile range. */
  lemma SentRequestIsWellFormed(d: PageData)
    requires Submit(d).Send?
    ensures var p := Submit(d).payload;
            && p.patientName != ""
            && |p.patientPhone| == 11 && AllDigits(p.patientPhone)
            && ParseInt(p.patientPhone).Some?
            && 13000000000 <= ParseInt(p.patientPhone).value <= 19999999999
  {
    MobileRange(d.phoneNumber);
  }

  // ---------------------------------------------------------------------------
  // Reading the reply
  // ---------------------------------------------------------------------------

  datatype Reply = Booked | Failed(toast: string)

  /** The booking succeeded only on status 201 with `success` true; otherwise the
      server's message, or a fixed text, is shown. */
  function ReadReply(statusCode: int, success: bool, message: Option<string>): (r: Reply)
    ensures r == Booked <==> statusCode == 201 && success
    ensures r.Failed? ==> r.toast == (if Given(message) then message.value else "预约失败")
  {
    if statusCode == 201 && success then Booked
    else Failed(if Given(message) then message.value else "预约失败")
  }

  /** As written, a booking the routers package accepts (status 200) reads as a
      failure on this page, while the other two backends' answers read as success. */
  lemma RouterBookingReadAsFailure(message: Option<string>)
    ensures ReadReply(BookSuccessStatus(Router), true, message).Failed?
    ensures ReadReply(BookSuccessStatus(Monolith), true, message) == Booked
    ensures ReadReply(BookSuccessStatus(Express), true, message) == Booked
  {
  }

  /** With every backend answering 201, an accepted booking reads as a success. */
  lemma FixedBookingReadAsSuccess(backend: Backend, message: Option<string>)
    ensures ReadReply(BookSuccessStatusFixed(backend), true, message) == Booked
  {
  }

  // ---------------------------------------------------------------------------
  // The page object
  // ---------------------------------------------------------------------------

  /** Inputs the page binds by `data-field`. */
  datatype Field = PhoneNumberField | PatientNameField | PatientAgeField | SymptomsField

  class DetailPage {
    var data: PageData
    /** The doctor id the page asked the server for, if any. */
    var doctorRequest: Option<string>
    /** A navigation back has been scheduled. */
    var navigatingBack: bool
    /** The last toast shown. */
    var toast: Option<string>

    constructor ()
      ensures data == InitialData && doctorRequest == None && !navigatingBack && toast == None
    {
      data := InitialData;
      doctorRequest := None;
      navigatingBack := false;
      toast := None;
    }

    /** Without a doctor id or a date, show an error and go back, loading nothing;
        otherwise take the date, request the doctor and prefill the patient's name from
        the signed-in user's nickname when there is one. */
    method OnLoad(doctorId: Option<string>, date: Option<string>, userNickName: Option<string>)
      modifies this
      ensures !Given(doctorId) || !Given(date) ==>
                && data == old(data) && doctorRequest == old(doctorRequest)
                && navigatingBack && toast == Some("参数错误")
      ensures Given(doctorId) && Given(date) ==>
                && data == old(data).(selectedDate := date.value,
                                      patientName := if Given(userNickName) then userNickName.value
                                                     else old(data).patientName)
                && doctorRequest == Some(doctorId.value)
                && navigatingBack == old(navigatingBack) && toast == old(toast)
    {
      if !Given(doctorId) || !Given(date) {
        toast := Some("参数错误");
        navigatingBack := true;
        return;
      }
      data := data.(selectedDate := date.value);
      doctorRequest := Some(doctorId.value);
      if Given(userNickName) {
        data := data.(patientName := userNickName.value);
      }
    }

    /** The doctor request completed: keep the record on status 200, else show an error. */
    method OnDoctorInfo(statusCode: int, body: DoctorInfo)
      modifies this
      ensures statusCode == 200 ==> data == old(data).(doctor := Some(body)) && toast == old(toast)
      ensures statusCode != 200 ==> data == old(data) && toast == Some("加载医生信息失败")
      ensures doctorRequest == old(doctorRequest) && navigatingBack == old(navigatingBack)
    {
      if statusCode == 200 {
        data := data.(doctor := Some(body));
      } else {
        toast := Some("加载医生信息失败");
      }
    }

    /** The doctor request failed to reach the server: a network-error toast, nothing kept. */
    method OnDoctorInfoFailed()
      modifies this`toast
      ensures toast == Some("网络错误")
    {
      toast := Some("网络错误");
    }

    method SelectPeriod(period: string)
      modifies this`data
      ensures data == old(data).(selectedPeriod := period)
    {
      data := data.(selectedPeriod := period);
    }

    method SelectGender(gender: string)
      modifies this`data
      ensures data == old(data).(patientGender := gender)
    {
      data := data.(patientGender := gender);
    }

    method HandleInput(field: Field, value: string)
      modifies this`data
      ensures field == PhoneNumberField ==> data == old(data).(phoneNumber := value)
      ensures field == PatientNameField ==> data == old(data).(patientName := value)
      ensures field == PatientAgeField ==> data == old(data).(patientAge := value)
      ensures field == SymptomsField ==> data == old(data).(symptoms := value)
    {
      match field
      case PhoneNumberField => data := data.(phoneNumber := value);
      case PatientNameField => data := data.(patientName := value);
      case PatientAgeField => data := data.(patientAge := value);
      case SymptomsField => data := data.(symptoms := value);
    }

    /** The phone dialog: a confirmed, non-empty entry becomes the phone number. */
    method GetPhoneNumber(confirm: bool, content: Option<string>)
      modifies this`data
      ensures confirm && Given(content) ==> data == old(data).(phoneNumber := content.value)
      ensures !(confirm && Given(content)) ==> data == old(data)
    {
      if confirm && Given(content) {
        data := data.(phoneNumber := content.value);
      }
    }

    /** The booking reply: on success keep the returned record locally and go back,
        otherwise show the failure. */
    method OnBookingReply(app: App, statusCode: int, success: bool, message: Option<string>,
                          appointment: Record, now: nat)
      modifies this, app
      ensures ReadReply(statusCode, success, message) == Booked ==>
                && app.appointments == [appointment["id" := "apt-" + Decimal(now)]]
                                       + old(app.storedAppointments).GetOr([])
                && app.storedAppointments == Some(app.appointments)
                && navigatingBack && toast == Some("预约成功")
      ensures ReadReply(statusCode, success, message).Failed? ==>
                && app.appointments == old(app.appointments)
                && app.storedAppointments == old(app.storedAppointments)
                && navigatingBack == old(navigatingBack)
                && toast == Some(ReadReply(statusCode, success, message).toast)
      ensures data == old(data) && doctorRequest == old(doctorRequest)
      ensures app.favorites == old(app.favorites) && app.storedFavorites == old(app.storedFavorites)
      ensures app.doctors == old(app.doctors) && app.callbacks == old(app.callbacks)
      ensures app.invocations == old(app.invocations)
    {
      var reply := ReadReply(statusCode, success, message);
      if reply == Booked {
        toast := Some("预约成功");
        var _ := app.AddAppointment(appointment, now);
        navigatingBack := true;
      } else {
        toast := Some(reply.toast);
      }
    }

    /** The booking request failed to reach the server: a retry toast, nothing stored. */
    method OnBookingFailed()
      modifies this`toast
      ensures toast == Some("网络错误，请重试")
    {
      toast := Some("网络错误，请重试");
    }
  }
}
