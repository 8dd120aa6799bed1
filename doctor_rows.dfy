/**
 * The doctor rows the routers package returns: `map_doctor_row` (full, with a link to
 * the avatar endpoint) and `map_doctor_summary_row` (without fee and avatar).
 */
module DoctorRows {

  import opened Values
  import opened Text

  /** A row of the `doctors` table, as far as the mappers read it. */
  datatype DoctorRecord = DoctorRecord(
    id: Option<nat>,
    name: Option<string>,
    title: Option<string>,
    expertise: Option<string>,
    intro: Option<string>,
    hospitalId: Option<nat>,
    hospitalName: Option<string>,
    departmentName: Option<string>)

  /** The eight fields both mappers copy, under their camelCase names. */
  datatype DoctorSummary = DoctorSummary(
    id: Option<nat>,
    name: Option<string>,
    title: Option<string>,
    expertise: Option<string>,
    intro: Option<string>,
    hospitalId: Option<nat>,
    hospitalName: Option<string>,
    departmentName: Option<string>)

  /** The full mapping: the summary fields plus the avatar link. */
  datatype DoctorView = DoctorView(summary: DoctorSummary, avatarUrl: Option<string>)

  const AvatarUrlHead: string := "/api/doctors/"
  const AvatarUrlTail: string := "/avatar"

  /** The avatar endpoint's path for a doctor id. */
  function AvatarUrl(id: nat): (url: string)
    ensures AvatarUrlHead <= url
    ensures |url| > |AvatarUrlHead| + |AvatarUrlTail|
  {
    AvatarUrlHead + Decimal(id) + AvatarUrlTail
  }

  /** The id segment of an avatar path, as the route `/api/doctors/{id}/avatar` reads it. */
  function AvatarUrlId(url: string): Option<int> {
    if |url| >= |AvatarUrlHead| + |AvatarUrlTail| && AvatarUrlHead <= url
       && url[|url| - |AvatarUrlTail|..] == AvatarUrlTail
    then ParseInt(url[|AvatarUrlHead|..|url| - |AvatarUrlTail|])
    else None
  }

  /** The route reads back the id the link was built from. */
  lemma AvatarUrlRoundTrip(id: nat)
    ensures AvatarUrlId(AvatarUrl(id)) == Some(id)
  {
    var url := AvatarUrl(id);
    assert url[|url| - |AvatarUrlTail|..] == AvatarUrlTail;
    assert url[|AvatarUrlHead|..|url| - |AvatarUrlTail|] == Decimal(id);
    ParseIntDecimal(id);
  }

  /** Different doctors get different links. */
  lemma AvatarUrlInjective(a: nat, b: nat)
    requires AvatarUrl(a) == AvatarUrl(b)
    ensures a == b
  {
    AvatarUrlRoundTrip(a);
    AvatarUrlRoundTrip(b);
  }

  function MapDoctorSummaryRow(row: DoctorRecord): (s: DoctorSummary)
    ensures s.id == row.id && s.name == row.name && s.title == row.title
    ensures s.expertise == row.expertise && s.intro == row.intro
    ensures s.hospitalId == row.hospitalId && s.hospitalName == row.hospitalName
    ensures s.departmentName == row.departmentName
  {
    DoctorSummary(row.id, row.name, row.title, row.expertise, row.intro,
      row.hospitalId, row.hospitalName, row.departmentName)
  }

  /** The full row: the summary fields, and a link to the avatar exactly when the id is
      truthy. */
  function MapDoctorRow(row: DoctorRecord): (v: DoctorView)
    ensures v.summary == MapDoctorSummaryRow(row)
    ensures v.avatarUrl.Some? <==> GivenId(row.id)
    ensures v.avatarUrl.Some? ==> AvatarUrlId(v.avatarUrl.value) == Some(row.id.value)
  {
    AvatarUrlRoundTrip(row.id.GetOr(0));
    DoctorView(MapDoctorSummaryRow(row), if GivenId(row.id) then Some(AvatarUrl(row.id.value)) else None)
  }
}
