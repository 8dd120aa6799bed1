/**
 * The keyword searches of three pages: hospitals on the home page
 * (`pages/home/index.js`), and doctors on the booking tab (`pages/tab-booking/index.js`)
 * and the doctor-team page (`pages/doctor-team/index.js`). Each trims and lower-cases
 * the typed keyword, keeps the whole list when it is blank, and otherwise filters.
 */
module Search {

  import opened Values
  import opened Text
  import opened Seqs
  import opened MiniApp

  /** The keyword as the pages compare it: trimmed, then lower-cased. */
  function Keyword(raw: string): string {
    Lower(Trim(raw))
  }

  lemma {:induction false} LowerTrimStart(s: string)
    ensures TrimStart(Lower(s)) == Lower(TrimStart(s))
    decreases |s|
  {
    if s != [] {
      assert Lower(s)[1..] == Lower(s[1..]);
      assert Lower(s)[0] == LowerChar(s[0]);
      assert IsSpace(LowerChar(s[0])) == IsSpace(s[0]);
      if IsSpace(s[0]) {
        LowerTrimStart(s[1..]);
      }
    }
  }

  lemma {:induction false} LowerTrimEnd(s: string)
    ensures TrimEnd(Lower(s)) == Lower(TrimEnd(s))
    decreases |s|
  {
    if s != [] {
      assert Lower(s)[..|s| - 1] == Lower(s[..|s| - 1]);
      assert Lower(s)[|s| - 1] == LowerChar(s[|s| - 1]);
      assert IsSpace(LowerChar(s[|s| - 1])) == IsSpace(s[|s| - 1]);
      if IsSpace(s[|s| - 1]) {
        LowerTrimEnd(s[..|s| - 1]);
      }
    }
  }

  /** Typing the keyword in another letter case finds the same things. */
  lemma KeywordIgnoresCase(raw: string)
    ensures Keyword(Lower(raw)) == Keyword(raw)
  {
    LowerTrimStart(raw);
    LowerTrimEnd(TrimStart(raw));
    LowerIdempotent(Trim(raw));
  }

  /** Surrounding whitespace does not change the keyword, and a keyword of spaces is
      blank. */
  lemma KeywordIgnoresSpaces(raw: string)
    ensures Keyword(Trim(raw)) == Keyword(raw)
    ensures (forall i :: 0 <= i < |raw| ==> IsSpace(raw[i])) ==> Keyword(raw) == ""
  {
    TrimProperties(raw);
  }

  // ---------------------------------------------------------------------------
  // Doctors (booking tab and doctor team)
  // ---------------------------------------------------------------------------

  /** The filter's test on one doctor: the name, then, when it does not match, the
      expertise. `None` is the TypeError of reading a missing field. */
  function DoctorTest(d: Doctor, kw: string): (r: Option<bool>)
    ensures r == Some(true) <==>
              d.name.Some?
              && (Contains(Lower(d.name.value), kw)
                  || (d.expertise.Some? && Contains(Lower(d.expertise.value), kw)))
    ensures r.None? <==>
              d.name.None? || (!Contains(Lower(d.name.value), kw) && d.expertise.None?)
  {
    if d.name.None? then None
    else if Contains(Lower(d.name.value), kw) then Some(true)
    else if d.expertise.None? then None
    else Some(Contains(Lower(d.expertise.value), kw))
  }

  /** `list.filter(test)`, stopping with `None` at the first doctor whose test throws. */
  function FilterDoctorList(list: seq<Doctor>, kw: string): Option<seq<Doctor>> {
    if list == [] then Some([])
    else match DoctorTest(list[0], kw)
      case None => None
      case Some(keep) =>
        match FilterDoctorList(list[1..], kw)
        case None => None
        case Some(rest) => Some(if keep then [list[0]] + rest else rest)
  }

  predicate Matches(d: Doctor, kw: string) {
    DoctorTest(d, kw) == Some(true)
  }

  /** The scan throws exactly when some doctor's test throws, and otherwise keeps the
      matching doctors in order. */
  lemma {:induction false} FilterDoctorListIsFilter(list: seq<Doctor>, kw: string)
    ensures FilterDoctorList(list, kw).None? <==> exists i :: 0 <= i < |list| && DoctorTest(list[i], kw).None?
    ensures FilterDoctorList(list, kw).Some? ==>
              FilterDoctorList(list, kw).value == Filter(list, d => Matches(d, kw))
    decreases |list|
  {
    if list != [] {
      FilterDoctorListIsFilter(list[1..], kw);
      if exists i :: 0 <= i < |list[1..]| && DoctorTest(list[1..][i], kw).None? {
        var i :| 0 <= i < |list[1..]| && DoctorTest(list[1..][i], kw).None?;
        assert DoctorTest(list[i + 1], kw).None?;
      }
      if exists i :: 0 <= i < |list| && DoctorTest(list[i], kw).None? {
        var i :| 0 <= i < |list| && DoctorTest(list[i], kw).None?;
        if i > 0 {
          assert list[1..][i - 1] == list[i];
        }
      }
    }
  }

  /** `handleDoctorSearchConfirm` / `handleSearch`: the whole source for a blank keyword,
      else the filtered list; `None` when the filter throws. */
  function SearchDoctors(source: seq<Doctor>, raw: string): (r: Option<seq<Doctor>>)
    ensures Keyword(raw) == "" ==> r == Some(source)
    ensures r.Some? ==> IsSubsequence(r.value, source)
    ensures r.Some? && Keyword(raw) != "" ==>
              forall d :: d in r.value <==> d in source && Matches(d, Keyword(raw))
    ensures r.Some? && Keyword(raw) != "" ==> r.value == Filter(source, d => Matches(d, Keyword(raw)))
    ensures r.None? <==>
              Keyword(raw) != "" && exists i :: 0 <= i < |source| && DoctorTest(source[i], Keyword(raw)).None?
  {
    var kw := Keyword(raw);
    if kw == "" then
      SubsequenceOfItself(source);
      Some(source)
    else
      FilterDoctorListIsFilter(source, kw);
      FilterDoctorList(source, kw)
  }

  /** Searching the result again with the same keyword returns it unchanged. */
  lemma SearchDoctorsIdempotent(source: seq<Doctor>, raw: string)
    requires SearchDoctors(source, raw).Some?
    ensures SearchDoctors(SearchDoctors(source, raw).value, raw) == SearchDoctors(source, raw)
  {
    var kw := Keyword(raw);
    if kw != "" {
      var r := SearchDoctors(source, raw).value;
      FilterDoctorListIsFilter(source, kw);
      FilterIdempotent(source, d => Matches(d, kw));
      FilterDoctorListIsFilter(r, kw);
      forall i | 0 <= i < |r| ensures DoctorTest(r[i], kw) == Some(true) {
        assert r[i] in r;
      }
    }
  }

  /** The doctor-team page searches `fullDoctors`, or nothing before the list arrives. */
  function SearchTeam(fullDoctors: Option<seq<Doctor>>, raw: string): (r: Option<seq<Doctor>>)
    ensures fullDoctors.None? ==> r == Some([])
    ensures fullDoctors.Some? ==> r == SearchDoctors(fullDoctors.value, raw)
  {
    SearchDoctors(fullDoctors.GetOr([]), raw)
  }

  // ---------------------------------------------------------------------------
  // Hospitals (home page)
  // ---------------------------------------------------------------------------

  datatype StaffDoctor = StaffDoctor(name: Option<string>)

  datatype Department = Department(doctors: Option<seq<StaffDoctor>>)

  datatype Hospital = Hospital(name: string, address: string, departments: Option<seq<Department>>)

  /** A doctor's name, a missing name read as "", contains the keyword. */
  predicate NameHas(doc: StaffDoctor, kw: string) {
    Contains(Lower(doc.name.GetOr("")), kw)
  }

  /** `doctors.some(...)`, scanning from the front. */
  predicate SomeDoctor(docs: seq<StaffDoctor>, kw: string) {
    docs != [] && (NameHas(docs[0], kw) || SomeDoctor(docs[1..], kw))
  }

  /** `departments.some(...)`, scanning from the front. */
  predicate SomeDepartment(depts: seq<Department>, kw: string) {
    depts != [] && (SomeDoctor(depts[0].doctors.GetOr([]), kw) || SomeDepartment(depts[1..], kw))
  }

  lemma {:induction false} SomeDoctorIff(docs: seq<StaffDoctor>, kw: string)
    ensures SomeDoctor(docs, kw) <==> exists j :: 0 <= j < |docs| && NameHas(docs[j], kw)
    decreases |docs|
  {
    if docs != [] {
      SomeDoctorIff(docs[1..], kw);
      if exists j :: 0 <= j < |docs| && NameHas(docs[j], kw) {
        var j :| 0 <= j < |docs| && NameHas(docs[j], kw);
        if j > 0 {
          assert docs[1..][j - 1] == docs[j];
        }
      }
    }
  }

  lemma {:induction false} SomeDepartmentIff(depts: seq<Department>, kw: string)
    ensures SomeDepartment(depts, kw) <==>
              exists i :: 0 <= i < |depts| && SomeDoctor(depts[i].doctors.GetOr([]), kw)
    decreases |depts|
  {
    if depts != [] {
      SomeDepartmentIff(depts[1..], kw);
      if exists i :: 0 <= i < |depts| && SomeDoctor(depts[i].doctors.GetOr([]), kw) {
        var i :| 0 <= i < |depts| && SomeDoctor(depts[i].doctors.GetOr([]), kw);
        if i > 0 {
          assert depts[1..][i - 1] == depts[i];
        }
      }
    }
  }

  /** Some doctor of some department of `h` has a name containing `kw`. */
  ghost predicate HasMatchingDoctor(h: Hospital, kw: string) {
    exists i, j ::
      0 <= i < |h.departments.GetOr([])|
      && 0 <= j < |h.departments.GetOr([])[i].doctors.GetOr([])|
      && NameHas(h.departments.GetOr([])[i].doctors.GetOr([])[j], kw)
  }

  predicate HospitalMatches(h: Hospital, kw: string) {
    Contains(Lower(h.name), kw)
    || Contains(Lower(h.address), kw)
    || SomeDepartment(h.departments.GetOr([]), kw)
  }

  /** The hospital test holds iff the name, the address, or the name of some doctor in
      some department contains the keyword. */
  lemma HospitalMatchesIff(h: Hospital, kw: string)
    ensures HospitalMatches(h, kw) <==>
              Contains(Lower(h.name), kw) || Contains(Lower(h.address), kw) || HasMatchingDoctor(h, kw)
  {
    var depts := h.departments.GetOr([]);
    SomeDepartmentIff(depts, kw);
    forall i | 0 <= i < |depts|
      ensures SomeDoctor(depts[i].doctors.GetOr([]), kw) <==>
                exists j :: 0 <= j < |depts[i].doctors.GetOr([])| && NameHas(depts[i].doctors.GetOr([])[j], kw)
    {
      SomeDoctorIff(depts[i].doctors.GetOr([]), kw);
    }
  }

  /** `handleSearchConfirm`: the whole list for a blank keyword, else the hospitals that
      match, in their original order. */
  function SearchHospitals(hospitals: seq<Hospital>, raw: string): (r: seq<Hospital>)
    ensures Keyword(raw) == "" ==> r == hospitals
    ensures IsSubsequence(r, hospitals)
    ensures Keyword(raw) != "" ==>
              forall h :: h in r <==> h in hospitals && HospitalMatches(h, Keyword(raw))
    ensures Keyword(raw) != "" ==>
              forall h :: multiset(r)[h] == if HospitalMatches(h, Keyword(raw)) then multiset(hospitals)[h] else 0
  {
    var kw := Keyword(raw);
    if kw == "" then
      SubsequenceOfItself(hospitals);
      hospitals
    else
      var keep := h => HospitalMatches(h, kw);
      assert forall h :: multiset(Filter(hospitals, keep))[h] == if keep(h) then multiset(hospitals)[h] else 0 by {
        forall h {
          FilterCounts(hospitals, keep, h);
        }
      }
      Filter(hospitals, keep)
  }

  /** A hospital whose doctor list names someone matching is found, even when its own
      name and address do not match. */
  lemma FoundByDoctorName(hospitals: seq<Hospital>, raw: string, h: Hospital)
    requires h in hospitals && Keyword(raw) != "" && HasMatchingDoctor(h, Keyword(raw))
    ensures h in SearchHospitals(hospitals, raw)
  {
    HospitalMatchesIff(h, Keyword(raw));
  }
}
