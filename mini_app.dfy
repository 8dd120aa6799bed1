/**
 * The mini-app's global state (`app.js`): the favourite hospitals, the locally kept
 * appointment list, the doctor list, and the queue of callbacks waiting for the doctor
 * list. Device storage is modelled as two fields of the app, and calling a callback is
 * modelled by appending to a log of invocations.
 */
module MiniApp {

  import opened Values
  import opened Text
  import opened Seqs

  type HospitalId = string

  /** A doctor as the app keeps it; only the fields the app and the search pages read. */
  datatype Doctor = Doctor(id: string, name: Option<string>, expertise: Option<string>, avatarBg: Option<string>)

  /** A locally kept appointment: the server's record as a key/value object. */
  type Record = map<string, string>

  /** An entry of the ready-queue: a function (named by an index) or any other value. */
  datatype Callback = Fn(index: nat) | NotAFunction

  /** One call of a callback, with the list it was given. */
  datatype Invocation = Invocation(callback: nat, doctors: seq<Doctor>)

  /** The result of the doctors request: an array, some other JSON value, or a failure. */
  datatype Fetch = FetchedArray(doctors: seq<Doctor>) | FetchedOther | FetchFailed

  const DefaultAvatarBg: string := "#cfe2ff"

  /** Every doctor with its fields kept and a falsy avatarBg replaced by the default. */
  function WithDefaultBg(ds: seq<Doctor>): (r: seq<Doctor>)
    ensures |r| == |ds|
    ensures forall i :: 0 <= i < |ds| ==>
              r[i].id == ds[i].id && r[i].name == ds[i].name && r[i].expertise == ds[i].expertise
    ensures forall i :: 0 <= i < |ds| ==>
              r[i].avatarBg == if Given(ds[i].avatarBg) then ds[i].avatarBg else Some(DefaultAvatarBg)
  {
    seq(|ds|, i requires 0 <= i < |ds| =>
      ds[i].(avatarBg := if Given(ds[i].avatarBg) then ds[i].avatarBg else Some(DefaultAvatarBg)))
  }

  /** Applying the default twice changes nothing more. */
  lemma WithDefaultBgIdempotent(ds: seq<Doctor>)
    ensures WithDefaultBg(WithDefaultBg(ds)) == WithDefaultBg(ds)
  {
  }

  /** `loadDoctors`: the fetched list when it is a non-empty array, else the featured list. */
  function ChooseDoctors(fetched: Fetch, featured: seq<Doctor>): (r: seq<Doctor>)
    ensures r == featured <==> !(fetched.FetchedArray? && fetched.doctors != []) || fetched.doctors == featured
    ensures r != featured ==> fetched.FetchedArray? && r == fetched.doctors && r != []
  {
    if fetched.FetchedArray? && |fetched.doctors| > 0 then fetched.doctors else featured
  }

  /** The calls a flush of queue `q` makes: each function in the queue, in order, with `ds`. */
  function Flush(q: seq<Callback>, ds: seq<Doctor>): seq<Invocation> {
    if q == [] then []
    else Flush(q[..|q| - 1], ds) + (if q[|q| - 1].Fn? then [Invocation(q[|q| - 1].index, ds)] else [])
  }

  /** A flush calls each function in the queue exactly as many times as it is queued,
      always with the new list, and never calls anything not queued. */
  lemma {:induction false} FlushCallsEachOnce(q: seq<Callback>, ds: seq<Doctor>, c: nat, other: seq<Doctor>)
    ensures multiset(Flush(q, ds))[Invocation(c, ds)] == multiset(q)[Fn(c)]
    ensures other != ds ==> multiset(Flush(q, ds))[Invocation(c, other)] == 0
  {
    if q != [] {
      FlushCallsEachOnce(q[..|q| - 1], ds, c, other);
      assert q == q[..|q| - 1] + [q[|q| - 1]];
    }
  }

  // ---------------------------------------------------------------------------
  // Favourites: an insertion-ordered set read back from storage
  // ---------------------------------------------------------------------------

  predicate NoDuplicates<T(==)>(s: seq<T>) {
    forall i, j :: 0 <= i < j < |s| ==> s[i] != s[j]
  }

  /** `Array.from(new Set(s))`: first occurrences, in order. */
  function Dedup<T(==,!new)>(s: seq<T>): (r: seq<T>)
    ensures NoDuplicates(r)
    ensures forall x :: x in r <==> x in s
  {
    if s == [] then []
    else
      var d := Dedup(s[..|s| - 1]);
      assert forall x :: x in s <==> x in s[..|s| - 1] || x == s[|s| - 1] by {
        assert s == s[..|s| - 1] + [s[|s| - 1]];
      }
      if s[|s| - 1] in d then d else d + [s[|s| - 1]]
  }

  /** `Set.delete` or `Set.add`, on the insertion-ordered set. */
  function Toggle(favorites: seq<HospitalId>, h: HospitalId): seq<HospitalId> {
    if h in favorites then Filter(favorites, x => x != h) else favorites + [h]
  }

  /** Toggling flips membership of `h`, keeps every other id, and keeps the list free
      of duplicates. */
  lemma ToggleMembership(favorites: seq<HospitalId>, h: HospitalId)
    requires NoDuplicates(favorites)
    ensures h in Toggle(favorites, h) <==> h !in favorites
    ensures forall x :: x != h ==> (x in Toggle(favorites, h) <==> x in favorites)
    ensures NoDuplicates(Toggle(favorites, h))
  {
    if h in favorites {
      FilterKeepsDistinct(favorites, x => x != h);
    }
  }

  /** A sub-list of a list without duplicates has none. */
  lemma {:induction false} SubsequenceKeepsDistinct<T>(a: seq<T>, b: seq<T>)
    requires IsSubsequence(a, b) && NoDuplicates(b)
    ensures NoDuplicates(a)
    decreases |b|
  {
    if a != [] && b != [] {
      if a[0] == b[0] && IsSubsequence(a[1..], b[1..]) {
        SubsequenceKeepsDistinct(a[1..], b[1..]);
        SubsequenceMembers(a[1..], b[1..]);
        assert forall j :: 0 < j < |a| ==> a[j] in b[1..] by {
          forall j | 0 < j < |a| ensures a[j] in b[1..] {
            assert a[1..][j - 1] == a[j];
          }
        }
        assert forall j :: 0 < j < |b| ==> b[j] != b[0];
        forall i, j | 0 <= i < j < |a| ensures a[i] != a[j] {
          if i > 0 {
            assert a[1..][i - 1] == a[i] && a[1..][j - 1] == a[j];
          }
        }
      } else {
        SubsequenceKeepsDistinct(a, b[1..]);
      }
    }
  }

  /** Every element of a sub-list is an element of the list. */
  lemma {:induction false} SubsequenceMembers<T>(a: seq<T>, b: seq<T>)
    requires IsSubsequence(a, b)
    ensures forall x :: x in a ==> x in b
    decreases |b|
  {
    if a != [] && b != [] {
      if a[0] == b[0] && IsSubsequence(a[1..], b[1..]) {
        SubsequenceMembers(a[1..], b[1..]);
        assert a == [a[0]] + a[1..];
      } else {
        SubsequenceMembers(a, b[1..]);
      }
    }
  }

  lemma FilterKeepsDistinct<T(!new)>(s: seq<T>, keep: T -> bool)
    requires NoDuplicates(s)
    ensures NoDuplicates(Filter(s, keep))
  {
    SubsequenceKeepsDistinct(Filter(s, keep), s);
  }

  /** Toggling an id that was absent and then toggling it again restores the list. */
  lemma ToggleTwiceAbsent(favorites: seq<HospitalId>, h: HospitalId)
    requires h !in favorites
    ensures Toggle(Toggle(favorites, h), h) == favorites
  {
    var t := favorites + [h];
    FilterAllPass(favorites, x => x != h);
    FilterAppendDropped(favorites, h);
  }

  /** Filtering out `h` from `s + [h]` gives `Filter(s)`. */
  lemma {:induction false} FilterAppendDropped(s: seq<HospitalId>, h: HospitalId)
    ensures Filter(s + [h], x => x != h) == Filter(s, x => x != h)
    decreases |s|
  {
    if s != [] {
      assert (s + [h])[1..] == s[1..] + [h];
      FilterAppendDropped(s[1..], h);
    }
  }

  /** Toggling the same id twice restores the set of favourites. */
  lemma ToggleTwiceSameSet(favorites: seq<HospitalId>, h: HospitalId)
    requires NoDuplicates(favorites)
    ensures forall x :: x in Toggle(Toggle(favorites, h), h) <==> x in favorites
  {
    ToggleMembership(favorites, h);
    ToggleMembership(Toggle(favorites, h), h);
  }

  // ---------------------------------------------------------------------------
  // The app object
  // ---------------------------------------------------------------------------

  class App {
    var favorites: seq<HospitalId>
    var appointments: seq<Record>
    var doctors: seq<Doctor>
    /** `doctorReadyCallbacks`; `None` while unset. */
    var callbacks: Option<seq<Callback>>
    /** Device storage under the keys 'favorites' and 'appointments'; `None` when unset. */
    var storedFavorites: Option<seq<HospitalId>>
    var storedAppointments: Option<seq<Record>>
    /** Every callback call made so far. */
    var invocations: seq<Invocation>

    /** `onLaunch`, up to issuing the doctors request (its completion is `LoadDoctors`). */
    constructor (storedFavorites: Option<seq<HospitalId>>, storedAppointments: Option<seq<Record>>)
      ensures this.storedFavorites == storedFavorites && this.storedAppointments == storedAppointments
      ensures favorites == storedFavorites.GetOr([]) && appointments == storedAppointments.GetOr([])
      ensures doctors == [] && callbacks == Some([]) && invocations == []
    {
      this.storedFavorites := storedFavorites;
      this.storedAppointments := storedAppointments;
      favorites := storedFavorites.GetOr([]);
      appointments := storedAppointments.GetOr([]);
      doctors := [];
      callbacks := Some([]);
      invocations := [];
    }

    /** Store the list with default avatar colours, call every queued function with it,
        then empty the queue. */
    method SetDoctors(ds: seq<Doctor>)
      modifies this
      ensures doctors == WithDefaultBg(ds)
      ensures invocations == old(invocations) + Flush(old(callbacks).GetOr([]), doctors)
      ensures callbacks == Some([])
      ensures favorites == old(favorites) && appointments == old(appointments)
      ensures storedFavorites == old(storedFavorites) && storedAppointments == old(storedAppointments)
    {
      doctors := WithDefaultBg(ds);
      var queue := callbacks.GetOr([]);
      for i := 0 to |queue|
        invariant invocations == old(invocations) + Flush(queue[..i], doctors)
        invariant doctors == WithDefaultBg(ds)
        invariant favorites == old(favorites) && appointments == old(appointments)
        invariant storedFavorites == old(storedFavorites) && storedAppointments == old(storedAppointments)
      {
        assert queue[..i + 1][..i] == queue[..i];
        if queue[i].Fn? {
          invocations := invocations + [Invocation(queue[i].index, doctors)];
        }
      }
      assert queue[..|queue|] == queue;
      callbacks := Some([]);
    }

    /** Completion of the doctors request. */
    method LoadDoctors(fetched: Fetch, featured: seq<Doctor>)
      modifies this
      ensures doctors == WithDefaultBg(ChooseDoctors(fetched, featured))
      ensures invocations == old(invocations) + Flush(old(callbacks).GetOr([]), doctors)
      ensures callbacks == Some([])
      ensures favorites == old(favorites) && appointments == old(appointments)
      ensures storedFavorites == old(storedFavorites) && storedAppointments == old(storedAppointments)
    {
      SetDoctors(ChooseDoctors(fetched, featured));
    }

    /** Read the favourites from storage into a set, flip `h`, write the set back to
        storage and to the global state, and return it. */
    method ToggleFavorite(h: HospitalId) returns (next: seq<HospitalId>)
      modifies this
      ensures next == Toggle(Dedup(old(storedFavorites).GetOr([])), h)
      ensures storedFavorites == Some(next) && favorites == next
      ensures NoDuplicates(next)
      ensures h in next <==> h !in old(storedFavorites).GetOr([])
      ensures forall x :: x != h ==> (x in next <==> x in old(storedFavorites).GetOr([]))
      ensures appointments == old(appointments) && doctors == old(doctors) && callbacks == old(callbacks)
      ensures storedAppointments == old(storedAppointments) && invocations == old(invocations)
    {
      var stored := storedFavorites.GetOr([]);
      var members: seq<HospitalId> := [];
      for i := 0 to |stored|
        invariant members == Dedup(stored[..i])
        invariant this.storedFavorites == old(this.storedFavorites)
      {
        assert stored[..i + 1][..i] == stored[..i];
        if stored[i] !in members {
          members := members + [stored[i]];
        }
      }
      assert stored[..|stored|] == stored;
      if h in members {
        members := Filter(members, x => x != h);
      } else {
        members := members + [h];
      }
      next := members;
      ToggleMembership(Dedup(stored), h);
      storedFavorites := Some(next);
      favorites := next;
    }

    /** Put the record, with id `apt-<now>`, in front of the stored list, and write the
        list back to storage and to the global state. */
    method AddAppointment(appointment: Record, now: nat) returns (list: seq<Record>)
      modifies this
      ensures list == [appointment["id" := "apt-" + Decimal(now)]] + old(storedAppointments).GetOr([])
      ensures storedAppointments == Some(list) && appointments == list
      ensures favorites == old(favorites) && doctors == old(doctors) && callbacks == old(callbacks)
      ensures storedFavorites == old(storedFavorites) && invocations == old(invocations)
    {
      list := storedAppointments.GetOr([]);
      list := [appointment["id" := "apt-" + Decimal(now)]] + list;
      storedAppointments := Some(list);
      appointments := list;
    }
  }

  /** The record added keeps every field of the server's record except `id`, which
      names it `apt-<now>`; the earlier records follow unchanged. */
  lemma AddedRecordShape(appointment: Record, now: nat, stored: seq<Record>)
    ensures var list := [appointment["id" := "apt-" + Decimal(now)]] + stored;
            && |list| == |stored| + 1
            && list[1..] == stored
            && list[0]["id"] == "apt-" + Decimal(now)
            && forall k :: k in appointment && k != "id" ==> k in list[0] && list[0][k] == appointment[k]
  {
  }
}
