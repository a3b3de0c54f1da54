/** The patient-facing visit handlers: listing doctors, booking a visit, and
    listing one's own visits. The visit store is a sequence in insertion order. */
module VisitController {
  import opened Common
  import opened Users
  import opened VisitModel
  import opened Failures
  import opened Sorting

  /** `User.find({ role: "doctor" }).select("-password")`, in directory order. */
  function GetDoctors(users: seq<User>): (r: seq<Profile>)
    ensures forall p :: p in r ==> p.role == Doctor && exists u :: u in users && ProfileOf(u) == p
    ensures forall u :: u in users && u.role == Doctor ==> ProfileOf(u) in r
    ensures |r| == CountRole(users, Doctor)
  {
    if |users| == 0 then []
    else
      var init := users[..|users| - 1];
      var last := users[|users| - 1];
      assert users == init + [last];
      GetDoctors(init) + (if last.role == Doctor then [ProfileOf(last)] else [])
  }

  /** `findOne(filter)`: the position of the first visit in store order that matches. */
  function FindFirst(store: seq<Visit>, matches: Visit -> bool): (r: Option<nat>)
    ensures r.Some? ==> r.value < |store| && matches(store[r.value])
    ensures r.Some? ==> forall k :: 0 <= k < r.value ==> !matches(store[k])
    ensures r.None? <==> forall k :: 0 <= k < |store| ==> !matches(store[k])
  {
    if |store| == 0 then None
    else if matches(store[0]) then Some(0)
    else
      match FindFirst(store[1..], matches)
      case None => None
      case Some(i) => Some(i + 1)
  }

  /** The visit is `patient`'s and in progress (with any doctor). */
  predicate IsActiveOf(v: Visit, patient: nat)
  {
    v.patient == patient && v.status == InProgress
  }

  /** The visit is an open one between `patient` and `doctor`. */
  predicate IsOpenWith(v: Visit, patient: nat, doctor: nat)
  {
    v.patient == patient && v.doctor == doctor && IsOpen(v)
  }

  ghost predicate HasActive(store: seq<Visit>, patient: nat)
  {
    exists i :: 0 <= i < |store| && IsActiveOf(store[i], patient)
  }

  ghost predicate HasOpenWith(store: seq<Visit>, patient: nat, doctor: nat)
  {
    exists i :: 0 <= i < |store| && IsOpenWith(store[i], patient, doctor)
  }

  ghost predicate IsDoctor(users: seq<User>, id: nat)
  {
    exists u :: u in users && u.id == id && u.role == Doctor
  }

  /** `c` is the contact (id, name, email) of the doctor account with id `doctor`. */
  ghost predicate IsContactOfDoctor(users: seq<User>, doctor: nat, c: Contact)
  {
    exists u :: u in users && u.id == doctor && u.role == Doctor && c == ContactOf(u)
  }

  /** The caller's first in-progress visit, in store order (what `findOne` loads),
      names a doctor id that has no account. */
  ghost predicate FirstActiveDangles(users: seq<User>, store: seq<Visit>, patient: nat)
  {
    exists i :: 0 <= i < |store| && IsActiveOf(store[i], patient) &&
      (forall k :: 0 <= k < i ==> !IsActiveOf(store[k], patient)) &&
      forall u :: u in users ==> u.id != store[i].doctor
  }

  /** Every in-progress visit of `patient` names a doctor id that has an account. */
  ghost predicate ActiveDoctorsResolve(users: seq<User>, store: seq<Visit>, patient: nat)
  {
    forall i :: 0 <= i < |store| && IsActiveOf(store[i], patient) ==> exists u :: u in users && u.id == store[i].doctor
  }

  /** Every visit's doctor reference names an account. */
  ghost predicate DoctorsResolve(users: seq<User>, store: seq<Visit>)
  {
    forall i :: 0 <= i < |store| ==> exists u :: u in users && u.id == store[i].doctor
  }

  /** A patient holds at most one open visit with any one doctor. */
  ghost predicate OneOpenPerPair(store: seq<Visit>)
  {
    forall i, j :: 0 <= i < j < |store| && IsOpen(store[i]) && IsOpen(store[j]) ==>
      store[i].patient != store[j].patient || store[i].doctor != store[j].doctor
  }

  /** The ids in use in the visit collection. Visits and accounts live in
      separate collections, so a new visit's id is fresh among visit ids only;
      `Users.IdsOf` is the same projection for the account collection. */
  function VisitIds(store: seq<Visit>): (r: seq<nat>)
    ensures |r| == |store|
    ensures forall i :: 0 <= i < |store| ==> r[i] == store[i].id
  {
    seq(|store|, i requires 0 <= i < |store| => store[i].id)
  }

  /** The created visit with its patient and doctor expanded to name and email. */
  datatype BookedVisit = BookedVisit(visit: Visit, patient: Contact, doctor: Contact)

  /** The store after a request, and the reply sent. */
  datatype Booking = Booking(store: seq<Visit>, reply: Result<BookedVisit, Failure>)

  /** `createVisit`: the caller (a patient) books a visit with `doctorId` at time `now`.
      Three guards run in order: the doctor exists, the caller has no visit in
      progress, and the caller has no open visit with this doctor. */
  function CreateVisit(users: seq<User>, store: seq<Visit>, caller: User, doctorId: nat, now: nat): (r: Booking)
    requires UniqueIds(users)
    requires caller in users && caller.role == Patient
    // a rejected booking leaves the store as it was
    ensures r.reply.Err? ==> r.store == store
    // guard 1
    ensures r.reply == Err(DoctorNotFound) <==> !IsDoctor(users, doctorId)
    // guard 2
    ensures r.reply.Err? && (r.reply.error.ActiveVisitWith? || r.reply.error.Internal?) <==>
      IsDoctor(users, doctorId) && HasActive(store, caller.id)
    ensures r.reply.Err? && r.reply.error.ActiveVisitWith? ==>
      exists i, u :: 0 <= i < |store| && IsActiveOf(store[i], caller.id) && u in users &&
        u.id == store[i].doctor && u.name == r.reply.error.doctorName
    ensures r.reply == Err(Internal) ==> !DoctorsResolve(users, store)
    ensures r.reply == Err(Internal) <==> IsDoctor(users, doctorId) && FirstActiveDangles(users, store, caller.id)
    ensures ActiveDoctorsResolve(users, store, caller.id) ==> r.reply != Err(Internal)
    // guard 3
    ensures r.reply.Err? && r.reply.error.AlreadyOpen? <==>
      IsDoctor(users, doctorId) && !HasActive(store, caller.id) && HasOpenWith(store, caller.id, doctorId)
    ensures r.reply.Err? && r.reply.error.AlreadyOpen? ==>
      (exists i :: 0 <= i < |store| && IsOpenWith(store[i], caller.id, doctorId) &&
         store[i].status == r.reply.error.status) &&
      (exists u :: u in users && u.id == doctorId && u.role == Doctor && u.name == r.reply.error.doctorName)
    // success
    ensures r.reply.Ok? <==>
      IsDoctor(users, doctorId) && !HasActive(store, caller.id) && !HasOpenWith(store, caller.id, doctorId)
    ensures r.reply.Ok? ==>
      && |r.store| == |store| + 1
      && r.store[..|store|] == store
      && var v := r.store[|store|];
      && v.patient == caller.id && v.doctor == doctorId && v.status == Pending
      && v.treatments == [] && v.totalAmount == 0 && v.medicalNotes == ""
      && v.completedAt.None? && v.createdAt == now
      && v.id !in VisitIds(store)
      && r.reply.value.visit == v
      && r.reply.value.patient == ContactOf(caller)
      && r.reply.value.doctor.id == doctorId
    ensures r.reply.Ok? ==> IsContactOfDoctor(users, doctorId, r.reply.value.doctor)
  {
    var doctor := FindById(users, doctorId);
    if doctor.None? || doctor.value.role != Doctor then
      assert !IsDoctor(users, doctorId) by {
        if u :| u in users && u.id == doctorId && u.role == Doctor {
          FindByIdUnique(users, u);
        }
      }
      Booking(store, Err(DoctorNotFound))
    else
      match FindFirst(store, v => IsActiveOf(v, caller.id))
      case Some(i) =>
        var d := FindById(users, store[i].doctor);
        if d.None? then Booking(store, Err(Internal))
        else Booking(store, Err(ActiveVisitWith(d.value.name)))
      case None =>
        match FindFirst(store, v => IsOpenWith(v, caller.id, doctorId))
        case Some(j) => Booking(store, Err(AlreadyOpen(store[j].status, doctor.value.name)))
        case None =>
          var created := CreateVisitDoc(Fresh(VisitIds(store)), caller.id, doctorId, Some("pending"), now);
          var v := created.value;
          assert (store + [v])[..|store|] == store;
          Booking(store + [v], Ok(BookedVisit(v, ContactOf(caller), ContactOf(doctor.value))))
  }

  /** The status in a same-doctor rejection is always `pending`: an in-progress
      visit with that doctor is already caught by the second guard. */
  lemma AlreadyOpenIsAlwaysPending(users: seq<User>, store: seq<Visit>, caller: User, doctorId: nat, now: nat)
    requires UniqueIds(users)
    requires caller in users && caller.role == Patient
    requires CreateVisit(users, store, caller, doctorId, now).reply.Err?
    requires CreateVisit(users, store, caller, doctorId, now).reply.error.AlreadyOpen?
    ensures CreateVisit(users, store, caller, doctorId, now).reply.error.status == Pending
  {
    var r := CreateVisit(users, store, caller, doctorId, now);
    var i :| 0 <= i < |store| && IsOpenWith(store[i], caller.id, doctorId) && store[i].status == r.reply.error.status;
    assert !IsActiveOf(store[i], caller.id);
  }

  /** `pending` visits between `patient` and other doctors never block a booking. */
  lemma OpenVisitWithOtherDoctorDoesNotBlock(users: seq<User>, store: seq<Visit>, caller: User, doctorId: nat, now: nat)
    requires UniqueIds(users)
    requires caller in users && caller.role == Patient
    requires IsDoctor(users, doctorId)
    requires forall i :: 0 <= i < |store| && store[i].patient == caller.id ==>
      store[i].status != InProgress && (store[i].doctor != doctorId || store[i].status == Completed)
    ensures CreateVisit(users, store, caller, doctorId, now).reply.Ok?
  {
  }

  /** Counts `patient`'s visits in progress. */
  function CountActive(store: seq<Visit>, patient: nat): (n: nat)
    ensures n <= |store|
    ensures n == 0 <==> !HasActive(store, patient)
  {
    if |store| == 0 then 0
    else
      var init := store[..|store| - 1];
      assert forall i :: 0 <= i < |init| ==> init[i] == store[i];
      CountActive(init, patient) + (if IsActiveOf(store[|store| - 1], patient) then 1 else 0)
  }

  /** A successful booking keeps one open visit per (patient, doctor) and
      leaves every patient's count of in-progress visits as it was. */
  lemma {:induction false} CreatePreservesInvariants(users: seq<User>, store: seq<Visit>, caller: User, doctorId: nat, now: nat)
    requires UniqueIds(users)
    requires caller in users && caller.role == Patient
    requires OneOpenPerPair(store)
    ensures OneOpenPerPair(CreateVisit(users, store, caller, doctorId, now).store)
    ensures forall p :: CountActive(CreateVisit(users, store, caller, doctorId, now).store, p) == CountActive(store, p)
  {
    var r := CreateVisit(users, store, caller, doctorId, now);
    if r.reply.Ok? {
      var v := r.store[|store|];
      assert r.store == store + [v];
      assert !HasOpenWith(store, caller.id, doctorId);
      forall i, j | 0 <= i < j < |r.store| && IsOpen(r.store[i]) && IsOpen(r.store[j])
        ensures r.store[i].patient != r.store[j].patient || r.store[i].doctor != r.store[j].doctor
      {
        if j == |store| {
          assert !IsOpenWith(store[i], caller.id, doctorId);
        }
      }
      forall p
        ensures CountActive(r.store, p) == CountActive(store, p)
      {
        assert r.store[..|r.store| - 1] == store;
      }
    }
  }

  /** One booking request: who asks, for which doctor, and when. */
  datatype BookingRequest = BookingRequest(caller: User, doctorId: nat, now: nat)

  /** The store after serving the requests one after another. */
  function RunBookings(users: seq<User>, store: seq<Visit>, reqs: seq<BookingRequest>): seq<Visit>
    requires UniqueIds(users)
    requires forall k :: 0 <= k < |reqs| ==> reqs[k].caller in users && reqs[k].caller.role == Patient
    decreases |reqs|
  {
    if |reqs| == 0 then store
    else
      var q := reqs[0];
      RunBookings(users, CreateVisit(users, store, q.caller, q.doctorId, q.now).store, reqs[1..])
  }

  /** Any run of bookings keeps one open visit per (patient, doctor) and never
      adds an in-progress visit for anyone. */
  lemma {:induction false} BookingsPreserveInvariants(users: seq<User>, store: seq<Visit>, reqs: seq<BookingRequest>)
    requires UniqueIds(users)
    requires forall k :: 0 <= k < |reqs| ==> reqs[k].caller in users && reqs[k].caller.role == Patient
    requires OneOpenPerPair(store)
    ensures OneOpenPerPair(RunBookings(users, store, reqs))
    ensures forall p :: CountActive(RunBookings(users, store, reqs), p) == CountActive(store, p)
    decreases |reqs|
  {
    if |reqs| > 0 {
      var q := reqs[0];
      CreatePreservesInvariants(users, store, q.caller, q.doctorId, q.now);
      BookingsPreserveInvariants(users, CreateVisit(users, store, q.caller, q.doctorId, q.now).store, reqs[1..]);
    }
  }

  /** Repeating a successful booking is rejected with the same-doctor error and adds nothing. */
  lemma RepeatBookingRejected(users: seq<User>, store: seq<Visit>, caller: User, doctorId: nat, now: nat, later: nat)
    requires UniqueIds(users)
    requires caller in users && caller.role == Patient
    requires CreateVisit(users, store, caller, doctorId, now).reply.Ok?
    ensures var s := CreateVisit(users, store, caller, doctorId, now).store;
      var again := CreateVisit(users, s, caller, doctorId, later);
      again.store == s && again.reply.Err? && again.reply.error.AlreadyOpen? && again.reply.error.status == Pending
  {
    var s := CreateVisit(users, store, caller, doctorId, now).store;
    assert IsOpenWith(s[|store|], caller.id, doctorId);
    assert !HasActive(s, caller.id) by {
      assert forall i :: 0 <= i < |store| ==> s[i] == store[i];
      assert !IsActiveOf(s[|store|], caller.id);
    }
    AlreadyOpenIsAlwaysPending(users, s, caller, doctorId, later);
  }

  /** The visits of `patient`, in store order. */
  function OwnVisits(store: seq<Visit>, patient: nat): (r: seq<Visit>)
    ensures forall v :: multiset(r)[v] == (if v.patient == patient then multiset(store)[v] else 0)
  {
    if |store| == 0 then []
    else
      var init := store[..|store| - 1];
      var last := store[|store| - 1];
      assert store == init + [last];
      OwnVisits(init, patient) + (if last.patient == patient then [last] else [])
  }

  /** `getMyVisits`: the caller's visits, newest first. */
  function GetMyVisits(store: seq<Visit>, patient: nat): (r: seq<Visit>)
    ensures forall v :: multiset(r)[v] == (if v.patient == patient then multiset(store)[v] else 0)
    ensures forall i :: 0 <= i < |store| && store[i].patient == patient ==> store[i] in r
    ensures forall v :: v in r ==> v in store && v.patient == patient
    ensures SortedDesc(r, (v: Visit) => v.createdAt)
  {
    var own := OwnVisits(store, patient);
    var r := SortDesc(own, (v: Visit) => v.createdAt);
    assert forall v :: v in r <==> multiset(r)[v] > 0;
    assert forall v :: v in store <==> multiset(store)[v] > 0;
    r
  }
}
