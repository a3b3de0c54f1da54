/** The Visit and Treatment records, their defaults and validation, and the
    pre-save hook that recomputes a visit's total from its treatments. */
module VisitModel {
  import opened Common

  /** The three visit states, stored as their string names. */
  datatype Status = Pending | InProgress | Completed

  /** The status a visit gets when none is supplied. */
  const DefaultStatus: Status := Pending

  function StatusName(s: Status): string
  {
    match s
    case Pending => "pending"
    case InProgress => "in-progress"
    case Completed => "completed"
  }

  /** The schema's enum validator: accepts exactly the three names. */
  function ParseStatus(s: string): (r: Option<Status>)
    ensures r.Some? ==> StatusName(r.value) == s
    ensures r.None? ==> forall k: Status :: StatusName(k) != s
  {
    if s == "pending" then Some(Pending)
    else if s == "in-progress" then Some(InProgress)
    else if s == "completed" then Some(Completed)
    else None
  }

  lemma StatusNameRoundTrip(k: Status)
    ensures ParseStatus(StatusName(k)) == Some(k)
  {
  }

  /** An open visit still blocks a second booking with the same doctor. */
  predicate IsOpen(v: Visit)
  {
    v.status == Pending || v.status == InProgress
  }

  /** A treatment; `cost` is an amount in integer cents. */
  datatype Treatment = Treatment(name: string, cost: int, notes: string)

  /** The schema's constraints on a stored treatment. */
  predicate ValidTreatment(t: Treatment)
  {
    |t.name| > 0 && t.cost >= 0
  }

  /** The fields a validation error can name. */
  datatype Field = NameField | CostField | StatusField

  /** Builds a treatment from submitted fields the way the schema does: `name`
      is required (a missing or empty string fails), `cost` is required and at
      least 0, `notes` defaults to "". Every failing field is reported. */
  function MakeTreatment(name: Option<string>, cost: Option<int>, notes: Option<string>): (r: Result<Treatment, set<Field>>)
    ensures r.Ok? <==> name.Some? && |name.value| > 0 && cost.Some? && cost.value >= 0
    ensures r.Ok? ==> ValidTreatment(r.value)
    ensures r.Ok? ==> r.value.name == name.value && r.value.cost == cost.value
    ensures r.Ok? ==> r.value.notes == (if notes.Some? then notes.value else "")
    ensures r.Err? ==> r.error != {} && r.error <= {NameField, CostField}
    ensures r.Err? ==> (NameField in r.error <==> name.None? || |name.value| == 0)
    ensures r.Err? ==> (CostField in r.error <==> cost.None? || cost.value < 0)
  {
    var nameBad := name.None? || |name.value| == 0;
    var costBad := cost.None? || cost.value < 0;
    if nameBad || costBad then
      Err((if nameBad then {NameField} else {}) + (if costBad then {CostField} else {}))
    else
      Ok(Treatment(name.value, cost.value, match notes case Some(n) => n case None => ""))
  }

  /** A stored visit. `createdAt` is the creation timestamp, supplied by the
      caller; `completedAt` is absent until the visit is completed. */
  datatype Visit = Visit(
    id: nat,
    patient: nat,
    doctor: nat,
    status: Status,
    treatments: seq<Treatment>,
    totalAmount: int,
    medicalNotes: string,
    completedAt: Option<nat>,
    createdAt: nat)

  /** The `reduce` of the pre-save hook: a left fold adding each cost to a running sum from 0. */
  function SumCosts(ts: seq<Treatment>): int
  {
    if |ts| == 0 then 0 else SumCosts(ts[..|ts| - 1]) + ts[|ts| - 1].cost
  }

  /** The pre-save hook: overwrite `totalAmount` with the sum of the treatment costs. */
  function PreSave(v: Visit): (r: Visit)
    ensures r.treatments == v.treatments
    ensures r == v.(totalAmount := r.totalAmount)
  {
    v.(totalAmount := SumCosts(v.treatments))
  }

  /** The total a saved visit carries is a function of its treatments alone. */
  predicate TotalConsistent(v: Visit)
  {
    v.totalAmount == SumCosts(v.treatments)
  }

  /** `Visit.create`: fill in the schema defaults, validate the status, and run the pre-save hook. */
  function CreateVisitDoc(id: nat, patient: nat, doctor: nat, status: Option<string>, now: nat): (r: Result<Visit, set<Field>>)
    ensures r.Ok? <==> status.None? || ParseStatus(status.value).Some?
    ensures r.Err? ==> r.error == {StatusField}
    ensures r.Ok? ==> r.value.id == id && r.value.patient == patient && r.value.doctor == doctor
    ensures r.Ok? ==> StatusName(r.value.status) == (if status.None? then "pending" else status.value)
    ensures r.Ok? ==> r.value.treatments == [] && r.value.totalAmount == 0
    ensures r.Ok? ==> r.value.medicalNotes == "" && r.value.completedAt.None? && r.value.createdAt == now
    ensures r.Ok? ==> TotalConsistent(r.value)
  {
    var st := if status.None? then Some(DefaultStatus) else ParseStatus(status.value);
    if st.None? then Err({StatusField})
    else Ok(PreSave(Visit(id, patient, doctor, st.value, [], 0, "", None, now)))
  }

  /** Adding up a concatenation is adding up the parts. */
  lemma {:induction false} SumCostsConcat(a: seq<Treatment>, b: seq<Treatment>)
    ensures SumCosts(a + b) == SumCosts(a) + SumCosts(b)
  {
    if |b| == 0 {
      assert a + b == a;
    } else {
      var b' := b[..|b| - 1];
      assert (a + b)[..|a + b| - 1] == a + b';
      SumCostsConcat(a, b');
    }
  }

  /** After save the total is the sum of the costs, whatever was stored before. */
  lemma SaveMakesTotalConsistent(v: Visit)
    ensures TotalConsistent(PreSave(v))
    ensures PreSave(v).treatments == v.treatments
    ensures v.treatments == [] ==> PreSave(v).totalAmount == 0
  {
  }

  /** Saving again without touching the treatments changes nothing. */
  lemma SaveIdempotent(v: Visit)
    ensures PreSave(PreSave(v)) == PreSave(v)
    ensures TotalConsistent(v) ==> PreSave(v) == v
  {
  }

  /** Appending a treatment of cost c and saving raises the total by exactly c. */
  lemma AppendRaisesTotalBy(v: Visit, t: Treatment)
    requires TotalConsistent(v)
    ensures PreSave(v.(treatments := v.treatments + [t])).totalAmount == v.totalAmount + t.cost
  {
    SumCostsConcat(v.treatments, [t]);
  }

  /** With every cost at least 0 the total is at least 0. */
  lemma {:induction false} SumCostsNonNegative(ts: seq<Treatment>)
    requires forall i :: 0 <= i < |ts| ==> ValidTreatment(ts[i])
    ensures SumCosts(ts) >= 0
  {
    if |ts| > 0 {
      SumCostsNonNegative(ts[..|ts| - 1]);
    }
  }

  /** Appending valid treatments never lowers a saved total. */
  lemma AppendNeverDecreasesTotal(v: Visit, more: seq<Treatment>)
    requires TotalConsistent(v)
    requires forall i :: 0 <= i < |more| ==> ValidTreatment(more[i])
    ensures PreSave(v.(treatments := v.treatments + more)).totalAmount >= v.totalAmount
  {
    SumCostsConcat(v.treatments, more);
    SumCostsNonNegative(more);
  }
}
