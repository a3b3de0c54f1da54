/** The finance dashboard: visit counts by status, revenue from completed
    visits, the average completed-visit cost, account counts by role, and the
    five doctors with the most visits. Each figure is a fold over the stores. */
module Dashboard {
  import opened Common
  import opened Users
  import opened VisitModel
  import opened Sorting

  /** `countDocuments({ status })`. */
  function CountStatus(store: seq<Visit>, s: Status): (n: nat)
    ensures n <= |store|
  {
    if |store| == 0 then 0
    else CountStatus(store[..|store| - 1], s) + (if store[|store| - 1].status == s then 1 else 0)
  }

  /** Every visit has exactly one of the three statuses. */
  lemma {:induction false} StatusCountsPartition(store: seq<Visit>)
    ensures CountStatus(store, Completed) + CountStatus(store, Pending) + CountStatus(store, InProgress) == |store|
  {
    if |store| > 0 {
      StatusCountsPartition(store[..|store| - 1]);
    }
  }

  /** The revenue of the completed visits: the sum of their totals. */
  function CompletedRevenue(store: seq<Visit>): int
  {
    if |store| == 0 then 0
    else
      var last := store[|store| - 1];
      CompletedRevenue(store[..|store| - 1]) + (if last.status == Completed then last.totalAmount else 0)
  }

  /** The `$match` on completed visits followed by a `$group` on a constant key:
      no output document when nothing matched, otherwise one carrying the sum. */
  function RevenueGroup(store: seq<Visit>): (r: Option<int>)
    ensures r.None? <==> CountStatus(store, Completed) == 0
    ensures r.Some? ==> r.value == CompletedRevenue(store)
  {
    if |store| == 0 then None
    else
      var acc := RevenueGroup(store[..|store| - 1]);
      var last := store[|store| - 1];
      NoCompletedNoRevenue(store[..|store| - 1]);
      if last.status != Completed then acc
      else Some((if acc.Some? then acc.value else 0) + last.totalAmount)
  }

  /** With no completed visit there is no revenue. */
  lemma {:induction false} NoCompletedNoRevenue(store: seq<Visit>)
    ensures CountStatus(store, Completed) == 0 ==> CompletedRevenue(store) == 0
  {
    if |store| > 0 {
      NoCompletedNoRevenue(store[..|store| - 1]);
    }
  }

  /** A doctor's visit tally: one `$group` bucket with its `$sum: 1`. */
  datatype DoctorCount = DoctorCount(doctor: nat, visitCount: nat)

  /** How many visits, of any status, `doctor` has. */
  function CountDoctor(store: seq<Visit>, doctor: nat): (n: nat)
    ensures n <= |store|
  {
    if |store| == 0 then 0
    else CountDoctor(store[..|store| - 1], doctor) + (if store[|store| - 1].doctor == doctor then 1 else 0)
  }

  ghost predicate DistinctDoctors(gs: seq<DoctorCount>)
  {
    forall i, j :: 0 <= i < j < |gs| ==> gs[i].doctor != gs[j].doctor
  }

  ghost predicate HasBucket(gs: seq<DoctorCount>, doctor: nat)
  {
    exists k :: 0 <= k < |gs| && gs[k].doctor == doctor
  }

  /** The buckets are exactly the doctors with visits, each with its visit count. */
  ghost predicate BucketsOf(gs: seq<DoctorCount>, store: seq<Visit>)
  {
    && DistinctDoctors(gs)
    && (forall k :: 0 <= k < |gs| ==> gs[k].visitCount == CountDoctor(store, gs[k].doctor))
    && (forall d :: HasBucket(gs, d) <==> CountDoctor(store, d) > 0)
  }

  /** Adds one visit of `doctor` to its bucket, opening a bucket if needed. */
  function Bump(gs: seq<DoctorCount>, doctor: nat): (r: seq<DoctorCount>)
    ensures |r| == (if HasBucket(gs, doctor) then |gs| else |gs| + 1)
    ensures forall k :: 0 <= k < |gs| ==> r[k].doctor == gs[k].doctor
    ensures forall k :: 0 <= k < |gs| && gs[k].doctor != doctor ==> r[k].visitCount == gs[k].visitCount
    ensures DistinctDoctors(gs) ==> forall k :: 0 <= k < |gs| && gs[k].doctor == doctor ==> r[k].visitCount == gs[k].visitCount + 1
    ensures !HasBucket(gs, doctor) ==> r[|gs|] == DoctorCount(doctor, 1)
  {
    if |gs| == 0 then [DoctorCount(doctor, 1)]
    else if gs[0].doctor == doctor then [gs[0].(visitCount := gs[0].visitCount + 1)] + gs[1..]
    else
      var rest := Bump(gs[1..], doctor);
      assert HasBucket(gs, doctor) <==> HasBucket(gs[1..], doctor) by {
        if HasBucket(gs, doctor) {
          var k :| 0 <= k < |gs| && gs[k].doctor == doctor;
          assert gs[1..][k - 1].doctor == doctor;
        }
        if HasBucket(gs[1..], doctor) {
          var k :| 0 <= k < |gs[1..]| && gs[1..][k].doctor == doctor;
          assert gs[k + 1].doctor == doctor;
        }
      }
      [gs[0]] + rest
  }

  /** `$group: { _id: "$doctor", visitCount: { $sum: 1 } }`, buckets in order of first appearance. */
  function GroupByDoctor(store: seq<Visit>): (r: seq<DoctorCount>)
    ensures BucketsOf(r, store)
  {
    if |store| == 0 then []
    else
      var init := store[..|store| - 1];
      var v := store[|store| - 1];
      assert store == init + [v];
      BumpKeepsBuckets(GroupByDoctor(init), init, v);
      Bump(GroupByDoctor(init), v.doctor)
  }

  /** One more visit adds one to its doctor's count and nothing to the others. */
  lemma CountDoctorSnoc(store: seq<Visit>, v: Visit, x: nat)
    ensures CountDoctor(store + [v], x) == CountDoctor(store, x) + (if v.doctor == x then 1 else 0)
  {
    assert (store + [v])[..|store|] == store;
  }

  /** Bumping the visit's doctor turns the buckets of a store into those of the store with the visit appended. */
  lemma BumpKeepsBuckets(gs: seq<DoctorCount>, store: seq<Visit>, v: Visit)
    requires BucketsOf(gs, store)
    ensures BucketsOf(Bump(gs, v.doctor), store + [v])
  {
    var d := v.doctor;
    var r := Bump(gs, d);
    forall x
      ensures CountDoctor(store + [v], x) == CountDoctor(store, x) + (if d == x then 1 else 0)
    {
      CountDoctorSnoc(store, v, x);
    }
    forall i, j | 0 <= i < j < |r|
      ensures r[i].doctor != r[j].doctor
    {
      if j == |gs| {
        assert !HasBucket(gs, d);
        assert gs[i].doctor != d;
      }
    }
    forall k | 0 <= k < |r|
      ensures r[k].visitCount == CountDoctor(store + [v], r[k].doctor)
    {
      if k < |gs| {
        assert r[k].doctor == gs[k].doctor;
      }
    }
    forall x
      ensures HasBucket(r, x) <==> CountDoctor(store + [v], x) > 0
    {
      if HasBucket(r, x) {
        var k :| 0 <= k < |r| && r[k].doctor == x;
        if k < |gs| { assert gs[k].doctor == x; }
      }
      if HasBucket(gs, x) {
        var k :| 0 <= k < |gs| && gs[k].doctor == x;
        assert r[k].doctor == x;
      }
      if x == d && !HasBucket(gs, x) {
        assert r[|gs|].doctor == x;
      }
    }
  }

  /** One entry of the ranking: the bucket joined with the doctor's account. */
  datatype TopDoctor = TopDoctor(id: nat, visitCount: nat, name: string, email: string)

  /** `$lookup` on the users' ids followed by `$unwind`: one entry per matching
      account, and none for a bucket whose id matches no account. */
  function LookupUnwind(users: seq<User>, gs: seq<DoctorCount>): seq<TopDoctor>
  {
    if |gs| == 0 then [] else Join(users, gs[0]) + LookupUnwind(users, gs[1..])
  }

  /** The entries `$lookup` and `$unwind` make of one bucket, in account order. */
  function Join(users: seq<User>, g: DoctorCount): (r: seq<TopDoctor>)
    ensures forall i :: 0 <= i < |r| ==> r[i].id == g.doctor && r[i].visitCount == g.visitCount
    ensures forall i :: 0 <= i < |r| ==>
      exists u :: u in users && u.id == g.doctor && u.name == r[i].name && u.email == r[i].email
    ensures (exists u :: u in users && u.id == g.doctor) <==> |r| > 0
  {
    if |users| == 0 then []
    else
      var rest := Join(users[1..], g);
      var u := users[0];
      if u.id == g.doctor then [TopDoctor(g.doctor, g.visitCount, u.name, u.email)] + rest
      else rest
  }

  /** With unique account ids a bucket joins with at most one account. */
  lemma {:induction false} JoinAtMostOne(users: seq<User>, g: DoctorCount)
    requires UniqueIds(users)
    ensures |Join(users, g)| <= 1
  {
    if |users| > 0 {
      var rest := Join(users[1..], g);
      assert UniqueIds(users[1..]);
      JoinAtMostOne(users[1..], g);
      if users[0].id == g.doctor {
        assert forall u :: u in users[1..] ==> u.id != g.doctor;
        assert |rest| == 0;
      }
    }
  }

  /** Every entry comes from a bucket and carries that bucket's count. */
  lemma {:induction false} LookupUnwindFromBuckets(users: seq<User>, gs: seq<DoctorCount>)
    ensures forall i :: 0 <= i < |LookupUnwind(users, gs)| ==>
      exists k :: 0 <= k < |gs| && LookupUnwind(users, gs)[i].id == gs[k].doctor &&
        LookupUnwind(users, gs)[i].visitCount == gs[k].visitCount
  {
    var r := LookupUnwind(users, gs);
    if |gs| == 0 {
      assert r == [];
    } else {
      var head := Join(users, gs[0]);
      var tail := LookupUnwind(users, gs[1..]);
      assert r == head + tail;
      LookupUnwindFromBuckets(users, gs[1..]);
      forall i | 0 <= i < |r|
        ensures exists k :: 0 <= k < |gs| && r[i].id == gs[k].doctor && r[i].visitCount == gs[k].visitCount
      {
        if i < |head| {
          assert r[i] == head[i];
          assert r[i].id == gs[0].doctor && r[i].visitCount == gs[0].visitCount;
        } else {
          var t := tail[i - |head|];
          assert r[i] == t;
          var k :| 0 <= k < |gs[1..]| && t.id == gs[1..][k].doctor && t.visitCount == gs[1..][k].visitCount;
          assert gs[1..][k] == gs[k + 1];
        }
      }
    }
  }

  /** The entry shows the name and email of an account with the entry's id. */
  ghost predicate HasContact(users: seq<User>, t: TopDoctor)
  {
    exists u :: u in users && u.id == t.id && u.name == t.name && u.email == t.email
  }

  /** Every entry names an account with the entry's id, and shows that account's name and email. */
  lemma {:induction false} LookupUnwindNamesAccounts(users: seq<User>, gs: seq<DoctorCount>)
    ensures forall i :: 0 <= i < |LookupUnwind(users, gs)| ==> HasContact(users, LookupUnwind(users, gs)[i])
  {
    var r := LookupUnwind(users, gs);
    if |gs| == 0 {
      assert r == [];
    } else {
      var head := Join(users, gs[0]);
      var tail := LookupUnwind(users, gs[1..]);
      assert r == head + tail;
      LookupUnwindNamesAccounts(users, gs[1..]);
      forall i | 0 <= i < |r|
        ensures HasContact(users, r[i])
      {
        if i < |head| {
          assert r[i] == head[i];
          var u :| u in users && u.id == gs[0].doctor && u.name == head[i].name && u.email == head[i].email;
        } else {
          assert r[i] == tail[i - |head|];
        }
      }
    }
  }

  /** With unique account ids and one bucket per doctor, no doctor is listed twice. */
  lemma {:induction false} LookupUnwindDistinct(users: seq<User>, gs: seq<DoctorCount>)
    ensures UniqueIds(users) && DistinctDoctors(gs) ==>
      forall i, j :: 0 <= i < j < |LookupUnwind(users, gs)| ==> LookupUnwind(users, gs)[i].id != LookupUnwind(users, gs)[j].id
  {
    if |gs| > 0 && UniqueIds(users) && DistinctDoctors(gs) {
      var head := Join(users, gs[0]);
      var tail := LookupUnwind(users, gs[1..]);
      var r := LookupUnwind(users, gs);
      assert r == head + tail;
      JoinAtMostOne(users, gs[0]);
      assert DistinctDoctors(gs[1..]);
      LookupUnwindDistinct(users, gs[1..]);
      LookupUnwindFromBuckets(users, gs[1..]);
      forall i, j | 0 <= i < j < |r|
        ensures r[i].id != r[j].id
      {
        if i < |head| {
          assert r[i] == head[i] && r[j] == tail[j - |head|];
          var k :| 0 <= k < |gs[1..]| && tail[j - |head|].id == gs[1..][k].doctor && tail[j - |head|].visitCount == gs[1..][k].visitCount;
          assert gs[1..][k] == gs[k + 1];
        } else {
          assert r[i] == tail[i - |head|] && r[j] == tail[j - |head|];
        }
      }
    }
  }

  ghost predicate HasAccount(users: seq<User>, id: nat)
  {
    exists u :: u in users && u.id == id
  }

  ghost predicate Lists(top: seq<TopDoctor>, id: nat)
  {
    exists i :: 0 <= i < |top| && top[i].id == id
  }

  /** Every bucket whose id has an account gives an entry. */
  lemma {:induction false} LookupUnwindKeepsAccounts(users: seq<User>, gs: seq<DoctorCount>)
    ensures forall k :: 0 <= k < |gs| && HasAccount(users, gs[k].doctor) ==> Lists(LookupUnwind(users, gs), gs[k].doctor)
  {
    if |gs| > 0 {
      var head := Join(users, gs[0]);
      var tail := LookupUnwind(users, gs[1..]);
      var r := LookupUnwind(users, gs);
      assert r == head + tail;
      LookupUnwindKeepsAccounts(users, gs[1..]);
      forall k | 0 <= k < |gs| && HasAccount(users, gs[k].doctor)
        ensures Lists(r, gs[k].doctor)
      {
        if k == 0 {
          assert r[0] == head[0];
        } else {
          assert gs[1..][k - 1] == gs[k];
          var i :| 0 <= i < |tail| && tail[i].id == gs[k].doctor;
          assert r[|head| + i] == tail[i];
        }
      }
    }
  }

  /** With unique account ids the join yields at most one entry per bucket. */
  lemma {:induction false} LookupUnwindSize(users: seq<User>, gs: seq<DoctorCount>)
    ensures UniqueIds(users) ==> |LookupUnwind(users, gs)| <= |gs|
  {
    if |gs| > 0 && UniqueIds(users) {
      JoinAtMostOne(users, gs[0]);
      LookupUnwindSize(users, gs[1..]);
    }
  }

  /** Dropping buckets keeps the order: the join of buckets sorted by count is sorted by count. */
  lemma {:induction false} LookupUnwindSorted(users: seq<User>, gs: seq<DoctorCount>)
    requires SortedDesc(gs, (g: DoctorCount) => g.visitCount)
    ensures SortedDesc(LookupUnwind(users, gs), (t: TopDoctor) => t.visitCount)
  {
    if |gs| > 0 {
      var head := Join(users, gs[0]);
      var tail := LookupUnwind(users, gs[1..]);
      var r := head + tail;
      LookupUnwindSorted(users, gs[1..]);
      LookupUnwindFromBuckets(users, gs[1..]);
      forall i, j | 0 <= i < j < |r|
        ensures r[i].visitCount >= r[j].visitCount
      {
        if j < |head| {
          assert r[i] == head[i] && r[j] == head[j];
        } else if i < |head| {
          assert r[i] == head[i] && r[j] == tail[j - |head|];
          var k :| 0 <= k < |gs[1..]| && tail[j - |head|].visitCount == gs[1..][k].visitCount;
          assert gs[1..][k] == gs[k + 1];
        } else {
          assert r[i] == tail[i - |head|] && r[j] == tail[j - |head|];
        }
      }
    }
  }

  const TopLimit: nat := 5

  /** `$sort: { visitCount: -1 }`: buckets, most visits first. */
  function Ranked(store: seq<Visit>): seq<DoctorCount>
  {
    SortDesc(GroupByDoctor(store), (g: DoctorCount) => g.visitCount)
  }

  /** `$limit: 5`, applied before the join with the accounts. */
  function Kept(store: seq<Visit>): (r: seq<DoctorCount>)
    ensures |r| <= TopLimit
  {
    var ranked := Ranked(store);
    ranked[..if |ranked| < TopLimit then |ranked| else TopLimit]
  }

  /** The ranking pipeline: group, sort, limit, lookup, unwind, project. */
  function TopDoctors(users: seq<User>, store: seq<Visit>): (r: seq<TopDoctor>)
    ensures UniqueIds(users) ==> |r| <= TopLimit
    ensures SortedDesc(r, (t: TopDoctor) => t.visitCount)
    ensures forall i :: 0 <= i < |r| ==> r[i].visitCount == CountDoctor(store, r[i].id) && r[i].visitCount >= 1
    ensures forall i :: 0 <= i < |r| ==> HasContact(users, r[i])
    ensures UniqueIds(users) ==> forall i, j :: 0 <= i < j < |r| ==> r[i].id != r[j].id
    ensures forall k :: 0 <= k < |Kept(store)| && HasAccount(users, Kept(store)[k].doctor) ==> Lists(r, Kept(store)[k].doctor)
  {
    var kept := Kept(store);
    RankedBuckets(store);
    assert forall k :: 0 <= k < |kept| ==> kept[k] == Ranked(store)[k];
    LookupUnwindFromBuckets(users, kept);
    LookupUnwindNamesAccounts(users, kept);
    LookupUnwindSorted(users, kept);
    LookupUnwindSize(users, kept);
    KeptDistinct(store);
    LookupUnwindDistinct(users, kept);
    LookupUnwindKeepsAccounts(users, kept);
    LookupUnwind(users, kept)
  }

  /** Sorting keeps the buckets, each with its count, and orders them by count. */
  lemma RankedBuckets(store: seq<Visit>)
    ensures forall k :: 0 <= k < |Ranked(store)| ==>
      Ranked(store)[k].visitCount == CountDoctor(store, Ranked(store)[k].doctor) && Ranked(store)[k].visitCount >= 1
    ensures forall d :: CountDoctor(store, d) > 0 ==> HasBucket(Ranked(store), d)
    ensures SortedDesc(Ranked(store), (g: DoctorCount) => g.visitCount)
  {
    var gs := GroupByDoctor(store);
    var ranked := Ranked(store);
    forall k | 0 <= k < |ranked|
      ensures ranked[k].visitCount == CountDoctor(store, ranked[k].doctor) && ranked[k].visitCount >= 1
    {
      assert ranked[k] in multiset(gs);
      var m :| 0 <= m < |gs| && gs[m] == ranked[k];
      assert HasBucket(gs, gs[m].doctor);
    }
    forall d | CountDoctor(store, d) > 0
      ensures HasBucket(ranked, d)
    {
      var m :| 0 <= m < |gs| && gs[m].doctor == d;
      assert gs[m] in multiset(ranked);
      var k :| 0 <= k < |ranked| && ranked[k] == gs[m];
    }
  }

  /** The kept buckets name distinct doctors. */
  lemma KeptDistinct(store: seq<Visit>)
    ensures DistinctDoctors(Kept(store))
  {
    var gs := GroupByDoctor(store);
    var ranked := Ranked(store);
    assert NoRepeats(gs) by {
      forall i, j | 0 <= i < j < |gs|
        ensures gs[i] != gs[j]
      {
        assert gs[i].doctor != gs[j].doctor;
      }
    }
    PermutationKeepsNoRepeats(gs, ranked);
    RankedBuckets(store);
    assert DistinctDoctors(ranked);
    KeptIsRankedPrefix(store);
  }

  /** The limit keeps a prefix of the ranking. */
  lemma KeptIsRankedPrefix(store: seq<Visit>)
    ensures |Kept(store)| <= |Ranked(store)|
    ensures forall k :: 0 <= k < |Kept(store)| ==> Kept(store)[k] == Ranked(store)[k]
    ensures |Kept(store)| < |Ranked(store)| ==> |Kept(store)| == TopLimit
  {
  }

  /** Every ranked entry comes from a kept bucket, with that bucket's count. */
  lemma TopEntriesFromKept(users: seq<User>, store: seq<Visit>)
    ensures forall i :: 0 <= i < |TopDoctors(users, store)| ==>
      exists k :: 0 <= k < |Kept(store)| && TopDoctors(users, store)[i].id == Kept(store)[k].doctor &&
        TopDoctors(users, store)[i].visitCount == Kept(store)[k].visitCount
  {
    assert TopDoctors(users, store) == LookupUnwind(users, Kept(store));
    LookupUnwindFromBuckets(users, Kept(store));
  }

  /** A doctor with visits is either kept or cut by a full limit with no more
      visits than any kept bucket. */
  lemma LimitCutsOnlySmallerCounts(store: seq<Visit>, d: nat)
    requires CountDoctor(store, d) > 0
    ensures HasBucket(Kept(store), d) ||
      (|Kept(store)| == TopLimit && forall k :: 0 <= k < |Kept(store)| ==> CountDoctor(store, d) <= Kept(store)[k].visitCount)
  {
    var ranked := Ranked(store);
    var kept := Kept(store);
    RankedBuckets(store);
    KeptIsRankedPrefix(store);
    var m :| 0 <= m < |ranked| && ranked[m].doctor == d;
    if m < |kept| {
      assert kept[m].doctor == d;
    } else {
      forall k | 0 <= k < |kept|
        ensures ranked[m].visitCount <= kept[k].visitCount
      {
        assert ranked[k].visitCount >= ranked[m].visitCount;
      }
    }
  }

  /** A doctor with visits and an account who is missing from the ranking was
      cut by a full limit and has no more visits than any kept bucket, hence
      than any listed doctor: the limit only cuts the smallest counts. */
  lemma RankingCutsOnlySmallerCounts(users: seq<User>, store: seq<Visit>, d: nat)
    requires CountDoctor(store, d) > 0
    requires HasAccount(users, d)
    ensures Lists(TopDoctors(users, store), d) ||
      (|Kept(store)| == TopLimit && forall k :: 0 <= k < |Kept(store)| ==> CountDoctor(store, d) <= Kept(store)[k].visitCount)
    ensures Lists(TopDoctors(users, store), d) ||
      forall i :: 0 <= i < |TopDoctors(users, store)| ==> CountDoctor(store, d) <= TopDoctors(users, store)[i].visitCount
  {
    var kept := Kept(store);
    var top := TopDoctors(users, store);
    LimitCutsOnlySmallerCounts(store, d);
    if HasBucket(kept, d) {
      var k :| 0 <= k < |kept| && kept[k].doctor == d;
      assert Lists(top, kept[k].doctor);
    } else {
      TopEntriesFromKept(users, store);
      forall i | 0 <= i < |top|
        ensures CountDoctor(store, d) <= top[i].visitCount
      {
        var k :| 0 <= k < |kept| && top[i].id == kept[k].doctor && top[i].visitCount == kept[k].visitCount;
      }
    }
  }

  /** With unique account ids, a bucket whose id has no account makes the join shorter than the buckets. */
  lemma {:induction false} LookupUnwindDropsDangling(users: seq<User>, gs: seq<DoctorCount>, k: nat)
    requires UniqueIds(users)
    requires k < |gs| && !HasAccount(users, gs[k].doctor)
    ensures |LookupUnwind(users, gs)| < |gs|
  {
    assert LookupUnwind(users, gs) == Join(users, gs[0]) + LookupUnwind(users, gs[1..]);
    if k == 0 {
      assert |Join(users, gs[0])| == 0;
      LookupUnwindSize(users, gs[1..]);
    } else {
      JoinAtMostOne(users, gs[0]);
      assert gs[1..][k - 1] == gs[k];
      LookupUnwindDropsDangling(users, gs[1..], k - 1);
    }
  }

  /** Because the limit precedes the join, a kept doctor id with no account
      takes one of the five places and then disappears: the ranking is shorter
      than the kept buckets, shorter than five when more than five doctors have
      visits, and no doctor below the cut moves up into the freed place. */
  lemma DanglingDoctorShortensRanking(users: seq<User>, store: seq<Visit>, d: nat)
    ensures UniqueIds(users) && HasBucket(Kept(store), d) && !HasAccount(users, d) ==>
      && |TopDoctors(users, store)| < |Kept(store)|
      && (|Ranked(store)| > TopLimit ==> |TopDoctors(users, store)| < TopLimit)
    ensures forall e :: Lists(TopDoctors(users, store), e) ==> HasBucket(Kept(store), e)
  {
    var kept := Kept(store);
    var top := TopDoctors(users, store);
    assert top == LookupUnwind(users, kept);
    if UniqueIds(users) && HasBucket(kept, d) && !HasAccount(users, d) {
      var k :| 0 <= k < |kept| && kept[k].doctor == d;
      LookupUnwindDropsDangling(users, kept, k);
      KeptIsRankedPrefix(store);
    }
    TopEntriesFromKept(users, store);
    forall e | Lists(top, e)
      ensures HasBucket(kept, e)
    {
      var i :| 0 <= i < |top| && top[i].id == e;
      var k :| 0 <= k < |kept| && top[i].id == kept[k].doctor && top[i].visitCount == kept[k].visitCount;
    }
  }

  /** The smallest instance: one doctor with a visit and no accounts gives an empty ranking. */
  lemma DanglingDoctorExample()
    ensures var store := [Visit(1, 10, 7, Pending, [], 0, "", None, 0)];
      CountDoctor(store, 7) == 1 && TopDoctors([], store) == []
  {
    var store := [Visit(1, 10, 7, Pending, [], 0, "", None, 0)];
    assert store[..0] == [];
    assert GroupByDoctor(store) == [DoctorCount(7, 1)];
  }

  /** The figures `getDashboardStats` returns. Amounts are integer cents; the average is exact. */
  datatype Stats = Stats(
    totalVisits: nat,
    completedVisits: nat,
    pendingVisits: nat,
    inProgressVisits: nat,
    totalRevenue: int,
    averageVisitCost: real,
    totalPatients: nat,
    totalDoctors: nat,
    topDoctors: seq<TopDoctor>)

  /** The average of `count` amounts summing to `total`; 0 when there are none. */
  function Average(total: int, count: nat): (a: real)
    ensures count == 0 ==> a == 0.0
    ensures count > 0 ==> a * count as real == total as real
  {
    if count > 0 then total as real / count as real else 0.0
  }

  function DashboardStats(users: seq<User>, store: seq<Visit>): (r: Stats)
    ensures r.totalVisits == |store|
    ensures r.completedVisits == CountStatus(store, Completed) && r.pendingVisits == CountStatus(store, Pending)
    ensures r.inProgressVisits == CountStatus(store, InProgress)
    ensures r.totalPatients == CountRole(users, Patient) && r.totalDoctors == CountRole(users, Doctor)
    ensures r.completedVisits + r.pendingVisits + r.inProgressVisits == r.totalVisits
    ensures r.totalRevenue == CompletedRevenue(store)
    ensures r.completedVisits == 0 ==> r.totalRevenue == 0 && r.averageVisitCost == 0.0
    ensures r.averageVisitCost == Average(r.totalRevenue, r.completedVisits)
    ensures r.totalPatients + r.totalDoctors == |users| - CountRole(users, Finance)
    ensures r.topDoctors == TopDoctors(users, store)
  {
    var completed := CountStatus(store, Completed);
    var revenue := RevenueGroup(store);
    var totalRevenue := if revenue.Some? then revenue.value else 0;
    StatusCountsPartition(store);
    RoleCountsPartition(users);
    NoCompletedNoRevenue(store);
    assert totalRevenue == CompletedRevenue(store);
    Stats(
      |store|,
      completed,
      CountStatus(store, Pending),
      CountStatus(store, InProgress),
      totalRevenue,
      Average(totalRevenue, completed),
      CountRole(users, Patient),
      CountRole(users, Doctor),
      TopDoctors(users, store))
  }

  /** Counting and summing over a store with one more visit. */
  lemma StatusFiguresSnoc(store: seq<Visit>, v: Visit)
    ensures forall st :: CountStatus(store + [v], st) == CountStatus(store, st) + (if v.status == st then 1 else 0)
    ensures CompletedRevenue(store + [v]) == CompletedRevenue(store) + (if v.status == Completed then v.totalAmount else 0)
  {
    assert (store + [v])[..|store|] == store;
  }

  /** Three completed visits of 100, 50 and 0 and two pending ones: revenue 150, average 50. */
  lemma DashboardExample(users: seq<User>)
    ensures var store := [
        Visit(1, 10, 20, Completed, [], 100, "", Some(5), 1),
        Visit(2, 11, 20, Completed, [], 50, "", Some(6), 2),
        Visit(3, 12, 21, Completed, [], 0, "", Some(7), 3),
        Visit(4, 10, 21, Pending, [], 0, "", None, 4),
        Visit(5, 11, 20, Pending, [], 0, "", None, 5)];
      var s := DashboardStats(users, store);
      s.totalRevenue == 150 && s.completedVisits == 3 && s.pendingVisits == 2 && s.averageVisitCost == 50.0
  {
    var v1 := Visit(1, 10, 20, Completed, [], 100, "", Some(5), 1);
    var v2 := Visit(2, 11, 20, Completed, [], 50, "", Some(6), 2);
    var v3 := Visit(3, 12, 21, Completed, [], 0, "", Some(7), 3);
    var v4 := Visit(4, 10, 21, Pending, [], 0, "", None, 4);
    var v5 := Visit(5, 11, 20, Pending, [], 0, "", None, 5);
    StatusFiguresSnoc([], v1);
    StatusFiguresSnoc([v1], v2);
    StatusFiguresSnoc([v1, v2], v3);
    StatusFiguresSnoc([v1, v2, v3], v4);
    StatusFiguresSnoc([v1, v2, v3, v4], v5);
    var store := [v1, v2, v3, v4, v5];
    assert [v1] + [v2] == [v1, v2] && [v1, v2] + [v3] == [v1, v2, v3];
    assert [v1, v2, v3] + [v4] == [v1, v2, v3, v4] && [v1, v2, v3, v4] + [v5] == store;
    assert CountStatus(store, Completed) == 3 && CompletedRevenue(store) == 150;
    assert CountStatus(store, Pending) == 2;
    var avg := Average(150, 3);
    assert avg * 3.0 == 150.0;
  }
}
