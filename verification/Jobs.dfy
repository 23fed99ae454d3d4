// Linking job specs to stored results and ordering the stored results
// (resctl-bench/src/job.rs, JobCtxs; resctl-bench/src/run.rs, update_incremental_jctx).
//
// What a benchmark's own parser answers is an input: None when it fails, else
// whether the benchmark is incremental.
module Jobs {
  import opened Wrappers
  import opened JobSpecs

  datatype JobData = JobData(spec: Spec, record: Option<string>)

  datatype JobCtx = JobCtx(data: JobData, incremental: bool, uid: nat, used: bool, updateSeq: nat)

  const NOT_UPDATED: nat := 0xFFFF_FFFF_FFFF_FFFF

  // `nextUid` and `nextSeq` are the process-wide counters.
  datatype Jobs = Jobs(vec: seq<JobCtx>, nextUid: nat, nextSeq: nat)

  // ---- Matching ----------------------------------------------------------------

  predicate Matches(e: JobCtx, spec: Spec) {
    && !e.used
    && e.data.spec.kind == spec.kind
    && e.data.spec.id == spec.id
    && (e.incremental || Compatible(e.data.spec, spec))
  }

  // The first unused entry that matches.
  function FirstMatch(vec: seq<JobCtx>, spec: Spec): (r: Option<nat>)
    ensures r.Some? ==> r.value < |vec| && Matches(vec[r.value], spec)
    ensures r.Some? ==> forall j :: 0 <= j < r.value ==> !Matches(vec[j], spec)
    ensures r.None? ==> forall j :: 0 <= j < |vec| ==> !Matches(vec[j], spec)
  {
    if vec == [] then None
    else if Matches(vec[0], spec) then Some(0)
    else
      var r := FirstMatch(vec[1..], spec);
      if r.None? then None else Some(r.value + 1)
  }

  function Claimed(e: JobCtx): JobCtx {
    e.(used := true)
  }

  // parse_job_spec_and_link: the new state and the uid handed out, None on an error.
  function Link(s: Jobs, spec: Spec, parsed: Option<bool>): (Jobs, Option<nat>) {
    if parsed.None? then (s, None)
    else
      var prev := FirstMatch(s.vec, spec);
      if prev.Some? then
        var i := prev.value;
        (s.(vec := s.vec[i := Claimed(s.vec[i])]), Some(s.vec[i].uid))
      else
        var e := JobCtx(JobData(spec, None), parsed.value, s.nextUid, true, NOT_UPDATED);
        (Jobs(s.vec + [e], s.nextUid + 1, s.nextSeq), Some(s.nextUid))
  }

  // load_results: every stored job gets a fresh uid and counts as not updated.
  function Loaded(stored: seq<(JobData, bool)>, nextUid: nat): seq<JobCtx> {
    seq(|stored|, i requires 0 <= i < |stored| =>
      JobCtx(stored[i].0, stored[i].1, nextUid + i, false, NOT_UPDATED))
  }

  // ---- Ordering ----------------------------------------------------------------

  // The entries with update sequence `k`, in order.
  function WithSeq(s: seq<JobCtx>, k: nat): seq<JobCtx> {
    if s == [] then []
    else if s[0].updateSeq == k then [s[0]] + WithSeq(s[1..], k)
    else WithSeq(s[1..], k)
  }

  predicate Ascending(s: seq<JobCtx>) {
    forall i, j :: 0 <= i < j < |s| ==> s[i].updateSeq <= s[j].updateSeq
  }

  // What a stable sort by update sequence promises.
  ghost predicate StableSort(r: seq<JobCtx>, s: seq<JobCtx>) {
    && Ascending(r)
    && (forall k :: WithSeq(r, k) == WithSeq(s, k))
  }

  function Inserted(e: JobCtx, s: seq<JobCtx>): seq<JobCtx> {
    if s == [] then [e]
    else if e.updateSeq <= s[0].updateSeq then [e] + s
    else [s[0]] + Inserted(e, s[1..])
  }

  // sort_by_update_seq
  function SortedBySeq(s: seq<JobCtx>): (r: seq<JobCtx>)
    ensures StableSort(r, s)
  {
    if s == [] then []
    else
      InsertKeepsSort(s[0], SortedBySeq(s[1..]), s[1..]);
      Inserted(s[0], SortedBySeq(s[1..]))
  }

  lemma {:induction false} InsertedMembers(e: JobCtx, s: seq<JobCtx>)
    ensures forall x :: x in Inserted(e, s) <==> x == e || x in s
  {
    if s != [] {
      assert s == [s[0]] + s[1..];
      InsertedMembers(e, s[1..]);
    }
  }

  lemma {:induction false} InsertedAscending(e: JobCtx, s: seq<JobCtx>)
    requires Ascending(s)
    ensures Ascending(Inserted(e, s))
  {
    if s != [] && e.updateSeq > s[0].updateSeq {
      var rest := Inserted(e, s[1..]);
      InsertedAscending(e, s[1..]);
      InsertedMembers(e, s[1..]);
      forall j | 0 <= j < |rest| ensures s[0].updateSeq <= rest[j].updateSeq {
        assert rest[j] in rest;
      }
    }
  }

  lemma {:induction false} InsertedWithSeq(e: JobCtx, s: seq<JobCtx>, k: nat)
    ensures WithSeq(Inserted(e, s), k) == WithSeq([e] + s, k)
  {
    if s != [] && e.updateSeq > s[0].updateSeq {
      InsertedWithSeq(e, s[1..], k);
      var rest := Inserted(e, s[1..]);
      assert ([s[0]] + rest)[1..] == rest;
      assert ([e] + s)[1..] == s && ([e] + s[1..])[1..] == s[1..];
    }
  }

  lemma InsertKeepsSort(e: JobCtx, r: seq<JobCtx>, s: seq<JobCtx>)
    requires StableSort(r, s)
    ensures StableSort(Inserted(e, r), [e] + s)
  {
    InsertedAscending(e, r);
    forall k ensures WithSeq(Inserted(e, r), k) == WithSeq([e] + s, k) {
      InsertedWithSeq(e, r, k);
      assert ([e] + r)[1..] == r && ([e] + s)[1..] == s;
    }
  }

  lemma {:induction false} WithSeqIn(s: seq<JobCtx>, k: nat)
    ensures forall x :: x in WithSeq(s, k) <==> x in s && x.updateSeq == k
  {
    if s != [] {
      WithSeqIn(s[1..], k);
    }
  }

  lemma SameFirst(r: seq<JobCtx>, t: seq<JobCtx>)
    requires Ascending(r) && Ascending(t) && r != []
    requires forall k :: WithSeq(r, k) == WithSeq(t, k)
    ensures t != [] && r[0] == t[0]
  {
    var k := r[0].updateSeq;
    WithSeqIn(r, k);
    WithSeqIn(t, k);
    assert r[0] in WithSeq(t, k);
    var m := t[0].updateSeq;
    WithSeqIn(r, m);
    WithSeqIn(t, m);
    assert t[0] in WithSeq(r, m);
    assert WithSeq(r, k)[0] == r[0] && WithSeq(t, m)[0] == t[0];
  }

  // There is only one stable sort.
  lemma {:induction false} StableSortUnique(r: seq<JobCtx>, t: seq<JobCtx>, s: seq<JobCtx>)
    requires StableSort(r, s) && StableSort(t, s)
    ensures r == t
    decreases |r|
  {
    assert forall k :: WithSeq(r, k) == WithSeq(t, k);
    if r == [] {
      if t != [] {
        SameFirst(t, r);
      }
    } else {
      SameFirst(r, t);
      forall k ensures WithSeq(r[1..], k) == WithSeq(t[1..], k) {
        assert WithSeq(r, k) == WithSeq(t, k);
        if k == r[0].updateSeq {
          assert WithSeq(r[1..], k) == WithSeq(r, k)[1..];
          assert WithSeq(t[1..], k) == WithSeq(t, k)[1..];
        }
      }
      StableSortUnique(r[1..], t[1..], r[1..]);
      assert r == [r[0]] + r[1..] && t == [t[0]] + t[1..];
    }
  }

  lemma {:induction false} WithSeqConcat(a: seq<JobCtx>, b: seq<JobCtx>, k: nat)
    ensures WithSeq(a + b, k) == WithSeq(a, k) + WithSeq(b, k)
  {
    if a == [] {
      assert a + b == b;
    } else {
      WithSeqConcat(a[1..], b, k);
      assert (a + b)[1..] == a[1..] + b;
    }
  }

  lemma WithSeqMiddle(p: seq<JobCtx>, e: JobCtx, q: seq<JobCtx>, k: nat)
    ensures WithSeq(p + [e] + q, k) == WithSeq(p, k) + WithSeq([e], k) + WithSeq(q, k)
  {
    WithSeqConcat(p + [e], q, k);
    WithSeqConcat(p, [e], k);
  }

  lemma {:induction false} WithSeqNone(s: seq<JobCtx>, k: nat)
    requires forall x :: x in s ==> x.updateSeq != k
    ensures WithSeq(s, k) == []
  {
    if s != [] {
      WithSeqNone(s[1..], k);
    }
  }

  lemma WithSeqMoved(p: seq<JobCtx>, e: JobCtx, q: seq<JobCtx>, a: seq<JobCtx>, b: seq<JobCtx>, k: nat)
    requires p + q == a + b
    requires forall x :: x in p + q ==> x.updateSeq != e.updateSeq
    ensures WithSeq(a + [e] + b, k) == WithSeq(p + [e] + q, k)
  {
    WithSeqMiddle(a, e, b, k);
    WithSeqMiddle(p, e, q, k);
    if k == e.updateSeq {
      forall x | x in a + b ensures x.updateSeq != k {
        assert x in p + q;
      }
      WithSeqNone(p, k);
      WithSeqNone(q, k);
      WithSeqNone(a, k);
      WithSeqNone(b, k);
    } else {
      WithSeqNone([e], k);
      WithSeqConcat(a, b, k);
      WithSeqConcat(p, q, k);
      assert WithSeq(a, k) + [] == WithSeq(a, k) && WithSeq(p, k) + [] == WithSeq(p, k);
    }
  }

  // An entry whose sequence is nobody else's lands exactly where the order puts
  // it, whatever position it had; nothing else moves.
  lemma SortMovesOne(p: seq<JobCtx>, e: JobCtx, q: seq<JobCtx>, a: seq<JobCtx>, b: seq<JobCtx>)
    requires p + q == a + b
    requires Ascending(a + [e] + b)
    requires forall x :: x in p + q ==> x.updateSeq != e.updateSeq
    ensures SortedBySeq(p + [e] + q) == a + [e] + b
  {
    forall k ensures WithSeq(a + [e] + b, k) == WithSeq(p + [e] + q, k) {
      WithSeqMoved(p, e, q, a, b, k);
    }
    StableSortUnique(SortedBySeq(p + [e] + q), a + [e] + b, p + [e] + q);
  }

  // ---- Updating a stored result --------------------------------------------------

  // by_uid
  function IndexOf(vec: seq<JobCtx>, uid: nat): (r: Option<nat>)
    ensures r.Some? ==> r.value < |vec| && vec[r.value].uid == uid
    ensures r.Some? ==> forall j :: 0 <= j < r.value ==> vec[j].uid != uid
    ensures r.None? ==> forall j :: 0 <= j < |vec| ==> vec[j].uid != uid
  {
    if vec == [] then None
    else if vec[0].uid == uid then Some(0)
    else
      var r := IndexOf(vec[1..], uid);
      if r.None? then None else Some(r.value + 1)
  }

  // update_incremental_jctx: `studying` runs keep the stored order.
  function Update(s: Jobs, uid: nat, data: JobData, studying: bool): Jobs
    requires IndexOf(s.vec, uid).Some?
  {
    var i := IndexOf(s.vec, uid).value;
    var vec := s.vec[i := s.vec[i].(updateSeq := s.nextSeq, data := data)];
    Jobs(if studying then vec else SortedBySeq(vec), s.nextUid, s.nextSeq + 1)
  }

  class JobCtxs {
    var vec: seq<JobCtx>
    var nextUid: nat
    var nextSeq: nat

    ghost function View(): Jobs
      reads this
    {
      Jobs(vec, nextUid, nextSeq)
    }

    constructor (stored: seq<(JobData, bool)>, nextUid: nat, nextSeq: nat)
      ensures View() == Jobs(Loaded(stored, nextUid), nextUid + |stored|, nextSeq)
    {
      vec := [];
      this.nextUid, this.nextSeq := nextUid, nextSeq;
      new;
      for i := 0 to |stored|
        invariant vec == Loaded(stored, nextUid)[..i]
        invariant this.nextUid == nextUid + i && this.nextSeq == nextSeq
      {
        vec := vec + [JobCtx(stored[i].0, stored[i].1, this.nextUid, false, NOT_UPDATED)];
        this.nextUid := this.nextUid + 1;
      }
    }

    method ByUid(uid: nat) returns (r: Option<nat>)
      ensures r == IndexOf(vec, uid)
    {
      for i := 0 to |vec|
        invariant forall j :: 0 <= j < i ==> vec[j].uid != uid
      {
        if vec[i].uid == uid {
          return Some(i);
        }
      }
      return None;
    }

    method FindMatchingUnused(spec: Spec) returns (r: Option<nat>)
      ensures r == FirstMatch(vec, spec)
    {
      for i := 0 to |vec|
        invariant forall j :: 0 <= j < i ==> !Matches(vec[j], spec)
      {
        if Matches(vec[i], spec) {
          return Some(i);
        }
      }
      return None;
    }

    method ParseJobSpecAndLink(spec: Spec, parsed: Option<bool>) returns (uid: Option<nat>)
      modifies this
      ensures (View(), uid) == Link(old(View()), spec, parsed)
    {
      var prev := FindMatchingUnused(spec);
      if parsed.None? {
        return None;
      }
      if prev.Some? {
        var e := vec[prev.value];
        vec := vec[prev.value := e.(used := true)];
        return Some(e.uid);
      }
      uid := Some(nextUid);
      var entry := JobCtx(JobData(spec, None), parsed.value, nextUid, true, NOT_UPDATED);
      nextUid := nextUid + 1;
      vec := vec + [entry];
    }

    method SortByUpdateSeq()
      modifies this`vec
      ensures StableSort(vec, old(vec))
      ensures vec == SortedBySeq(old(vec))
    {
      vec := SortedBySeq(vec);
    }

    method UpdateIncrementalJctx(uid: nat, data: JobData, studying: bool)
      requires IndexOf(vec, uid).Some?
      modifies this
      ensures View() == Update(old(View()), uid, data, studying)
    {
      var prev := ByUid(uid);
      var i := prev.value;
      vec := vec[i := vec[i].(updateSeq := nextSeq, data := data)];
      nextSeq := nextSeq + 1;
      if !studying {
        SortByUpdateSeq();
      }
    }
  }

  // ---- Every session -----------------------------------------------------------

  datatype Event =
    | LinkSpec(spec: Spec, parsed: Option<bool>)
    | UpdateJob(uid: nat, data: JobData)

  // The job list together with what the session did so far: the uids handed out,
  // the uids in the order the entries entered the list, the uids in update order
  // and the data last stored under each uid.
  datatype Session = Session(
    jobs: Jobs,
    studying: bool,
    claims: seq<nat>,
    arrivals: seq<nat>,
    updates: seq<nat>,
    stored: map<nat, JobData>)

  // Only jobs that were linked get updated, and the 64-bit sequence is not used up.
  predicate Enabled(se: Session, ev: Event) {
    match ev
    case LinkSpec(_, _) => true
    case UpdateJob(uid, _) => uid in se.claims && se.jobs.nextSeq < NOT_UPDATED
  }

  function Uids(vec: seq<JobCtx>): (r: seq<nat>)
    ensures |r| == |vec|
    ensures forall i :: 0 <= i < |vec| ==> r[i] == vec[i].uid
  {
    seq(|vec|, i requires 0 <= i < |vec| => vec[i].uid)
  }

  ghost predicate Distinct(s: seq<nat>) {
    forall i, j :: 0 <= i < j < |s| ==> s[i] != s[j]
  }

  // A session's start, on whatever results were loaded.
  function Start(stored: seq<(JobData, bool)>, studying: bool): Session {
    var vec := Loaded(stored, 1);
    Session(Jobs(vec, 1 + |stored|, 1), studying, [], Uids(vec), [],
            map u | u in Uids(vec) :: stored[u - 1].0)
  }

  // The claims and the data are consistent with the list.
  ghost predicate LinksOk(se: Session) {
    && Distinct(Uids(se.jobs.vec))
    && Distinct(se.claims)
    && Distinct(se.arrivals)
    && Set(se.arrivals) == se.stored.Keys
    && se.stored.Keys == Set(Uids(se.jobs.vec))
    && Set(se.claims) <= se.stored.Keys
    && (forall e :: e in se.jobs.vec ==> EntryOk(se, e))
  }

  ghost predicate EntryOk(se: Session, e: JobCtx) {
    && e.uid < se.jobs.nextUid
    && (e.used <==> e.uid in se.claims)
    && e.uid in se.stored && se.stored[e.uid] == e.data
  }

  function Without(s: seq<nat>, drop: set<nat>): seq<nat> {
    if s == [] then []
    else if s[0] in drop then Without(s[1..], drop)
    else [s[0]] + Without(s[1..], drop)
  }

  // Each uid once, in the order of its last update.
  function LastOrder(us: seq<nat>): seq<nat> {
    if us == [] then []
    else
      var n := |us| - 1;
      Without(LastOrder(us[..n]), {us[n]}) + [us[n]]
  }

  // Updated entries first, in last-update order, the others in arrival order.
  ghost predicate OrderOk(se: Session) {
    if se.studying then Uids(se.jobs.vec) == se.arrivals
    else
      && TwoParts(se.jobs.vec, |LastOrder(se.updates)|, se.jobs.nextSeq)
      && Uids(se.jobs.vec) == LastOrder(se.updates) + Without(se.arrivals, Set(se.updates))
      && Set(se.updates) <= Set(Uids(se.jobs.vec))
  }

  function Set(s: seq<nat>): set<nat> {
    set u | u in s
  }

  function Next(se: Session, ev: Event): Session
    requires Enabled(se, ev)
    requires ev.UpdateJob? ==> IndexOf(se.jobs.vec, ev.uid).Some?
  {
    match ev
    case LinkSpec(spec, parsed) =>
      var (jobs, uid) := Link(se.jobs, spec, parsed);
      if uid.None? then se.(jobs := jobs)
      else
        var fresh' := |jobs.vec| > |se.jobs.vec|;
        se.(jobs := jobs,
            claims := se.claims + [uid.value],
            arrivals := if fresh' then se.arrivals + [uid.value] else se.arrivals,
            stored := if fresh' then se.stored[uid.value := JobData(spec, None)] else se.stored)
    case UpdateJob(uid, data) =>
      se.(jobs := Update(se.jobs, uid, data, se.studying),
          updates := se.updates + [uid],
          stored := se.stored[uid := data])
  }

  lemma StartLinksOk(stored: seq<(JobData, bool)>, studying: bool)
    ensures LinksOk(Start(stored, studying))
  {
    var se := Start(stored, studying);
    forall e | e in se.jobs.vec ensures EntryOk(se, e) {
      var i :| 0 <= i < |se.jobs.vec| && se.jobs.vec[i] == e;
      assert Uids(se.jobs.vec)[i] == i + 1;
    }
  }

  lemma StartOk(stored: seq<(JobData, bool)>, studying: bool)
    ensures LinksOk(Start(stored, studying)) && OrderOk(Start(stored, studying))
  {
    hide LinksOk, Loaded, TwoParts, Uids;
    StartLinksOk(stored, studying);
    LoadedNotUpdated(stored);
    var se := Start(stored, studying);
    assert Set([]) == {};
    WithoutNothing(se.arrivals);
    assert [] + se.arrivals == se.arrivals;
  }

  lemma LoadedNotUpdated(stored: seq<(JobData, bool)>)
    ensures TwoParts(Loaded(stored, 1), 0, 1)
  {
  }

  // ---- Sequences of uids -------------------------------------------------------

  lemma {:induction false} WithoutNothing(s: seq<nat>)
    ensures Without(s, {}) == s
  {
    if s != [] {
      WithoutNothing(s[1..]);
    }
  }

  lemma {:induction false} WithoutIn(s: seq<nat>, drop: set<nat>)
    ensures forall x :: x in Without(s, drop) <==> x in s && x !in drop
  {
    if s != [] {
      WithoutIn(s[1..], drop);
    }
  }

  lemma {:induction false} WithoutAbsent(s: seq<nat>, drop: set<nat>)
    requires forall x :: x in s ==> x !in drop
    ensures Without(s, drop) == s
  {
    if s != [] {
      WithoutAbsent(s[1..], drop);
    }
  }

  lemma {:induction false} WithoutConcat(a: seq<nat>, b: seq<nat>, drop: set<nat>)
    ensures Without(a + b, drop) == Without(a, drop) + Without(b, drop)
  {
    if a == [] {
      assert a + b == b;
    } else {
      WithoutConcat(a[1..], b, drop);
      assert (a + b)[0] == a[0] && (a + b)[1..] == a[1..] + b;
      var rest := Without(a[1..], drop);
      assert [a[0]] + (rest + Without(b, drop)) == ([a[0]] + rest) + Without(b, drop);
    }
  }

  lemma {:induction false} WithoutTwice(s: seq<nat>, drop: set<nat>, more: set<nat>)
    ensures Without(Without(s, drop), more) == Without(s, drop + more)
  {
    if s != [] {
      WithoutTwice(s[1..], drop, more);
    }
  }

  lemma WithoutMiddle(p: seq<nat>, u: nat, q: seq<nat>)
    requires u !in p && u !in q
    ensures Without(p + [u] + q, {u}) == p + q
  {
    WithoutConcat(p + [u], q, {u});
    WithoutConcat(p, [u], {u});
    WithoutAbsent(p, {u});
    WithoutAbsent(q, {u});
    assert Without([u], {u}) == [] by {
      assert [u][0] == u && [u][1..] == [];
    }
    hide Without;
    assert p + [] == p;
  }

  lemma DistinctMiddle(p: seq<nat>, u: nat, q: seq<nat>)
    ensures Distinct(p + [u] + q) <==> Distinct(p + q) && u !in p + q
  {
    var all, rest := p + [u] + q, p + q;
    if Distinct(all) {
      forall i, j | 0 <= i < j < |rest| ensures rest[i] != rest[j] {
        assert rest[i] == all[if i < |p| then i else i + 1];
        assert rest[j] == all[if j < |p| then j else j + 1];
      }
      forall i | 0 <= i < |rest| ensures rest[i] != u {
        assert rest[i] == all[if i < |p| then i else i + 1];
        assert all[|p|] == u;
      }
    }
    if Distinct(rest) && u !in rest {
      forall i, j | 0 <= i < j < |all| ensures all[i] != all[j] {
        assert i != |p| ==> all[i] == rest[if i < |p| then i else i - 1];
        assert j != |p| ==> all[j] == rest[if j < |p| then j else j - 1];
      }
    }
  }

  lemma UidsMiddle(p: seq<JobCtx>, e: JobCtx, q: seq<JobCtx>)
    ensures Uids(p + [e] + q) == Uids(p) + [e.uid] + Uids(q)
    ensures Uids(p + q) == Uids(p) + Uids(q)
  {
  }

  // ---- What every step keeps -----------------------------------------------------

  lemma SplitAt(vec: seq<JobCtx>, i: nat)
    requires i < |vec|
    ensures vec == vec[..i] + [vec[i]] + vec[i + 1..]
  {
  }

  // In a list with distinct uids, the others have other uids.
  lemma OthersDiffer(p: seq<JobCtx>, e: JobCtx, q: seq<JobCtx>)
    requires Distinct(Uids(p + [e] + q))
    ensures forall x :: x in p + q ==> x.uid != e.uid
  {
    UidsMiddle(p, e, q);
    DistinctMiddle(Uids(p), e.uid, Uids(q));
    forall x | x in p + q ensures x.uid != e.uid {
      var j :| 0 <= j < |p + q| && (p + q)[j] == x;
      assert Uids(p + q)[j] == x.uid;
    }
  }

  // Claiming entry `i` keeps the uids and touches no other entry.
  lemma ClaimedList(vec: seq<JobCtx>, i: nat)
    requires i < |vec| && Distinct(Uids(vec))
    ensures var vec' := vec[i := Claimed(vec[i])];
            && Uids(vec') == Uids(vec)
            && vec[i].uid in Set(Uids(vec))
            && forall x :: x in vec' && x != Claimed(vec[i]) ==> x in vec && x.uid != vec[i].uid
  {
    var e, p, q := vec[i], vec[..i], vec[i + 1..];
    SplitAt(vec, i);
    OthersDiffer(p, e, q);
    hide Distinct;
    assert vec[i := Claimed(e)] == p + [Claimed(e)] + q;
    assert Uids(vec)[i] == e.uid;
  }

  lemma DistinctSnoc(s: seq<nat>, u: nat)
    requires Distinct(s) && u !in s
    ensures Distinct(s + [u]) && Set(s + [u]) == Set(s) + {u}
  {
    DistinctMiddle(s, u, []);
    assert s + [u] + [] == s + [u] && s + [] == s;
  }

  lemma ClaimKeepsLinks(se: Session, spec: Spec, inc: bool)
    requires LinksOk(se) && FirstMatch(se.jobs.vec, spec).Some?
    ensures LinksOk(Next(se, LinkSpec(spec, Some(inc))))
  {
    hide Distinct, Uids, Set;
    var i := FirstMatch(se.jobs.vec, spec).value;
    var e := se.jobs.vec[i];
    assert EntryOk(se, e);
    ClaimedList(se.jobs.vec, i);
    DistinctSnoc(se.claims, e.uid);
    var se' := Next(se, LinkSpec(spec, Some(inc)));
    forall x | x in se'.jobs.vec ensures EntryOk(se', x) {
      if x != Claimed(e) {
        assert EntryOk(se, x);
      }
    }
  }

  // The next uid is above every uid in use.
  lemma NextUidIsAbove(se: Session)
    requires LinksOk(se)
    ensures forall v :: v in Uids(se.jobs.vec) || v in se.claims || v in se.arrivals ==> v < se.jobs.nextUid
  {
    hide Distinct;
    forall v | v in Uids(se.jobs.vec) ensures v < se.jobs.nextUid {
      var j :| 0 <= j < |se.jobs.vec| && Uids(se.jobs.vec)[j] == v;
      assert EntryOk(se, se.jobs.vec[j]);
    }
    forall v | v in se.claims || v in se.arrivals ensures v < se.jobs.nextUid {
      assert v in Set(se.claims) || v in Set(se.arrivals);
      assert v in Set(Uids(se.jobs.vec));
    }
  }

  lemma PushKeepsLinks(se: Session, spec: Spec, inc: bool)
    requires LinksOk(se) && FirstMatch(se.jobs.vec, spec).None?
    ensures LinksOk(Next(se, LinkSpec(spec, Some(inc))))
  {
    hide Distinct, Set, FirstMatch;
    var se' := Next(se, LinkSpec(spec, Some(inc)));
    var u := se.jobs.nextUid;
    var e := se'.jobs.vec[|se.jobs.vec|];
    assert se'.jobs.vec == se.jobs.vec + [e] && e.uid == u;
    assert Uids(se'.jobs.vec) == Uids(se.jobs.vec) + [u];
    NextUidIsAbove(se);
    DistinctSnoc(Uids(se.jobs.vec), u);
    DistinctSnoc(se.claims, u);
    DistinctSnoc(se.arrivals, u);
    PushedEntries(se, se', e);
  }

  lemma PushedEntries(se: Session, se': Session, e: JobCtx)
    requires forall x :: x in se.jobs.vec ==> EntryOk(se, x)
    requires se'.jobs.vec == se.jobs.vec + [e] && e.uid == se.jobs.nextUid && e.used
    requires se'.jobs.nextUid == se.jobs.nextUid + 1 && se'.claims == se.claims + [e.uid]
    requires se'.stored == se.stored[e.uid := e.data]
    ensures forall x :: x in se'.jobs.vec ==> EntryOk(se', x)
  {
    forall x | x in se'.jobs.vec ensures EntryOk(se', x) {
      if x != e {
        assert EntryOk(se, x);
      }
    }
  }

  // The list after updating entry `i`: without it, up to `k`; then it; then the rest.
  function Placed(vec: seq<JobCtx>, i: nat, k: nat, e: JobCtx): seq<JobCtx>
    requires i < |vec| && k < |vec|
  {
    var rest := vec[..i] + vec[i + 1..];
    rest[..k] + [e] + rest[k..]
  }

  lemma PlacedUids(vec: seq<JobCtx>, i: nat, k: nat, e: JobCtx)
    requires i < |vec| && k < |vec| && e.uid == vec[i].uid
    requires Distinct(Uids(vec))
    ensures Distinct(Uids(Placed(vec, i, k, e)))
    ensures forall x :: x in Placed(vec, i, k, e) <==> x == e || x in vec[..i] + vec[i + 1..]
    ensures forall x :: x in vec[..i] + vec[i + 1..] ==> x in vec && x.uid != e.uid
    ensures Set(Uids(Placed(vec, i, k, e))) == Set(Uids(vec))
  {
    var p, q := vec[..i], vec[i + 1..];
    var rest := p + q;
    var a, b := rest[..k], rest[k..];
    SplitAt(vec, i);
    OthersDiffer(p, vec[i], q);
    UidsMiddle(p, vec[i], q);
    UidsMiddle(a, e, b);
    assert a + b == rest;
    DistinctMiddle(Uids(p), e.uid, Uids(q));
    DistinctMiddle(Uids(a), e.uid, Uids(b));
    assert Uids(vec) == Uids(p) + [e.uid] + Uids(q);
    SameElements(Uids(p), e.uid, Uids(q), Uids(a), Uids(b));
  }

  lemma SameElements(p: seq<nat>, u: nat, q: seq<nat>, a: seq<nat>, b: seq<nat>)
    requires p + q == a + b
    ensures Set(p + [u] + q) == Set(a + [u] + b)
  {
    assert forall x :: x in p + q <==> x in p || x in q;
    assert forall x :: x in a + b <==> x in a || x in b;
  }

  lemma UpdateKeepsLinks(se: Session, uid: nat, data: JobData, k: nat)
    requires LinksOk(se) && IndexOf(se.jobs.vec, uid).Some? && k < |se.jobs.vec|
    requires var i := IndexOf(se.jobs.vec, uid).value;
             Update(se.jobs, uid, data, se.studying).vec
             == Placed(se.jobs.vec, i, k, se.jobs.vec[i].(updateSeq := se.jobs.nextSeq, data := data))
    requires Enabled(se, UpdateJob(uid, data))
    ensures LinksOk(Next(se, UpdateJob(uid, data)))
  {
    hide Distinct, Uids, Placed, Set, SortedBySeq;
    var vec := se.jobs.vec;
    var i := IndexOf(vec, uid).value;
    var e := vec[i].(updateSeq := se.jobs.nextSeq, data := data);
    PlacedUids(vec, i, k, e);
    assert EntryOk(se, vec[i]);
    EntriesAfterUpdate(se, Next(se, UpdateJob(uid, data)), e, data);
    assert se.stored[uid := data].Keys == se.stored.Keys;
  }

  lemma EntriesAfterUpdate(se: Session, se': Session, e: JobCtx, data: JobData)
    requires forall x :: x in se.jobs.vec ==> EntryOk(se, x)
    requires forall x :: x in se'.jobs.vec ==> x == e || (x in se.jobs.vec && x.uid != e.uid)
    requires se'.jobs.nextUid == se.jobs.nextUid && se'.claims == se.claims
    requires se'.stored == se.stored[e.uid := data] && e.data == data
    requires e.uid < se.jobs.nextUid && (e.used <==> e.uid in se.claims)
    ensures forall x :: x in se'.jobs.vec ==> EntryOk(se', x)
  {
    forall x | x in se'.jobs.vec ensures EntryOk(se', x) {
      if x != e {
        assert EntryOk(se, x);
      }
    }
  }

  // A claimed uid names an entry, so an enabled update finds its entry.
  lemma UpdateFindsEntry(se: Session, ev: Event)
    requires LinksOk(se) && Enabled(se, ev) && ev.UpdateJob?
    ensures IndexOf(se.jobs.vec, ev.uid).Some?
  {
    assert ev.uid in Set(se.claims);
    assert ev.uid in Uids(se.jobs.vec);
    var j :| 0 <= j < |se.jobs.vec| && Uids(se.jobs.vec)[j] == ev.uid;
  }

  lemma PlacedInPlace(vec: seq<JobCtx>, i: nat, e: JobCtx)
    requires i < |vec|
    ensures Placed(vec, i, i, e) == vec[i := e]
  {
    var rest := vec[..i] + vec[i + 1..];
    assert rest[..i] == vec[..i] && rest[i..] == vec[i + 1..];
  }

  // The updated entries come first, in order of their sequences, all below `n`.
  ghost predicate TwoParts(vec: seq<JobCtx>, d: nat, n: nat) {
    && d <= |vec| && n <= NOT_UPDATED
    && (forall i :: 0 <= i < d ==> vec[i].updateSeq < n)
    && (forall i, j :: 0 <= i < j < d ==> vec[i].updateSeq < vec[j].updateSeq)
    && (forall i :: d <= i < |vec| ==> vec[i].updateSeq == NOT_UPDATED)
  }

  lemma DropKeepsParts(vec: seq<JobCtx>, d: nat, n: nat, i: nat)
    requires i < |vec| && TwoParts(vec, d, n)
    ensures TwoParts(vec[..i] + vec[i + 1..], if i < d then d - 1 else d, n)
  {
  }

  lemma InsertKeepsParts(rest: seq<JobCtx>, k: nat, n: nat, e: JobCtx)
    requires TwoParts(rest, k, n) && n < NOT_UPDATED && e.updateSeq == n
    ensures TwoParts(rest[..k] + [e] + rest[k..], k + 1, n + 1)
    ensures Ascending(rest[..k] + [e] + rest[k..])
  {
  }

  lemma OthersNotAt(rest: seq<JobCtx>, k: nat, n: nat)
    requires TwoParts(rest, k, n) && n < NOT_UPDATED
    ensures forall x: JobCtx :: x in rest ==> x.updateSeq != n
  {
    forall x: JobCtx | x in rest ensures x.updateSeq != n {
      var j :| 0 <= j < |rest| && rest[j] == x;
    }
  }

  // Where sorting puts an entry with the newest sequence: after the updated ones.
  lemma SortPlaces(vec: seq<JobCtx>, i: nat, d: nat, n: nat, e: JobCtx) returns (k: nat)
    requires i < |vec| && TwoParts(vec, d, n) && n < NOT_UPDATED && e.updateSeq == n
    ensures k == (if i < d then d - 1 else d) && k < |vec|
    ensures SortedBySeq(vec[i := e]) == Placed(vec, i, k, e)
    ensures TwoParts(Placed(vec, i, k, e), k + 1, n + 1)
  {
    k := if i < d then d - 1 else d;
    var p, q := vec[..i], vec[i + 1..];
    var rest := p + q;
    DropKeepsParts(vec, d, n, i);
    InsertKeepsParts(rest, k, n, e);
    OthersNotAt(rest, k, n);
    assert k < |vec| && k <= |rest|;
    hide TwoParts, SortedBySeq, Ascending;
    assert p + q == rest[..k] + rest[k..];
    SortMovesOne(p, e, q, rest[..k], rest[k..]);
    assert vec[i := e] == p + [e] + q;
  }

  lemma UpdatePlaces(s: Jobs, uid: nat, data: JobData, d: nat) returns (k: nat)
    requires TwoParts(s.vec, d, s.nextSeq) && s.nextSeq < NOT_UPDATED
    requires IndexOf(s.vec, uid).Some?
    ensures var i := IndexOf(s.vec, uid).value;
            var vec := Update(s, uid, data, false).vec;
            && k == (if i < d then d - 1 else d) && k < |s.vec|
            && vec == Placed(s.vec, i, k, s.vec[i].(updateSeq := s.nextSeq, data := data))
            && TwoParts(vec, k + 1, s.nextSeq + 1)
  {
    hide TwoParts, SortedBySeq, Placed;
    var i := IndexOf(s.vec, uid).value;
    k := SortPlaces(s.vec, i, d, s.nextSeq, s.vec[i].(updateSeq := s.nextSeq, data := data));
  }

  lemma UpdateKeepsLinksAnywhere(se: Session, ev: Event)
    requires LinksOk(se) && OrderOk(se) && Enabled(se, ev) && ev.UpdateJob?
    ensures IndexOf(se.jobs.vec, ev.uid).Some? && LinksOk(Next(se, ev))
  {
    UpdateFindsEntry(se, ev);
    var vec := se.jobs.vec;
    var i := IndexOf(vec, ev.uid).value;
    var k := i;
    if se.studying {
      PlacedInPlace(vec, i, vec[i].(updateSeq := se.jobs.nextSeq, data := ev.data));
    } else {
      k := UpdatePlaces(se.jobs, ev.uid, ev.data, |LastOrder(se.updates)|);
    }
    UpdateKeepsLinks(se, ev.uid, ev.data, k);
  }

  lemma PlacedUidsAre(vec: seq<JobCtx>, i: nat, k: nat, e: JobCtx)
    requires i < |vec| && k < |vec|
    ensures var us := Uids(vec)[..i] + Uids(vec)[i + 1..];
            Uids(Placed(vec, i, k, e)) == us[..k] + [e.uid] + us[k..]
  {
    var rest := vec[..i] + vec[i + 1..];
    UidsMiddle(rest[..k], e, rest[k..]);
    assert Uids(rest) == Uids(vec)[..i] + Uids(vec)[i + 1..];
  }

  lemma CutOut(us: seq<nat>, p: seq<nat>, u: nat, q: seq<nat>)
    requires us == p + [u] + q
    ensures us[..|p|] + us[|p| + 1..] == p + q && us[|p|] == u
  {
  }

  lemma SplitConcat(a: seq<nat>, b: seq<nat>)
    ensures (a + b)[..|a|] == a && (a + b)[|a|..] == b
  {
  }

  // Moving one uid behind the updated ones: it leaves its part and ends the first.
  ghost predicate Moves(us: seq<nat>, i: nat, k: nat, first: seq<nat>, others: seq<nat>)
    requires i < |us| && k < |us|
  {
    var rest := us[..i] + us[i + 1..];
    rest[..k] + [us[i]] + rest[k..] == first + [us[i]] + others && k == |first|
  }

  lemma MoveWithin(p: seq<nat>, u: nat, q: seq<nat>, others: seq<nat>)
    ensures Moves(p + [u] + q + others, |p|, |p + q|, p + q, others)
  {
    var us := p + [u] + q + others;
    assert us == p + [u] + (q + others);
    CutOut(us, p, u, q + others);
    assert p + (q + others) == (p + q) + others;
    SplitConcat(p + q, others);
  }

  lemma MoveAcross(first: seq<nat>, p: seq<nat>, u: nat, q: seq<nat>)
    ensures Moves(first + (p + [u] + q), |first + p|, |first|, first, p + q)
  {
    var us := first + (p + [u] + q);
    assert us == (first + p) + [u] + q;
    CutOut(us, first + p, u, q);
    assert (first + p) + q == first + (p + q);
    SplitConcat(first, p + q);
  }

  // In a list without repetition, dropping `u` drops this one.
  lemma DropUid(before: seq<nat>, p: seq<nat>, u: nat, q: seq<nat>, after: seq<nat>)
    requires Distinct(before + (p + [u] + q) + after)
    ensures Without(p + [u] + q, {u}) == p + q
    ensures Without(before, {u}) == before
    ensures Without(after, {u}) == after
  {
    assert before + (p + [u] + q) + after == (before + p) + [u] + (q + after);
    DistinctMiddle(before + p, u, q + after);
    hide Distinct, Without;
    assert forall x :: x in p || x in q || x in before || x in after ==> x in (before + p) + (q + after);
    WithoutMiddle(p, u, q);
    WithoutAbsent(before, {u});
    WithoutAbsent(after, {u});
  }

  lemma MoveUidWithin(first: seq<nat>, others: seq<nat>, i: nat)
    requires i < |first| && Distinct(first + others)
    ensures Moves(first + others, i, |first| - 1, Without(first, {first[i]}), Without(others, {first[i]}))
  {
    hide *;
    var p, u, q := first[..i], first[i], first[i + 1..];
    assert first == p + [u] + q;
    assert [] + (p + [u] + q) + others == first + others;
    DropUid([], p, u, q, others);
    MoveWithin(p, u, q, others);
    assert |p + q| == |first| - 1;
  }

  lemma MoveUidAcross(first: seq<nat>, others: seq<nat>, j: nat)
    requires j < |others| && Distinct(first + others)
    ensures Moves(first + others, |first| + j, |first|, Without(first, {others[j]}), Without(others, {others[j]}))
  {
    hide *;
    var p, u, q := others[..j], others[j], others[j + 1..];
    assert others == p + [u] + q;
    assert first + (p + [u] + q) + [] == first + others;
    DropUid(first, p, u, q, []);
    MoveAcross(first, p, u, q);
  }

  lemma MoveUid(first: seq<nat>, others: seq<nat>, i: nat)
    requires i < |first| + |others| && Distinct(first + others)
    ensures Moves(first + others, i, if i < |first| then |first| - 1 else |first|,
                  Without(first, {(first + others)[i]}), Without(others, {(first + others)[i]}))
  {
    hide *;
    if i < |first| {
      MoveUidWithin(first, others, i);
    } else {
      MoveUidAcross(first, others, i - |first|);
    }
  }

  lemma ClaimKeepsOrder(se: Session, spec: Spec, inc: bool)
    requires OrderOk(se) && FirstMatch(se.jobs.vec, spec).Some?
    ensures OrderOk(Next(se, LinkSpec(spec, Some(inc))))
  {
    var se' := Next(se, LinkSpec(spec, Some(inc)));
    assert Uids(se'.jobs.vec) == Uids(se.jobs.vec);
  }

  lemma NextUidIsNew(se: Session)
    requires LinksOk(se)
    ensures se.jobs.nextUid !in Set(Uids(se.jobs.vec))
  {
    forall j | 0 <= j < |se.jobs.vec| ensures Uids(se.jobs.vec)[j] != se.jobs.nextUid {
      assert EntryOk(se, se.jobs.vec[j]);
    }
  }

  lemma PushedOrder(se: Session, u: nat)
    requires OrderOk(se) && !se.studying && u !in Set(Uids(se.jobs.vec))
    ensures Uids(se.jobs.vec) + [u] == LastOrder(se.updates) + Without(se.arrivals + [u], Set(se.updates))
    ensures Set(se.updates) <= Set(Uids(se.jobs.vec) + [u])
  {
    var drop := Set(se.updates);
    WithoutConcat(se.arrivals, [u], drop);
    WithoutAbsent([u], drop);
    hide Without, LastOrder, TwoParts;
    forall v | v in drop ensures v in Set(Uids(se.jobs.vec) + [u]) {
      assert v in Set(Uids(se.jobs.vec));
    }
  }

  lemma PushKeepsOrder(se: Session, spec: Spec, inc: bool)
    requires LinksOk(se) && OrderOk(se) && FirstMatch(se.jobs.vec, spec).None?
    ensures OrderOk(Next(se, LinkSpec(spec, Some(inc))))
  {
    var se' := Next(se, LinkSpec(spec, Some(inc)));
    var u := se.jobs.nextUid;
    NextUidIsNew(se);
    hide LinksOk, FirstMatch;
    assert Uids(se'.jobs.vec) == Uids(se.jobs.vec) + [u];
    if !se.studying {
      PushedOrder(se, u);
      hide Without, LastOrder, Uids, Set;
      assert TwoParts(se'.jobs.vec, |LastOrder(se.updates)|, se.jobs.nextSeq);
    }
  }

  lemma LastOrderSnoc(us: seq<nat>, u: nat)
    ensures LastOrder(us + [u]) == Without(LastOrder(us), {u}) + [u]
    ensures Set(us + [u]) == Set(us) + {u}
  {
    assert (us + [u])[..|us|] == us;
  }

  // The uids after an update, in the non-studying modes.
  lemma UpdateMovesUid(s: Jobs, uid: nat, data: JobData, first: seq<nat>, others: seq<nat>) returns (k: nat)
    requires Distinct(Uids(s.vec)) && Uids(s.vec) == first + others
    requires TwoParts(s.vec, |first|, s.nextSeq) && s.nextSeq < NOT_UPDATED
    requires IndexOf(s.vec, uid).Some?
    ensures var vec := Update(s, uid, data, false).vec;
            && Uids(vec) == Without(first, {uid}) + [uid] + Without(others, {uid})
            && Set(Uids(vec)) == Set(Uids(s.vec))
            && TwoParts(vec, k + 1, s.nextSeq + 1)
            && k == |Without(first, {uid})|
  {
    hide TwoParts, Without, Distinct, Placed, SortedBySeq;
    var i := IndexOf(s.vec, uid).value;
    k := UpdatePlaces(s, uid, data, |first|);
    var e := s.vec[i].(updateSeq := s.nextSeq, data := data);
    PlacedUidsAre(s.vec, i, k, e);
    PlacedUids(s.vec, i, k, e);
    MoveUid(first, others, i);
    assert Uids(s.vec)[i] == uid;
  }

  // The order of the list is the one the longer update list asks for.
  lemma OrderAfterUpdate(se: Session, se': Session, u: nat)
    requires OrderOk(se) && !se.studying && !se'.studying
    requires se'.updates == se.updates + [u] && se'.arrivals == se.arrivals
    requires u in Set(Uids(se.jobs.vec))
    requires Uids(se'.jobs.vec) == Without(LastOrder(se.updates), {u}) + [u]
                                   + Without(Without(se.arrivals, Set(se.updates)), {u})
    requires Set(Uids(se'.jobs.vec)) == Set(Uids(se.jobs.vec))
    requires TwoParts(se'.jobs.vec, |Without(LastOrder(se.updates), {u})| + 1, se'.jobs.nextSeq)
    ensures OrderOk(se')
  {
    WithoutTwice(se.arrivals, Set(se.updates), {u});
    LastOrderSnoc(se.updates, u);
    hide Without, LastOrder, Uids, TwoParts;
  }

  lemma FoundUid(vec: seq<JobCtx>, uid: nat)
    requires IndexOf(vec, uid).Some?
    ensures uid in Set(Uids(vec))
  {
    assert Uids(vec)[IndexOf(vec, uid).value] == uid;
  }

  lemma UpdateKeepsPlace(se: Session, uid: nat, data: JobData)
    requires OrderOk(se) && Enabled(se, UpdateJob(uid, data)) && se.studying
    requires IndexOf(se.jobs.vec, uid).Some?
    ensures OrderOk(Next(se, UpdateJob(uid, data)))
  {
    var vec := se.jobs.vec;
    var i := IndexOf(vec, uid).value;
    var e := vec[i].(updateSeq := se.jobs.nextSeq, data := data);
    assert Uids(vec[i := e]) == Uids(vec);
  }

  lemma UpdateReorders(se: Session, uid: nat, data: JobData)
    requires Distinct(Uids(se.jobs.vec))
    requires OrderOk(se) && Enabled(se, UpdateJob(uid, data)) && !se.studying
    requires IndexOf(se.jobs.vec, uid).Some?
    ensures OrderOk(Next(se, UpdateJob(uid, data)))
  {
    hide TwoParts, SortedBySeq, Without, LastOrder, Distinct, Uids, Set;
    var se' := Next(se, UpdateJob(uid, data));
    FoundUid(se.jobs.vec, uid);
    var k := UpdateMovesUid(se.jobs, uid, data, LastOrder(se.updates), Without(se.arrivals, Set(se.updates)));
    OrderAfterUpdate(se, se', uid);
  }

  lemma UpdateKeepsOrder(se: Session, ev: Event)
    requires LinksOk(se) && OrderOk(se) && Enabled(se, ev) && ev.UpdateJob?
    requires IndexOf(se.jobs.vec, ev.uid).Some?
    ensures OrderOk(Next(se, ev))
  {
    assert Distinct(Uids(se.jobs.vec));
    hide *;
    if se.studying {
      UpdateKeepsPlace(se, ev.uid, ev.data);
    } else {
      UpdateReorders(se, ev.uid, ev.data);
    }
  }

  // ---- Main results --------------------------------------------------------------

  // The session after a list of events, None where one could not happen.
  function After(se: Session, evs: seq<Event>): Option<Session> {
    if evs == [] then Some(se)
    else
      var n := |evs| - 1;
      var before := After(se, evs[..n]);
      if before.Some? && Enabled(before.value, evs[n])
         && (evs[n].UpdateJob? ==> IndexOf(before.value.jobs.vec, evs[n].uid).Some?)
      then Some(Next(before.value, evs[n]))
      else None
  }

  lemma StepOk(se: Session, ev: Event)
    requires LinksOk(se) && OrderOk(se) && Enabled(se, ev)
    ensures ev.UpdateJob? ==> IndexOf(se.jobs.vec, ev.uid).Some?
    ensures LinksOk(Next(se, ev)) && OrderOk(Next(se, ev))
  {
    hide LinksOk, OrderOk;
    match ev {
      case LinkSpec(spec, parsed) =>
        if parsed.None? {
          assert Next(se, ev) == se;
        } else if FirstMatch(se.jobs.vec, spec).Some? {
          ClaimKeepsLinks(se, spec, parsed.value);
          ClaimKeepsOrder(se, spec, parsed.value);
        } else {
          PushKeepsLinks(se, spec, parsed.value);
          PushKeepsOrder(se, spec, parsed.value);
        }
      case UpdateJob(_, _) =>
        UpdateKeepsLinksAnywhere(se, ev);
        UpdateKeepsOrder(se, ev);
    }
  }

  lemma {:induction false} SessionOk(stored: seq<(JobData, bool)>, studying: bool, evs: seq<Event>)
    ensures var r := After(Start(stored, studying), evs);
            r.Some? ==> LinksOk(r.value) && OrderOk(r.value) && r.value.studying == studying
  {
    hide LinksOk, OrderOk;
    if evs == [] {
      StartOk(stored, studying);
    } else {
      var n := |evs| - 1;
      SessionOk(stored, studying, evs[..n]);
      var before := After(Start(stored, studying), evs[..n]);
      if before.Some? && Enabled(before.value, evs[n]) {
        StepOk(before.value, evs[n]);
      }
    }
  }

  // The uids handed out are pairwise distinct; each is on exactly one stored
  // entry, which is marked used, and no other entry is marked.
  lemma LinkingIsInjective(stored: seq<(JobData, bool)>, studying: bool, evs: seq<Event>, se: Session)
    requires After(Start(stored, studying), evs) == Some(se)
    ensures Distinct(se.claims)
    ensures forall i, j :: 0 <= i < j < |se.jobs.vec| ==> se.jobs.vec[i].uid != se.jobs.vec[j].uid
    ensures forall e :: e in se.jobs.vec ==> (e.used <==> e.uid in se.claims)
    ensures forall u :: u in se.claims ==> exists e :: e in se.jobs.vec && e.uid == u
  {
    SessionOk(stored, studying, evs);
    hide OrderOk, After;
    forall e | e in se.jobs.vec ensures e.used <==> e.uid in se.claims {
      assert EntryOk(se, e);
    }
    var us := Uids(se.jobs.vec);
    forall i, j | 0 <= i < j < |se.jobs.vec| ensures se.jobs.vec[i].uid != se.jobs.vec[j].uid {
      assert us[i] != us[j];
    }
    forall u | u in se.claims ensures exists e :: e in se.jobs.vec && e.uid == u {
      assert u in Set(se.claims) && u in Set(us);
      var j :| 0 <= j < |us| && us[j] == u;
      assert se.jobs.vec[j] in se.jobs.vec && se.jobs.vec[j].uid == u;
    }
  }

  // No result is lost or attributed to another job: every entry keeps the data
  // last stored under its uid, whatever was sorted in between, and the list is a
  // permutation of everything that ever entered it.
  lemma NoResultIsLost(stored: seq<(JobData, bool)>, studying: bool, evs: seq<Event>, se: Session)
    requires After(Start(stored, studying), evs) == Some(se)
    ensures forall e :: e in se.jobs.vec ==> e.uid in se.stored && se.stored[e.uid] == e.data
    ensures Set(Uids(se.jobs.vec)) == Set(se.arrivals) == se.stored.Keys
    ensures Distinct(Uids(se.jobs.vec)) && Distinct(se.arrivals)
  {
    SessionOk(stored, studying, evs);
    hide OrderOk, After;
    forall e | e in se.jobs.vec ensures e.uid in se.stored && se.stored[e.uid] == e.data {
      assert EntryOk(se, e);
    }
  }

  // Runs keep the updated entries first in last-update order and the others in
  // arrival order; study and solve modes never reorder.
  lemma ListOrder(stored: seq<(JobData, bool)>, studying: bool, evs: seq<Event>, se: Session)
    requires After(Start(stored, studying), evs) == Some(se)
    ensures studying ==> Uids(se.jobs.vec) == se.arrivals
    ensures !studying ==> Uids(se.jobs.vec) == LastOrder(se.updates) + Without(se.arrivals, Set(se.updates))
  {
    SessionOk(stored, studying, evs);
    hide LinksOk, After;
  }

  // The position of the last `u`, counted from one.
  function LastAt(us: seq<nat>, u: nat): (r: nat)
    ensures r <= |us| && (r > 0 ==> us[r - 1] == u)
    ensures forall i :: r <= i < |us| ==> us[i] != u
  {
    if us == [] then 0
    else if us[|us| - 1] == u then |us|
    else LastAt(us[..|us| - 1], u)
  }

  // Listed in the order of their last occurrence in `us`.
  ghost predicate ByLast(us: seq<nat>, s: seq<nat>) {
    forall i, j :: 0 <= i < j < |s| ==> LastAt(us, s[i]) < LastAt(us, s[j])
  }

  // What LastOrder means: every uid that occurs, once, by its last occurrence.
  lemma {:induction false} LastOrderMeans(us: seq<nat>)
    ensures Distinct(LastOrder(us)) && Set(LastOrder(us)) == Set(us)
    ensures ByLast(us, LastOrder(us))
  {
    if us != [] {
      var n := |us| - 1;
      var before, u := us[..n], us[n];
      LastOrderMeans(before);
      var kept := Without(LastOrder(before), {u});
      var all := LastOrder(us);
      assert all == kept + [u];
      WithoutIn(LastOrder(before), {u});
      WithoutKeepsLast(before, LastOrder(before), {u});
      hide Without, LastOrder;
      forall i, j | 0 <= i < j < |all| ensures LastAt(us, all[i]) < LastAt(us, all[j]) {
        assert all[i] == kept[i] && kept[i] in kept;
        if j < |kept| {
          assert all[j] == kept[j] && kept[j] in kept;
        }
      }
      assert us == before + [u];
      SameMembers(us, all, before, LastOrder(before), kept, u);
    }
  }

  lemma SameMembers(us: seq<nat>, all: seq<nat>, before: seq<nat>, was: seq<nat>, kept: seq<nat>, u: nat)
    requires us == before + [u] && all == kept + [u]
    requires Set(was) == Set(before) && (forall x :: x in kept <==> x in was && x != u)
    ensures Set(all) == Set(us)
  {
    forall x ensures x in Set(all) <==> x in Set(us) {
      assert x in Set(was) <==> x in Set(before);
    }
  }

  // Dropping elements keeps the order of the others.
  lemma {:induction false} WithoutKeepsLast(us: seq<nat>, s: seq<nat>, drop: set<nat>)
    requires ByLast(us, s)
    ensures ByLast(us, Without(s, drop))
  {
    if s != [] {
      var rest := Without(s[1..], drop);
      WithoutKeepsLast(us, s[1..], drop);
      WithoutIn(s[1..], drop);
      forall j | 0 <= j < |rest| ensures LastAt(us, s[0]) < LastAt(us, rest[j]) {
        assert rest[j] in rest;
        var k :| 0 <= k < |s[1..]| && s[1..][k] == rest[j];
        assert s[k + 1] == rest[j];
      }
    }
  }

  // ---- Resuming ------------------------------------------------------------------

  // Whether a stored result of spec `a` serves spec `b`; `incremental` says which
  // benchmark kinds continue from an incomplete result.
  predicate Serves(a: Spec, b: Spec, incremental: string -> bool) {
    && a.kind == b.kind && a.id == b.id
    && (incremental(a.kind) || Compatible(a, b))
  }

  function Supply(vec: seq<JobCtx>, spec: Spec): nat {
    if vec == [] then 0
    else Supply(vec[..|vec| - 1], spec) + if Matches(vec[|vec| - 1], spec) then 1 else 0
  }

  function Demand(specs: seq<Spec>, spec: Spec, incremental: string -> bool): nat {
    if specs == [] then 0
    else Demand(specs[1..], spec, incremental) + if Serves(specs[0], spec, incremental) then 1 else 0
  }

  ghost predicate KindsOk(vec: seq<JobCtx>, incremental: string -> bool) {
    forall e :: e in vec ==> e.incremental == incremental(e.data.spec.kind)
  }

  // Linking a list of specs none of which fails to parse.
  function LinkAll(s: Jobs, specs: seq<Spec>, incremental: string -> bool): Jobs
    decreases |specs|
  {
    if specs == [] then s
    else LinkAll(Link(s, specs[0], Some(incremental(specs[0].kind))).0, specs[1..], incremental)
  }

  lemma {:induction false} SupplyConcat(a: seq<JobCtx>, b: seq<JobCtx>, spec: Spec)
    ensures Supply(a + b, spec) == Supply(a, spec) + Supply(b, spec)
  {
    if b == [] {
      assert a + b == a;
    } else {
      var n := |b| - 1;
      SupplyConcat(a, b[..n], spec);
      assert (a + b)[..|a + b| - 1] == a + b[..n];
    }
  }

  lemma {:induction false} SupplyNone(vec: seq<JobCtx>, spec: Spec)
    ensures Supply(vec, spec) == 0 <==> FirstMatch(vec, spec).None?
    ensures Supply(vec, spec) > 0 <==> exists i :: 0 <= i < |vec| && Matches(vec[i], spec)
  {
    if vec != [] {
      var n := |vec| - 1;
      SupplyNone(vec[..n], spec);
      if i: nat :| i < n && Matches(vec[..n][i], spec) {
        assert Matches(vec[i], spec);
      }
    }
  }

  // Claiming an entry takes one from the supply of exactly the specs it serves.
  lemma ClaimTakesOne(s: Jobs, spec: Spec, other: Spec, incremental: string -> bool)
    requires KindsOk(s.vec, incremental) && FirstMatch(s.vec, spec).Some?
    ensures var s' := Link(s, spec, Some(incremental(spec.kind))).0;
            && KindsOk(s'.vec, incremental)
            && |s'.vec| == |s.vec|
            && Supply(s.vec, other) == Supply(s'.vec, other) + if Serves(spec, other, incremental) then 1 else 0
  {
    var i := FirstMatch(s.vec, spec).value;
    var e := s.vec[i];
    var p, q := s.vec[..i], s.vec[i + 1..];
    SplitAt(s.vec, i);
    var s' := Link(s, spec, Some(incremental(spec.kind))).0;
    assert s'.vec == p + [Claimed(e)] + q;
    SupplyConcat(p + [e], q, other);
    SupplyConcat(p, [e], other);
    SupplyConcat(p + [Claimed(e)], q, other);
    SupplyConcat(p, [Claimed(e)], other);
    assert Supply([], other) == 0;
    assert [e][..0] == [] && [Claimed(e)][..0] == [];
    assert Matches(e, other) <==> Serves(spec, other, incremental);
  }

  lemma {:induction false} LinkingOnlyGrows(s: Jobs, specs: seq<Spec>, incremental: string -> bool)
    ensures |LinkAll(s, specs, incremental).vec| >= |s.vec|
    decreases |specs|
  {
    if specs != [] {
      LinkingOnlyGrows(Link(s, specs[0], Some(incremental(specs[0].kind))).0, specs[1..], incremental);
    }
  }

  ghost predicate Enough(vec: seq<JobCtx>, specs: seq<Spec>, incremental: string -> bool) {
    forall q: Spec :: Demand(specs, q, incremental) <= Supply(vec, q)
  }

  // One link preserves whether there are enough results for the remaining specs.
  lemma EnoughAfterLink(s: Jobs, specs: seq<Spec>, incremental: string -> bool)
    requires KindsOk(s.vec, incremental) && specs != [] && FirstMatch(s.vec, specs[0]).Some?
    ensures var s' := Link(s, specs[0], Some(incremental(specs[0].kind))).0;
            Enough(s.vec, specs, incremental) <==> Enough(s'.vec, specs[1..], incremental)
  {
    var s' := Link(s, specs[0], Some(incremental(specs[0].kind))).0;
    hide Link, Supply, Serves, KindsOk, FirstMatch;
    forall q: Spec
      ensures Demand(specs, q, incremental) <= Supply(s.vec, q)
              <==> Demand(specs[1..], q, incremental) <= Supply(s'.vec, q)
    {
      ClaimTakesOne(s, specs[0], q, incremental);
    }
  }

  lemma FirstNeedsOne(s: Jobs, specs: seq<Spec>, incremental: string -> bool)
    requires specs != [] && FirstMatch(s.vec, specs[0]).None?
    ensures !Enough(s.vec, specs, incremental)
  {
    SupplyNone(s.vec, specs[0]);
    assert Demand(specs, specs[0], incremental) > 0;
  }

  // Loaded results carry the flags of their kinds when the parsers say so, and
  // linking keeps it that way.
  lemma LoadedKindsOk(stored: seq<(JobData, bool)>, nextUid: nat, incremental: string -> bool)
    requires forall i :: 0 <= i < |stored| ==> stored[i].1 == incremental(stored[i].0.spec.kind)
    ensures KindsOk(Loaded(stored, nextUid), incremental)
    ensures forall i :: 0 <= i < |stored| ==> Loaded(stored, nextUid)[i].data == stored[i].0
    ensures forall e :: e in Loaded(stored, nextUid) ==> !e.used
  {
  }

  lemma LinkKeepsKinds(s: Jobs, spec: Spec, incremental: string -> bool)
    requires KindsOk(s.vec, incremental)
    ensures KindsOk(Link(s, spec, Some(incremental(spec.kind))).0.vec, incremental)
  {
    var prev := FirstMatch(s.vec, spec);
    if prev.Some? {
      var i := prev.value;
      SplitAt(s.vec, i);
      assert s.vec[i] in s.vec;
      var s' := Link(s, spec, Some(incremental(spec.kind))).0;
      assert s'.vec == s.vec[..i] + [Claimed(s.vec[i])] + s.vec[i + 1..];
    }
  }

  // A list of specs is served by stored results alone, adding no entry, exactly
  // when there are enough unused results for every spec.
  lemma {:induction false} ResumeIff(s: Jobs, specs: seq<Spec>, incremental: string -> bool)
    requires KindsOk(s.vec, incremental)
    ensures |LinkAll(s, specs, incremental).vec| == |s.vec| <==> Enough(s.vec, specs, incremental)
    decreases |specs|
  {
    if specs != [] {
      hide Enough, Matches, Supply, Demand, KindsOk;
      var s' := Link(s, specs[0], Some(incremental(specs[0].kind))).0;
      if FirstMatch(s.vec, specs[0]).None? {
        FirstNeedsOne(s, specs, incremental);
        LinkingOnlyGrows(s', specs[1..], incremental);
      } else {
        EnoughAfterLink(s, specs, incremental);
        ClaimTakesOne(s, specs[0], specs[0], incremental);
        ResumeIff(s', specs[1..], incremental);
      }
    }
  }

  function Specs(vec: seq<JobCtx>): (r: seq<Spec>)
    ensures |r| == |vec|
  {
    seq(|vec|, i requires 0 <= i < |vec| => vec[i].data.spec)
  }

  lemma {:induction false} DemandIsSupply(vec: seq<JobCtx>, q: Spec, incremental: string -> bool)
    requires KindsOk(vec, incremental) && forall e :: e in vec ==> !e.used
    ensures Demand(Specs(vec), q, incremental) == Supply(vec, q)
  {
    if vec != [] {
      assert Specs(vec)[1..] == Specs(vec[1..]);
      DemandIsSupply(vec[1..], q, incremental);
      assert vec == [vec[0]] + vec[1..];
      SupplyConcat([vec[0]], vec[1..], q);
      assert [vec[0]][..0] == [] && Supply([], q) == 0;
      assert vec[0] in vec;
    }
  }

  // Linking the specs of freshly loaded results again finds all of them.
  lemma RerunAddsNothing(s: Jobs, incremental: string -> bool)
    requires KindsOk(s.vec, incremental) && forall e :: e in s.vec ==> !e.used
    ensures |LinkAll(s, Specs(s.vec), incremental).vec| == |s.vec|
  {
    ResumeIff(s, Specs(s.vec), incremental);
    forall q: Spec ensures Demand(Specs(s.vec), q, incremental) <= Supply(s.vec, q) {
      DemandIsSupply(s.vec, q, incremental);
    }
  }
}
