// Packing the report periods of all jobs (resctl-bench/src/main.rs, do_pack;
// rd-agent-intf/src/report.rs, ReportPathIter).
//
// A period is a half-open range of seconds; `present` is the set of seconds a
// report file exists for.
module Packing {
  import opened Wrappers

  datatype Period = Period(start: nat, end: nat)

  predicate NonEmpty(p: Period) {
    p.start < p.end
  }

  // The order of the period pairs.
  predicate Leq(a: Period, b: Period) {
    a.start < b.start || (a.start == b.start && a.end <= b.end)
  }

  ghost predicate Sorted(ps: seq<Period>) {
    forall i, j :: 0 <= i < j < |ps| ==> Leq(ps[i], ps[j])
  }

  ghost predicate Covers(ps: seq<Period>, t: nat) {
    exists p :: p in ps && p.start <= t < p.end
  }

  // Non-empty, in order, and with a gap between any two.
  ghost predicate Canonical(ps: seq<Period>) {
    && (forall i :: 0 <= i < |ps| ==> NonEmpty(ps[i]))
    && (forall i, j :: 0 <= i < j < |ps| ==> ps[i].end < ps[j].start)
  }

  // ---- Sorting -----------------------------------------------------------------

  function Inserted(p: Period, ps: seq<Period>): seq<Period> {
    if ps == [] then [p]
    else if Leq(p, ps[0]) then [p] + ps
    else [ps[0]] + Inserted(p, ps[1..])
  }

  function SortedPeriods(ps: seq<Period>): seq<Period> {
    if ps == [] then [] else Inserted(ps[0], SortedPeriods(ps[1..]))
  }

  lemma {:induction false} InsertedSame(p: Period, ps: seq<Period>)
    ensures multiset(Inserted(p, ps)) == multiset{p} + multiset(ps)
    ensures forall x :: x in Inserted(p, ps) <==> x == p || x in ps
  {
    if ps != [] {
      assert ps == [ps[0]] + ps[1..];
      InsertedSame(p, ps[1..]);
    }
  }

  lemma {:induction false} InsertedSorted(p: Period, ps: seq<Period>)
    requires Sorted(ps)
    ensures Sorted(Inserted(p, ps))
  {
    if ps != [] && !Leq(p, ps[0]) {
      InsertedSorted(p, ps[1..]);
      InsertedSame(p, ps[1..]);
      var rest := Inserted(p, ps[1..]);
      forall k | 0 <= k < |rest| ensures Leq(ps[0], rest[k]) {
        assert rest[k] in rest;
      }
    }
  }

  lemma {:induction false} SortedPeriodsFacts(ps: seq<Period>)
    ensures Sorted(SortedPeriods(ps))
    ensures multiset(SortedPeriods(ps)) == multiset(ps)
  {
    if ps != [] {
      SortedPeriodsFacts(ps[1..]);
      InsertedSame(ps[0], SortedPeriods(ps[1..]));
      InsertedSorted(ps[0], SortedPeriods(ps[1..]));
      assert ps == [ps[0]] + ps[1..];
    }
  }

  lemma SortedPeriodsSame(ps: seq<Period>)
    ensures forall p :: p in SortedPeriods(ps) <==> p in ps
  {
    SortedPeriodsFacts(ps);
    forall p ensures p in SortedPeriods(ps) <==> p in ps {
      assert p in multiset(SortedPeriods(ps)) <==> p in multiset(ps);
    }
  }

  // ---- Merging -----------------------------------------------------------------

  lemma CoversConcat(a: seq<Period>, b: seq<Period>, t: nat)
    ensures Covers(a + b, t) <==> Covers(a, t) || Covers(b, t)
  {
    if p :| p in a && p.start <= t < p.end {
      assert p in a + b;
    }
    if p :| p in b && p.start <= t < p.end {
      assert p in a + b;
    }
  }

  lemma CoversOne(p: Period, t: nat)
    ensures Covers([p], t) <==> p.start <= t < p.end
  {
    assert p in [p];
  }

  // Extending the open period by one that starts inside it or at its end.
  lemma CoversMerged(pers: seq<Period>, cur: Period, per: Period, t: nat)
    requires cur.start <= per.start <= cur.end
    ensures Covers(pers + [Period(cur.start, Max(cur.end, per.end))], t)
            <==> Covers(pers + [cur], t) || per.start <= t < per.end
  {
    var merged := Period(cur.start, Max(cur.end, per.end));
    CoversConcat(pers, [merged], t);
    CoversConcat(pers, [cur], t);
    CoversOne(merged, t);
    CoversOne(cur, t);
  }

  lemma CoversNext(c: seq<Period>, i: nat, t: nat)
    requires i < |c|
    ensures Covers(c[..i + 1], t) <==> Covers(c[..i], t) || c[i].start <= t < c[i].end
  {
    assert c[..i + 1] == c[..i] + [c[i]];
    CoversConcat(c[..i], [c[i]], t);
    CoversOne(c[i], t);
  }

  // The merged periods so far, including the open one; an empty open period
  // marks that there is none yet.
  function Upto(pers: seq<Period>, cur: Period): seq<Period> {
    if cur.start == cur.end then pers else pers + [cur]
  }

  method Merge(sorted: seq<Period>) returns (pers: seq<Period>)
    requires Sorted(sorted) && forall p :: p in sorted ==> NonEmpty(p)
    ensures Canonical(pers)
    ensures forall t: nat :: Covers(pers, t) <==> Covers(sorted, t)
  {
    pers := [];
    var cur := Period(0, 0);
    for i := 0 to |sorted|
      invariant cur.start <= cur.end
      invariant cur.start == cur.end ==> pers == [] && i == 0
      invariant Canonical(pers)
      invariant cur.start < cur.end ==> forall k :: 0 <= k < |pers| ==> pers[k].end < cur.start
      invariant cur.start < cur.end ==> forall k :: i <= k < |sorted| ==> cur.start <= sorted[k].start
      invariant forall t: nat :: Covers(Upto(pers, cur), t) <==> Covers(sorted[..i], t)
    {
      var per := sorted[i];
      assert NonEmpty(per);
      ghost var was := Upto(pers, cur);
      forall t: nat ensures Covers(sorted[..i + 1], t) <==> Covers(was, t) || per.start <= t < per.end {
        CoversNext(sorted, i, t);
      }
      if cur.start == cur.end {
        cur := per;
        forall t: nat ensures Covers(Upto(pers, cur), t) <==> Covers(was, t) || per.start <= t < per.end {
          CoversOne(per, t);
          assert [] + [per] == [per];
        }
      } else if cur.end < per.start {
        pers := pers + [cur];
        cur := per;
        forall t: nat ensures Covers(Upto(pers, cur), t) <==> Covers(was, t) || per.start <= t < per.end {
          CoversConcat(was, [per], t);
          CoversOne(per, t);
        }
      } else {
        forall t: nat
          ensures Covers(pers + [Period(cur.start, Max(cur.end, per.end))], t)
                  <==> Covers(was, t) || per.start <= t < per.end
        {
          CoversMerged(pers, cur, per, t);
        }
        cur := cur.(end := Max(cur.end, per.end));
      }
    }
    assert sorted[..|sorted|] == sorted;
    if cur.start < cur.end {
      pers := pers + [cur];
    }
  }

  // The packed periods of the jobs: canonical, and covering exactly the seconds
  // of the non-empty job periods.
  method PackedPeriods(jobs: seq<Period>) returns (pers: seq<Period>)
    ensures Canonical(pers)
    ensures forall t: nat :: Covers(pers, t) <==> Covers(jobs, t)
  {
    var collected := [];
    for i := 0 to |jobs|
      invariant forall p :: p in collected <==> p in jobs[..i] && NonEmpty(p)
    {
      if NonEmpty(jobs[i]) {
        collected := collected + [jobs[i]];
      }
    }
    SortedPeriodsFacts(collected);
    SortedPeriodsSame(collected);
    pers := Merge(SortedPeriods(collected));
    forall t: nat ensures Covers(SortedPeriods(collected), t) <==> Covers(jobs, t) {
      SameCover(SortedPeriods(collected), jobs, t);
    }
  }

  lemma SameCover(a: seq<Period>, b: seq<Period>, t: nat)
    requires forall p :: p in a <==> p in b && NonEmpty(p)
    ensures Covers(a, t) <==> Covers(b, t)
  {
    if p :| p in a && p.start <= t < p.end {
      assert p in b;
    }
    if p :| p in b && p.start <= t < p.end {
      assert NonEmpty(p) && p in a;
    }
  }

  // ---- The result is the only one possible ---------------------------------------

  lemma CanonicalTail(ps: seq<Period>)
    requires Canonical(ps) && ps != []
    ensures Canonical(ps[1..])
    ensures forall t: nat :: Covers(ps[1..], t) <==> Covers(ps, t) && t >= ps[0].end
    ensures forall t: nat :: Covers(ps, t) ==> t >= ps[0].start
    ensures forall t: nat :: ps[0].start <= t < ps[0].end ==> Covers(ps, t)
    ensures !Covers(ps, ps[0].end)
  {
    assert ps == [ps[0]] + ps[1..];
    forall t: nat
      ensures Covers(ps, t) <==> ps[0].start <= t < ps[0].end || Covers(ps[1..], t)
      ensures Covers(ps[1..], t) ==> t > ps[0].end
    {
      CoversConcat([ps[0]], ps[1..], t);
      CoversOne(ps[0], t);
    }
  }

  // A set of seconds has only one such list of periods.
  lemma {:induction false} CanonicalUnique(a: seq<Period>, b: seq<Period>)
    requires Canonical(a) && Canonical(b)
    requires forall t: nat :: Covers(a, t) <==> Covers(b, t)
    ensures a == b
    decreases |a|
  {
    hide Canonical, Covers;
    if a == [] {
      if b != [] {
        FirstCovered(b);
        NothingCovered(b[0].start);
      }
    } else if b == [] {
      FirstCovered(a);
      NothingCovered(a[0].start);
    } else {
      SameFirst(a, b);
      CanonicalUnique(a[1..], b[1..]);
      assert a == [a[0]] + a[1..] && b == [b[0]] + b[1..];
    }
  }

  lemma NothingCovered(t: nat)
    ensures !Covers([], t)
  {
  }

  lemma SameFirst(a: seq<Period>, b: seq<Period>)
    requires Canonical(a) && Canonical(b) && a != [] && b != []
    requires forall t: nat :: Covers(a, t) <==> Covers(b, t)
    ensures a[0] == b[0]
    ensures Canonical(a[1..]) && Canonical(b[1..])
    ensures forall t: nat :: Covers(a[1..], t) <==> Covers(b[1..], t)
  {
    hide Covers;
    FirstCovered(a);
    FirstCovered(b);
    CanonicalTail(a);
    CanonicalTail(b);
    assert a[0].start == b[0].start;
    SameEnd(a, b);
  }

  lemma SameEnd(a: seq<Period>, b: seq<Period>)
    requires a != [] && b != [] && a[0].start == b[0].start
    requires NonEmpty(a[0]) && NonEmpty(b[0])
    requires forall t: nat :: Covers(a, t) <==> Covers(b, t)
    requires !Covers(a, a[0].end) && !Covers(b, b[0].end)
    requires forall t: nat :: a[0].start <= t < a[0].end ==> Covers(a, t)
    requires forall t: nat :: b[0].start <= t < b[0].end ==> Covers(b, t)
    ensures a[0].end == b[0].end
  {
    assert Covers(a, a[0].end) <==> Covers(b, a[0].end);
    assert Covers(a, b[0].end) <==> Covers(b, b[0].end);
  }

  lemma FirstCovered(ps: seq<Period>)
    requires Canonical(ps) && ps != []
    ensures Covers(ps, ps[0].start)
  {
    assert NonEmpty(ps[0]) && ps[0] in ps;
  }

  // ---- Walking the periods --------------------------------------------------------

  class ReportPathIter {
    var front: nat
    var back: nat

    constructor (period: Period)
      ensures front == period.start && back == period.end
    {
      front, back := period.start, period.end;
    }

    method Next() returns (at: Option<nat>)
      modifies this`front
      ensures old(front) < back ==> at == Some(old(front)) && front == old(front) + 1
      ensures old(front) >= back ==> at == None && front == old(front)
    {
      if front >= back {
        return None;
      }
      at := Some(front);
      front := front + 1;
    }
  }

  // The length the progress bar is set up with.
  function TotalLength(ps: seq<Period>): int {
    if ps == [] then 0
    else TotalLength(ps[..|ps| - 1]) + ps[|ps| - 1].end - ps[|ps| - 1].start
  }


  ghost predicate Ascending(ats: seq<nat>) {
    forall i, j :: 0 <= i < j < |ats| ==> ats[i] < ats[j]
  }

  // The loop over one period.
  method PackPeriod(per: Period, present: set<nat>, before: seq<nat>) returns (packed: seq<nat>, nrSkipped: nat)
    requires NonEmpty(per) && Ascending(before) && forall t :: t in before ==> t < per.start
    ensures Ascending(packed)
    ensures forall t: nat :: t in packed <==> t in before || (t in present && per.start <= t < per.end)
    ensures |packed| + nrSkipped == |before| + per.end - per.start
  {
    packed, nrSkipped := before, 0;
    var iter := new ReportPathIter(per);
    var at := iter.Next();
    while at.Some?
      invariant iter.back == per.end && per.start <= iter.front <= iter.back
      invariant at.Some? ==> iter.front > per.start && at.value == iter.front - 1
      invariant at.None? ==> iter.front == iter.back
      invariant Ascending(packed)
      invariant forall t: nat :: t in packed <==>
                  t in before || (t in present && per.start <= t < (if at.Some? then at.value else per.end))
      invariant |packed| + nrSkipped == |before| + (if at.Some? then at.value else per.end) - per.start
      decreases iter.back - iter.front, at.Some?
    {
      if at.value in present {
        forall a | 0 <= a < |packed| ensures packed[a] < at.value {
          assert packed[a] in packed;
        }
        packed := packed + [at.value];
      } else {
        nrSkipped := nrSkipped + 1;
      }
      at := iter.Next();
    }
  }

  // Each covered second is visited exactly once: the packed reports are the
  // present ones, without repetition, and the progress adds up to the total.
  method PackReports(pers: seq<Period>, present: set<nat>) returns (packed: seq<nat>, nrSkipped: nat)
    requires Canonical(pers)
    ensures Ascending(packed)
    ensures forall t :: t in packed <==> t in present && Covers(pers, t)
    ensures |packed| + nrSkipped == TotalLength(pers)
  {
    packed, nrSkipped := [], 0;
    for i := 0 to |pers|
      invariant Ascending(packed)
      invariant forall t :: t in packed <==> t in present && Covers(pers[..i], t)
      invariant |packed| + nrSkipped == TotalLength(pers[..i])
    {
      forall t: nat
        ensures Covers(pers[..i + 1], t) <==> Covers(pers[..i], t) || pers[i].start <= t < pers[i].end
        ensures Covers(pers[..i], t) ==> t < pers[i].start
      {
        CoversNext(pers, i, t);
      }
      var skipped;
      packed, skipped := PackPeriod(pers[i], present, packed);
      nrSkipped := nrSkipped + skipped;
      assert pers[..i + 1][..i] == pers[..i];
    }
    assert pers[..|pers|] == pers;
  }
}
