// Why the incremental fill agrees with plain bucketing of the whole history,
// over every run of appends, expiries and fills.
module ReportHistory {
  import opened Wrappers
  import opened Windows
  import opened ReportSource
  import opened ReportBuckets

  // Records of one source: increasing timestamps, multiples of its cadence.
  ghost predicate History<R>(h: seq<Record<R>>, cadence: nat) {
    && cadence > 0
    && Increasing(h)
    && (forall r :: r in h ==> Multiple(r.at, cadence))
  }

  lemma SuffixHistory<R>(h: seq<Record<R>>, m: nat, cadence: nat)
    requires History(h, cadence) && m <= |h|
    ensures History(h[m..], cadence)
  {
    forall i, j | 0 <= i < j < |h[m..]| ensures h[m..][i].at < h[m..][j].at {
      assert h[m..][i] == h[m + i] && h[m..][j] == h[m + j];
    }
  }

  // ---- Bucketing a growing history ------------------------------------------

  lemma InBucketSnoc<R>(h: seq<Record<R>>, r: Record<R>, k: nat, step: nat)
    requires step > 0
    ensures InBucket(h + [r], k, step) == InBucket(h, k, step) + (if Idx(r.at, step) == k then [r] else [])
  {
    assert (h + [r])[..|h|] == h;
  }

  lemma {:induction false} InBucketUnaffected<R>(h: seq<Record<R>>, more: seq<Record<R>>, k: nat, step: nat)
    requires step > 0
    requires forall i :: 0 <= i < |more| ==> Idx(more[i].at, step) != k
    ensures InBucket(h + more, k, step) == InBucket(h, k, step)
  {
    hide Idx, Align, Multiple;
    if more == [] {
      assert h + more == h;
    } else {
      var init, last := more[..|more| - 1], more[|more| - 1];
      assert h + more == (h + init) + [last];
      InBucketSnoc(h + init, last, k, step);
      InBucketUnaffected(h, init, k, step);
    }
  }

  lemma InBucketNone<R>(h: seq<Record<R>>, k: nat, step: nat)
    requires step > 0
    requires forall i :: 0 <= i < |h| ==> Idx(h[i].at, step) != k
    ensures InBucket(h, k, step) == []
  {
    hide Idx, Align, Multiple;
    InBucketUnaffected([], h, k, step);
    assert [] + h == h;
  }

  // ---- The invariant of feeding ---------------------------------------------

  ghost function TipIdx<T>(s: State<T>): nat
    requires s.step > 0
  {
    Idx(s.tip.at, s.step)
  }

  // The ring ends just before bucket `k`; its buckets from `base` on hold
  // exactly what the history `h` puts there.
  ghost predicate RingExact<R, T>(ops: Ops<R, T>, ring: seq<Option<T>>, h: seq<Record<R>>, k: nat, base: nat, step: nat)
    requires step > 0
  {
    && |ring| <= k
    && (forall i :: 0 <= i < |ring| && k - |ring| + i >= base ==>
          ring[i] == BucketValue(ops, h, k - |ring| + i, step))
  }

  ghost predicate TipExact<R, T>(ops: Ops<R, T>, tip: Tip<T>, h: seq<Record<R>>, k: nat, base: nat, step: nat)
    requires step > 0
  {
    k >= base ==>
      var rs := InBucket(h, k, step);
      tip.data == Folded(ops, rs) && tip.nrSamples == |rs|
  }

  // No record from `base` on lies beyond bucket `k`.
  ghost predicate NoneBeyond<R>(h: seq<Record<R>>, k: nat, base: nat, step: nat)
    requires step > 0
  {
    forall i :: 0 <= i < |h| ==> Idx(h[i].at, step) <= k || Idx(h[i].at, step) < base
  }

  // No record from `lim` on lies before bucket `low`.
  ghost predicate NoneBefore<R>(h: seq<Record<R>>, low: nat, lim: nat, step: nat)
    requires step > 0
  {
    forall i :: 0 <= i < |h| && Idx(h[i].at, step) >= lim ==> Idx(h[i].at, step) >= low
  }

  // Every closed bucket from `base` on, and the open one, are exact; from `lim`
  // on the ring reaches back far enough.
  ghost predicate Good<R, T>(ops: Ops<R, T>, s: State<T>, h: seq<Record<R>>, base: nat, lim: nat) {
    && s.step > 0
    && s.tip.at > 0 && Multiple(s.tip.at, s.step)
    && RingExact(ops, s.dataRing, h, TipIdx(s), base, s.step)
    && TipExact(ops, s.tip, h, TipIdx(s), base, s.step)
    && NoneBeyond(h, TipIdx(s), base, s.step)
    && NoneBefore(h, TipIdx(s) - |s.dataRing|, lim, s.step)
  }

  ghost predicate Fresh<R, T>(ops: Ops<R, T>, s: State<T>) {
    s.step > 0 && s.tip == Tip(0, ops.zero, 0) && s.dataRing == []
  }

  lemma PushExact<R, T>(ops: Ops<R, T>, ring: seq<Option<T>>, tip: Tip<T>, h: seq<Record<R>>, k: nat, base: nat, step: nat)
    requires step > 0
    requires RingExact(ops, ring, h, k, base, step) && TipExact(ops, tip, h, k, base, step)
    requires NoneBeyond(h, k, base, step)
    ensures RingExact(ops, ring + [Closed(tip.data, tip.nrSamples, ops.aggr)], h, k + 1, base, step)
    ensures TipExact(ops, Tip(tip.at + step, ops.zero, 0), h, k + 1, base, step)
    ensures NoneBeyond(h, k + 1, base, step)
  {
    hide Idx, Align, Multiple;
    if k + 1 >= base {
      InBucketNone(h, k + 1, step);
    }
    var ring' := ring + [Closed(tip.data, tip.nrSamples, ops.aggr)];
    forall i | 0 <= i < |ring'| && k - |ring| + i >= base
      ensures ring'[i] == BucketValue(ops, h, k - |ring| + i, step)
    {
      if i < |ring| {
        assert ring'[i] == ring[i];
      }
    }
  }

  lemma PushGood<R, T>(ops: Ops<R, T>, s: State<T>, h: seq<Record<R>>, base: nat, lim: nat)
    requires Good(ops, s, h, base, lim)
    ensures Good(ops, Push(ops, s), h, base, lim)
    ensures TipIdx(Push(ops, s)) == TipIdx(s) + 1
  {
    hide Idx, Align, Multiple;
    NextMultiple(s.tip.at, s.step);
    PushExact(ops, s.dataRing, s.tip, h, TipIdx(s), base, s.step);
  }

  lemma {:induction false} CloseUntilGood<R, T>(ops: Ops<R, T>, s: State<T>, h: seq<Record<R>>, base: nat, lim: nat, at: nat)
    requires Good(ops, s, h, base, lim)
    requires Multiple(at, s.step) && s.tip.at <= at
    ensures var t := CloseUntil(ops, s, at);
            Good(ops, t, h, base, lim) && t.tip.at == at && SameConfig(s, t)
    decreases at - s.tip.at
  {
    hide Idx, Align, Multiple;
    if s.tip.at < at {
      MultiplesApart(s.tip.at, at, s.step);
      PushGood(ops, s, h, base, lim);
      CloseUntilGood(ops, Push(ops, s), h, base, lim, at);
    }
  }

  // A record closes its bucket exactly when the next cadence starts a new one.
  lemma ClosesBucket(at: nat, stride: nat, cadence: nat)
    requires stride > 0 && cadence > 0 && Multiple(at, cadence)
    requires Scale(stride, cadence) > 0
    ensures var step := Scale(stride, cadence);
            Align(at + cadence, step) ==
            if LastOfBucket(at, step, stride, cadence) then Align(at, step) + step else Align(at, step)
  {
    var step := Scale(stride, cadence);
    var k, r := at / step, at % step;
    assert at == k * step + r;
    assert (stride - 1) * cadence == step - cadence;
    MultipleIdx(stride, cadence);
    MultipleIdx(k, step);
    MultipleOfMultiple(k * step, step, cadence);
    if k * step < at {
      MultiplesApart(k * step, at, cadence);
    }
    MultiplesApart(r, step, cadence);
    if r == step - cadence {
      assert (k + 1) * step == k * step + step;
      DivUnique(at + cadence, step, k + 1);
    } else {
      DivUnique(at + cadence, step, k);
    }
  }

  // A state ready to take records in buckets from `base` on.
  ghost predicate Ready<R, T>(ops: Ops<R, T>, s: State<T>, h: seq<Record<R>>, base: nat, lim: nat) {
    || (Fresh(ops, s) && forall i :: 0 <= i < |h| ==> Idx(h[i].at, s.step) < base)
    || Good(ops, s, h, base, lim)
  }

  lemma OpenedGood<R, T>(ops: Ops<R, T>, s: State<T>, h: seq<Record<R>>, base: nat, lim: nat, rec: Record<R>)
    requires Ready(ops, s, h, base, lim) && base <= lim
    requires rec.at >= s.step && Idx(rec.at, s.step) >= base
    requires s.tip.at <= Align(rec.at, s.step)
    ensures var t := Opened(s, Align(rec.at, s.step));
            Good(ops, t, h, base, lim) && t.tip.at <= Align(rec.at, s.step) && SameConfig(s, t)
  {
    hide Idx, Align, Multiple;
    AlignFacts(rec.at, s.step);
    if Fresh(ops, s) {
      InBucketNone(h, Idx(rec.at, s.step), s.step);
    }
  }

  // Records outside the ring's exact range do not disturb it.
  lemma RingExactUnaffected<R, T>(ops: Ops<R, T>, ring: seq<Option<T>>, h: seq<Record<R>>, more: seq<Record<R>>, k: nat, base: nat, step: nat)
    requires step > 0
    requires RingExact(ops, ring, h, k, base, step)
    requires forall i :: 0 <= i < |more| ==> Idx(more[i].at, step) >= k || Idx(more[i].at, step) < base
    ensures RingExact(ops, ring, h + more, k, base, step)
  {
    hide Idx, Align, Multiple;
    forall i | 0 <= i < |ring| && k - |ring| + i >= base
      ensures ring[i] == BucketValue(ops, h + more, k - |ring| + i, step)
    {
      InBucketUnaffected(h, more, k - |ring| + i, step);
    }
  }

  lemma AccumulatedGood<R, T>(ops: Ops<R, T>, s: State<T>, h: seq<Record<R>>, base: nat, lim: nat, rec: Record<R>)
    requires Good(ops, s, h, base, lim)
    requires Idx(rec.at, s.step) == TipIdx(s)
    ensures Good(ops, Accumulated(ops, s, rec), h + [rec], base, lim)
  {
    hide Idx, Align, Multiple;
    RingExactUnaffected(ops, s.dataRing, h, [rec], TipIdx(s), base, s.step);
    InBucketSnoc(h, rec, TipIdx(s), s.step);
    var rs := InBucket(h, TipIdx(s), s.step);
    assert (rs + [rec])[..|rs|] == rs;
  }

  lemma FeedGood<R, T>(ops: Ops<R, T>, s: State<T>, h: seq<Record<R>>, base: nat, lim: nat, rec: Record<R>)
    requires Ready(ops, s, h, base, lim) && base <= lim
    requires s.stride > 0 && s.srcCadence > 0 && Scaled(s)
    requires Multiple(rec.at, s.srcCadence)
    requires rec.at >= s.step && Idx(rec.at, s.step) >= base
    requires s.tip.at <= Align(rec.at, s.step)
    ensures var t := Feed(ops, s, rec);
            Good(ops, t, h + [rec], base, lim) && SameConfig(s, t)
            && t.tip.at == Align(rec.at + s.srcCadence, s.step)
  {
    hide Idx, Align, Multiple, LastOfBucket, Scale;
    var at := Align(rec.at, s.step);
    AlignFacts(rec.at, s.step);
    OpenedGood(ops, s, h, base, lim, rec);
    var o := Opened(s, at);
    CloseUntilGood(ops, o, h, base, lim, at);
    var c := CloseUntil(ops, o, at);
    AccumulatedGood(ops, c, h, base, lim, rec);
    ClosesBucket(rec.at, s.stride, s.srcCadence);
    if LastOfBucket(rec.at, s.step, s.stride, s.srcCadence) {
      PushGood(ops, Accumulated(ops, c, rec), h + [rec], base, lim);
    }
  }

  lemma {:induction false} FeedAllGood<R, T>(ops: Ops<R, T>, s: State<T>, h: seq<Record<R>>, base: nat, lim: nat, recs: seq<Record<R>>)
    requires Ready(ops, s, h, base, lim) && base <= lim
    requires s.stride > 0 && s.srcCadence > 0 && Scaled(s)
    requires History(recs, s.srcCadence) && recs != []
    requires forall i :: 0 <= i < |recs| ==> recs[i].at >= s.step && Idx(recs[i].at, s.step) >= base
    requires s.tip.at <= Align(recs[0].at, s.step)
    ensures var t := FeedAll(ops, s, recs);
            Good(ops, t, h + recs, base, lim)
            && t.tip.at == Align(recs[|recs| - 1].at + s.srcCadence, s.step)
  {
    hide Idx, Align, Multiple, LastOfBucket, Scale;
    var n := |recs|;
    var init, last := recs[..n - 1], recs[n - 1];
    assert h + recs == (h + init) + [last];
    if n == 1 {
      assert h + init == h;
      FeedGood(ops, s, h, base, lim, last);
    } else {
      FeedAllGood(ops, s, h, base, lim, init);
      var t := FeedAll(ops, s, init);
      MultiplesApart(recs[n - 2].at, last.at, s.srcCadence);
      IdxMono(recs[n - 2].at + s.srcCadence, last.at, s.step);
      FeedGood(ops, t, h + init, base, lim, last);
    }
  }

  // ---- The invariant between fills ------------------------------------------

  ghost predicate Exact<R, T>(ops: Ops<R, T>, s: State<T>, seen: seq<Record<R>>, cadence: nat)
    requires seen != []
  {
    var newest := seen[|seen| - 1].at;
    && s.srcCadence == cadence && s.stride > 0 && s.step > 0
    && s.nrSlots <= Idx(newest, s.step)
    && s.nrSlots <= TipIdx(s)
    && Good(ops, s, seen, Idx(newest, s.step) - s.nrSlots, TipIdx(s) - s.nrSlots)
    && s.nextSrcAt == newest + cadence
    && s.tip.at == Align(s.nextSrcAt, s.step)
    && |s.dataRing| <= s.nrSlots
  }

  // What has expired is older than anything the ring can show, or has been read:
  // `next` is the time from which on the graph has read nothing yet.
  ghost predicate HeldBack<R>(h: seq<Record<R>>, dropped: nat, next: nat, nrSlots: nat, step: nat)
    requires step > 0 && dropped < |h|
  {
    && nrSlots <= Idx(h[|h| - 1].at, step)
    && (forall i :: 0 <= i < dropped ==> h[i].at < Max(next, FillFrom(h[dropped..], nrSlots, step)))
  }

  // A fresh fill that reaches back to time zero reads samples of bucket 0, but not
  // the one that completes it.  The tip, still at time zero, then looks unopened.
  ghost predicate ZeroBucketLost<R>(src: seq<Record<R>>, nrSlots: nat, step: nat, cadence: nat)
    requires step > 0 && src != []
  {
    && nrSlots == Idx(src[|src| - 1].at, step) && src[|src| - 1].at >= step
    && (exists i :: 0 <= i < |src| && src[i].at < step)
    && (forall i :: 0 <= i < |src| ==> src[i].at + cadence != step)
  }

  // The part of the source's promise a fill rests on.
  ghost predicate Retained<R>(h: seq<Record<R>>, dropped: nat, next: nat, nrSlots: nat, step: nat, cadence: nat)
    requires step > 0 && dropped < |h|
  {
    && HeldBack(h, dropped, next, nrSlots, step)
    && (next == 0 ==> !ZeroBucketLost(h[dropped..], nrSlots, step, cadence))
  }

  // From where on a fill with this configuration has read nothing yet.
  function Resume<T>(s: State<T>, stride: nat, nrSlots: nat, cadence: nat): nat {
    if stride != s.stride || nrSlots != s.nrSlots || s.srcCadence != cadence then 0 else s.nextSrcAt
  }

  lemma FillFromIdx<R>(src: seq<Record<R>>, nrSlots: nat, step: nat)
    requires step > 0 && src != [] && nrSlots <= Idx(src[|src| - 1].at, step)
    ensures FillFrom(src, nrSlots, step) == Scale(Idx(src[|src| - 1].at, step) - nrSlots, step)
    ensures 0 <= FillFrom(src, nrSlots, step) <= src[|src| - 1].at
  {
    var k := Idx(src[|src| - 1].at, step);
    assert (k - nrSlots) * step == k * step - nrSlots * step;
    MulMono(0, k - nrSlots, step);
  }

  // The records a fill processes are those from some index on; everything
  // before it is either already seen or in a bucket the ring cannot show.
  lemma NewSuffix<R>(h: seq<Record<R>>, dropped: nat, from: nat, cadence: nat)
    returns (m: nat)
    requires History(h, cadence) && dropped <= |h|
    requires forall i :: 0 <= i < dropped ==> h[i].at < from
    ensures m == dropped + FirstNew(h[dropped..], from)
    ensures m <= |h|
    ensures h[dropped..][FirstNew(h[dropped..], from)..] == h[m..]
    ensures forall i :: 0 <= i < m ==> h[i].at < from
    ensures forall i :: m <= i < |h| ==> h[i].at >= from
  {
    hide Idx, Align, Multiple;
    var src := h[dropped..];
    var start := FirstNew(src, from);
    m := dropped + start;
    if start > 0 {
      assert src[start - 1] == h[m - 1];
    }
    forall i | m <= i < |h| ensures h[i].at >= from {
      assert h[i] == src[i - dropped];
    }
  }

  lemma TruncatedExact<R, T>(ops: Ops<R, T>, ring: seq<Option<T>>, h: seq<Record<R>>, k: nat, base: nat, nrSlots: nat, step: nat)
    requires step > 0
    requires RingExact(ops, ring, h, k, base, step)
    ensures RingExact(ops, Truncated(ring, nrSlots), h, k, base, step)
  {
    hide Idx, Align, Multiple, BucketValue;
    var kept := Truncated(ring, nrSlots);
    forall i | 0 <= i < |kept| && k - |kept| + i >= base
      ensures kept[i] == BucketValue(ops, h, k - |kept| + i, step)
    {
      assert kept[i] == ring[|ring| - |kept| + i];
    }
  }

  lemma TruncateGood<R, T>(ops: Ops<R, T>, s: State<T>, h: seq<Record<R>>, base: nat)
    requires s.step > 0 && s.nrSlots <= TipIdx(s)
    requires Good(ops, s, h, base, TipIdx(s) - s.nrSlots)
    ensures Good(ops, s.(dataRing := Truncated(s.dataRing, s.nrSlots)), h, base, TipIdx(s) - s.nrSlots)
  {
    hide Idx, Align, Multiple;
    TruncatedExact(ops, s.dataRing, h, TipIdx(s), base, s.nrSlots, s.step);
  }

  lemma GoodIsExact<R, T>(ops: Ops<R, T>, s: State<T>, h: seq<Record<R>>, base: nat, lim: nat, cadence: nat)
    requires h != [] && s.srcCadence == cadence && s.stride > 0 && s.step > 0
    requires Good(ops, s, h, base, lim)
    requires base == Idx(h[|h| - 1].at, s.step) - s.nrSlots && lim == TipIdx(s) - s.nrSlots
    requires s.nextSrcAt == h[|h| - 1].at + cadence
    requires s.tip.at == Align(s.nextSrcAt, s.step)
    requires |s.dataRing| <= s.nrSlots
    ensures Exact(ops, s, h, cadence)
  {
    hide Idx, Align, Multiple;
  }

  lemma FedExact<R, T>(ops: Ops<R, T>, c: State<T>, h: seq<Record<R>>, m: nat, cadence: nat)
    requires History(h, cadence) && m < |h|
    requires c.srcCadence == cadence && c.stride > 0
    requires c.step > 0 && Scaled(c)
    requires c.nextSrcAt == h[|h| - 1].at + cadence
    requires c.nrSlots <= Idx(h[|h| - 1].at, c.step) <= Idx(c.nextSrcAt, c.step)
    requires Ready(ops, c, h[..m], Idx(h[|h| - 1].at, c.step) - c.nrSlots, Idx(c.nextSrcAt, c.step) - c.nrSlots)
    requires forall i :: m <= i < |h| ==> h[i].at >= c.step && Idx(h[i].at, c.step) >= Idx(h[|h| - 1].at, c.step) - c.nrSlots
    requires c.tip.at <= Align(h[m].at, c.step)
    ensures var t := FeedAll(ops, c, h[m..]);
            Exact(ops, t.(dataRing := Truncated(t.dataRing, c.nrSlots)), h, cadence)
  {
    hide Idx, Align, Multiple, Scale, FeedAll, Good, Increasing, Exact;
    SuffixHistory(h, m, cadence);
    var base, lim := Idx(h[|h| - 1].at, c.step) - c.nrSlots, Idx(c.nextSrcAt, c.step) - c.nrSlots;
    FeedAllGood(ops, c, h[..m], base, lim, h[m..]);
    assert h[..m] + h[m..] == h;
    var t := FeedAll(ops, c, h[m..]);
    AlignFacts(c.nextSrcAt, c.step);
    TruncateGood(ops, t, h, base);
    GoodIsExact(ops, t.(dataRing := Truncated(t.dataRing, c.nrSlots)), h, base, lim, cadence);
  }

  // A fill with an unchanged configuration feeds a suffix of the history: the
  // records from `from` on.
  lemma FillIsFeed<R, T>(ops: Ops<R, T>, s: State<T>, h: seq<Record<R>>, dropped: nat, cadence: nat)
    returns (m: nat)
    requires History(h, cadence) && dropped < |h|
    requires s.srcCadence == cadence && s.stride > 0 && s.step > 0 && Scaled(s)
    requires HeldBack(h, dropped, s.nextSrcAt, s.nrSlots, s.step)
    ensures 0 <= FillFrom(h[dropped..], s.nrSlots, s.step) <= h[|h| - 1].at
    ensures FillFrom(h[dropped..], s.nrSlots, s.step) == Scale(Idx(h[|h| - 1].at, s.step) - s.nrSlots, s.step)
    ensures dropped <= m <= |h|
    ensures var from := Max(s.nextSrcAt, FillFrom(h[dropped..], s.nrSlots, s.step));
            && (forall i :: 0 <= i < m ==> h[i].at < from)
            && (forall i :: m <= i < |h| ==> h[i].at >= from)
    ensures var t := FeedAll(ops, s.(nextSrcAt := h[|h| - 1].at + cadence), h[m..]);
            Fill(ops, s, s.stride, s.nrSlots, h[dropped..], cadence)
            == t.(dataRing := Truncated(t.dataRing, s.nrSlots))
  {
    hide Idx, Align, Multiple, Scale, FeedAll, FirstNew, Increasing, Truncated;
    FillFromIdx(h[dropped..], s.nrSlots, s.step);
    m := NewSuffix(h, dropped, Max(s.nextSrcAt, FillFrom(h[dropped..], s.nrSlots, s.step)), cadence);
  }

  lemma SplitByBucket<R>(h: seq<Record<R>>, m: nat, from: nat, base: nat, step: nat)
    requires step > 0 && from == Scale(base, step) && m <= |h|
    requires forall i :: 0 <= i < m ==> h[i].at < from
    requires forall i :: m <= i < |h| ==> h[i].at >= from
    ensures forall i :: 0 <= i < m ==> Idx(h[i].at, step) < base
    ensures forall i :: m <= i < |h| ==> Idx(h[i].at, step) >= base
  {
    hide Idx, Align, Multiple;
    forall i | 0 <= i < |h| ensures h[i].at < from <==> Idx(h[i].at, step) < base {
      BelowIdx(h[i].at, base, step);
    }
  }

  // The records seen so far end a cadence before the next source position.
  lemma SeenBoundary<R>(h: seq<Record<R>>, n: nat, cadence: nat)
    requires History(h, cadence) && 0 < n <= |h|
    ensures forall i :: 0 <= i < n ==> h[i].at < h[n - 1].at + cadence
    ensures forall i :: n <= i < |h| ==> h[i].at >= h[n - 1].at + cadence
  {
    forall i | n <= i < |h| ensures h[i].at >= h[n - 1].at + cadence {
      MultiplesApart(h[n - 1].at, h[i].at, cadence);
    }
  }

  // ---- Filling from the first bucket of time ------------------------------------

  lemma {:induction false} FeedAllConcat<R, T>(ops: Ops<R, T>, s: State<T>, a: seq<Record<R>>, b: seq<Record<R>>)
    requires s.step > 0
    ensures FeedAll(ops, s, a + b) == FeedAll(ops, FeedAll(ops, s, a), b)
  {
    hide Feed;
    if b == [] {
      assert a + b == a;
    } else {
      var n := |b| - 1;
      assert (a + b)[..|a + b| - 1] == a + b[..n];
      FeedAllConcat(ops, s, a, b[..n]);
    }
  }

  lemma CompletesFirstBucket(at: nat, step: nat, stride: nat, cadence: nat)
    requires stride > 0 && step == Scale(stride, cadence) && at < step
    ensures LastOfBucket(at, step, stride, cadence) <==> at + cadence == step
  {
    assert (stride - 1) * cadence == step - cadence;
    DivUnique(at, step, 0);
  }

  lemma FirstBucket(at: nat, step: nat)
    requires step > 0
    ensures at < step <==> Idx(at, step) == 0
    ensures at < step ==> Align(at, step) == 0
  {
    AlignFacts(at, step);
  }

  lemma {:induction false} AllInBucket<R>(h: seq<Record<R>>, k: nat, step: nat)
    requires step > 0 && forall i :: 0 <= i < |h| ==> Idx(h[i].at, step) == k
    ensures InBucket(h, k, step) == h
  {
    hide Idx;
    if h != [] {
      var n := |h| - 1;
      AllInBucket(h[..n], k, step);
      assert h == h[..n] + [h[n]];
    }
  }

  // One record of bucket 0, while the tip is at time zero.
  lemma FeedInFirstBucket<R, T>(ops: Ops<R, T>, s: State<T>, rec: Record<R>)
    requires s.stride > 0 && s.step > 0 && Scaled(s) && s.tip.at == 0 && rec.at < s.step
    ensures Feed(ops, s, rec)
         == if rec.at + s.srcCadence == s.step then Push(ops, Accumulated(ops, s, rec)) else Accumulated(ops, s, rec)
  {
    hide Align, Scale, LastOfBucket;
    FirstBucket(rec.at, s.step);
    CompletesFirstBucket(rec.at, s.step, s.stride, s.srcCadence);
  }

  lemma {:induction false} FeedFirstBucket<R, T>(ops: Ops<R, T>, s: State<T>, recs: seq<Record<R>>)
    requires Fresh(ops, s) && s.stride > 0 && Scaled(s)
    requires forall i :: 0 <= i < |recs| ==> recs[i].at < s.step && recs[i].at + s.srcCadence != s.step
    ensures FeedAll(ops, s, recs) == s.(tip := Tip(0, Folded(ops, recs), |recs|))
  {
    hide Scale, Feed;
    if recs != [] {
      var n := |recs| - 1;
      FeedFirstBucket(ops, s, recs[..n]);
      FeedInFirstBucket(ops, FeedAll(ops, s, recs[..n]), recs[n]);
    }
  }

  // A completed first bucket is closed, and the state is good for what follows.
  lemma FirstBucketGood<R, T>(ops: Ops<R, T>, s: State<T>, recs: seq<Record<R>>, lim: nat)
    requires Fresh(ops, s) && s.stride > 0 && Scaled(s) && recs != []
    requires forall i :: 0 <= i < |recs| ==> recs[i].at < s.step
    requires forall i :: 0 <= i < |recs| - 1 ==> recs[i].at + s.srcCadence != s.step
    requires recs[|recs| - 1].at + s.srcCadence == s.step
    ensures Good(ops, FeedAll(ops, s, recs), recs, 0, lim)
    ensures FeedAll(ops, s, recs).tip.at == s.step
  {
    hide Scale, Feed, Idx, Align, Multiple;
    var n := |recs| - 1;
    FeedFirstBucket(ops, s, recs[..n]);
    FeedInFirstBucket(ops, FeedAll(ops, s, recs[..n]), recs[n]);
    var t := FeedAll(ops, s, recs);
    FirstClosedGood(ops, t, recs, lim);
  }

  lemma FirstClosedGood<R, T>(ops: Ops<R, T>, t: State<T>, recs: seq<Record<R>>, lim: nat)
    requires t.step > 0 && t.tip == Tip(t.step, ops.zero, 0)
    requires t.dataRing == [Closed(Folded(ops, recs), |recs|, ops.aggr)]
    requires forall i :: 0 <= i < |recs| ==> recs[i].at < t.step
    ensures Good(ops, t, recs, 0, lim)
  {
    hide Idx, Multiple, InBucket, Folded;
    FirstIndices(recs, t.step);
    AllInBucket(recs, 0, t.step);
    InBucketNone(recs, 1, t.step);
    FoldedNone(ops);
  }

  lemma FoldedNone<R, T>(ops: Ops<R, T>)
    ensures Folded(ops, []) == ops.zero
  {
  }

  lemma FirstIndices<R>(recs: seq<Record<R>>, step: nat)
    requires step > 0 && forall i :: 0 <= i < |recs| ==> recs[i].at < step
    ensures forall i :: 0 <= i < |recs| ==> Idx(recs[i].at, step) == 0
    ensures Multiple(step, step) && Idx(step, step) == 1
  {
    forall i | 0 <= i < |recs| ensures Idx(recs[i].at, step) == 0 {
      FirstBucket(recs[i].at, step);
    }
    MultipleIdx(1, step);
  }

  // The index just behind the record that completes the first bucket.
  lemma FirstBucketEnd<R>(h: seq<Record<R>>, i: nat, step: nat, cadence: nat)
    requires History(h, cadence) && i < |h| && h[i].at + cadence == step
    ensures forall j :: 0 <= j < i ==> h[j].at < step && h[j].at + cadence != step
    ensures forall j :: i < j < |h| ==> h[j].at >= step
  {
    forall j | i < j < |h| ensures h[j].at >= step {
      MultiplesApart(h[i].at, h[j].at, cadence);
    }
  }

  // Feeding the first bucket of a history, up to the record at `i` that completes it.
  lemma FedFirstBucket<R, T>(ops: Ops<R, T>, c: State<T>, h: seq<Record<R>>, i: nat, lim: nat)
    requires History(h, c.srcCadence) && c.stride > 0 && Scaled(c) && Fresh(ops, c)
    requires i < |h| && h[i].at + c.srcCadence == c.step
    ensures var t := FeedAll(ops, c, h[..i + 1]);
            && Good(ops, t, h[..i + 1], 0, lim) && t.tip.at == c.step && SameConfig(c, t)
            && FeedAll(ops, c, h) == FeedAll(ops, t, h[i + 1..])
  {
    hide Idx, Align, Multiple, Scale, FeedAll, Good, Increasing;
    FirstBucketEnd(h, i, c.step, c.srcCadence);
    assert h == h[..i + 1] + h[i + 1..];
    FeedAllConcat(ops, c, h[..i + 1], h[i + 1..]);
    FirstBucketGood(ops, c, h[..i + 1], lim);
  }

  // A fresh fill over a completed first bucket.
  lemma FreshFromZero<R, T>(ops: Ops<R, T>, c: State<T>, h: seq<Record<R>>, i: nat, cadence: nat)
    requires History(h, cadence) && h != [] && c.srcCadence == cadence && c.stride > 0 && Scaled(c)
    requires Fresh(ops, c) && c.nextSrcAt == h[|h| - 1].at + cadence
    requires h[|h| - 1].at >= c.step && c.nrSlots == Idx(h[|h| - 1].at, c.step)
    requires i < |h| && h[i].at + cadence == c.step
    ensures var t := FeedAll(ops, c, h);
            Exact(ops, t.(dataRing := Truncated(t.dataRing, c.nrSlots)), h, cadence)
  {
    hide Idx, Align, Multiple, Scale, FeedAll, Good, Truncated, Exact, Increasing;
    FirstBucketEnd(h, i, c.step, cadence);
    IdxMono(h[|h| - 1].at, c.nextSrcAt, c.step);
    FedFirstBucket(ops, c, h, i, Idx(c.nextSrcAt, c.step) - c.nrSlots);
    AlignedStep(h[i + 1].at, c.step);
    FedExact(ops, FeedAll(ops, c, h[..i + 1]), h, i + 1, cadence);
  }

  lemma AlignedStep(at: nat, step: nat)
    requires step > 0 && at >= step
    ensures step <= Align(at, step)
  {
    IdxMono(step, at, step);
    MultipleIdx(1, step);
  }

  // ---- One fill --------------------------------------------------------------------

  // First fill after a reset.
  lemma FreshFill<R, T>(ops: Ops<R, T>, s: State<T>, h: seq<Record<R>>, dropped: nat, cadence: nat)
    requires History(h, cadence) && dropped < |h|
    requires s.srcCadence == cadence && s.stride > 0 && Scaled(s) && s.nrSlots > 0
    requires Fresh(ops, s) && s.nextSrcAt == 0
    requires Retained(h, dropped, 0, s.nrSlots, s.step, cadence)
    ensures 0 <= FillFrom(h[dropped..], s.nrSlots, s.step)
    ensures Exact(ops, Fill(ops, s, s.stride, s.nrSlots, h[dropped..], cadence), h, cadence)
  {
    hide Idx, Align, Multiple, Scale, FeedAll, FirstNew, Good, Increasing, Fill, FillFrom;
    var newest := h[|h| - 1].at;
    var m := FillIsFeed(ops, s, h, dropped, cadence);
    var from := FillFrom(h[dropped..], s.nrSlots, s.step);
    SplitByBucket(h, m, from, Idx(newest, s.step) - s.nrSlots, s.step);
    IdxMono(newest, newest + cadence, s.step);
    if i :| m <= i < |h| && h[i].at < s.step {
      var z := ClosedFirst(h, dropped, i, s.nrSlots, s.step, from, cadence);
      FirstIsBelow(h, m, from);
      assert h[0..] == h;
      FreshFromZero(ops, s.(nextSrcAt := newest + cadence), h, z, cadence);
    } else {
      FedExact(ops, s.(nextSrcAt := newest + cadence), h, m, cadence);
    }
  }

  lemma FirstIsBelow<R>(h: seq<Record<R>>, n: nat, from: int)
    requires n <= |h| && forall i :: 0 <= i < n ==> h[i].at < from
    ensures n > 0 ==> h[0].at < from
  {
  }

  // When a fresh fill reads bucket 0, nothing has expired, and the record that
  // completes the bucket is there.
  lemma ClosedFirst<R>(h: seq<Record<R>>, dropped: nat, i: nat, nrSlots: nat, step: nat, from: nat, cadence: nat) returns (z: nat)
    requires History(h, cadence) && step > 0 && dropped < |h| && i < |h| && nrSlots > 0
    requires Retained(h, dropped, 0, nrSlots, step, cadence)
    requires from == FillFrom(h[dropped..], nrSlots, step) == Scale(Idx(h[|h| - 1].at, step) - nrSlots, step)
    requires from <= h[i].at < step
    ensures from == 0 && dropped == 0 && nrSlots == Idx(h[|h| - 1].at, step) && h[|h| - 1].at >= step
    ensures z < |h| && h[z].at + cadence == step
  {
    hide FillFrom;
    var base := Idx(h[|h| - 1].at, step) - nrSlots;
    if base > 0 {
      MulMono(1, base, step);
      assert false;
    }
    FirstBucket(h[|h| - 1].at, step);
    FirstIsBelow(h, dropped, from);
    assert h[0..] == h;
    z :| 0 <= z < |h| && h[z].at + cadence == step;
  }

  // Records that fall before `base'` may be skipped: the buckets from `base'`
  // on stay exact.
  lemma SkipGood<R, T>(ops: Ops<R, T>, s: State<T>, h: seq<Record<R>>, more: seq<Record<R>>,
                       base: nat, lim: nat, base': nat, lim': nat)
    requires Good(ops, s, h, base, lim)
    requires base <= base' <= lim' && lim <= lim'
    requires forall i :: 0 <= i < |more| ==> Idx(more[i].at, s.step) < base'
    ensures Good(ops, s, h + more, base', lim')
  {
    hide Idx, Align, Multiple;
    RingExactUnaffected(ops, s.dataRing, h, more, TipIdx(s), base', s.step);
    if TipIdx(s) >= base' {
      InBucketUnaffected(h, more, TipIdx(s), s.step);
    }
  }

  // Where a later fill resumes: everything it passes over is either already
  // seen or in a bucket the ring cannot show.
  lemma ResumePoint<R>(h: seq<Record<R>>, n: nat, m: nat, next: nat, floor: nat, base: nat, step: nat, cadence: nat)
    requires History(h, cadence) && 0 < n <= |h| && m <= |h|
    requires next == h[n - 1].at + cadence && step > 0 && floor == Scale(base, step) <= h[|h| - 1].at
    requires forall i :: 0 <= i < m ==> h[i].at < Max(next, floor)
    requires forall i :: m <= i < |h| ==> h[i].at >= Max(next, floor)
    ensures n <= m
    ensures m == |h| ==> n == |h|
    ensures forall i :: n <= i < m ==> Idx(h[i].at, step) < base
    ensures forall i :: m <= i < |h| ==> Idx(h[i].at, step) >= base
  {
    hide Idx, Scale, Multiple, Increasing;
    SeenBoundary(h, n, cadence);
    assert h[n - 1].at < Max(next, floor);
    forall i | n <= i < |h| ensures i < m <==> h[i].at < floor {
    }
    forall i | 0 <= i < |h| ensures h[i].at < floor <==> Idx(h[i].at, step) < base {
      BelowIdx(h[i].at, base, step);
    }
    assert h[|h| - 1].at >= floor;
  }

  // A later fill, with or without skipped records.
  lemma LaterFill<R, T>(ops: Ops<R, T>, s: State<T>, h: seq<Record<R>>, n: nat, dropped: nat, cadence: nat)
    requires History(h, cadence) && dropped < |h| && 0 < n <= |h|
    requires Exact(ops, s, h[..n], cadence) && Scaled(s) && s.nrSlots > 0
    requires HeldBack(h, dropped, s.nextSrcAt, s.nrSlots, s.step)
    ensures 0 <= FillFrom(h[dropped..], s.nrSlots, s.step)
    ensures Exact(ops, Fill(ops, s, s.stride, s.nrSlots, h[dropped..], cadence), h, cadence)
  {
    hide Idx, Align, Multiple, Scale, FirstNew, Good, Increasing, Fill, FillFrom;
    var newest := h[|h| - 1].at;
    var m := FillIsFeed(ops, s, h, dropped, cadence);
    var base' := Idx(newest, s.step) - s.nrSlots;
    assert s.nextSrcAt == h[n - 1].at + cadence;
    ResumePoint(h, n, m, s.nextSrcAt, FillFrom(h[dropped..], s.nrSlots, s.step), base', s.step, cadence);
    if m == |h| {
      assert h[..n] == h && h[m..] == [];
    } else {
      ContinueFeeding(ops, s, h, n, m, cadence);
    }
  }

  lemma LaterRecords<R>(h: seq<Record<R>>, m: nat, cadence: nat)
    requires History(h, cadence) && m < |h|
    ensures forall i :: m <= i < |h| ==> h[i].at >= h[m].at
  {
  }

  // Where a later fill stands: the arithmetic of its bucket indices.
  lemma ContinueFacts<R, T>(ops: Ops<R, T>, s: State<T>, h: seq<Record<R>>, n: nat, m: nat, cadence: nat)
    requires History(h, cadence) && 0 < n <= m < |h|
    requires Exact(ops, s, h[..n], cadence) && s.nrSlots > 0 && h[m].at >= s.nextSrcAt
    ensures s.step > 0 && s.nextSrcAt == h[n - 1].at + cadence && s.tip.at == Align(s.nextSrcAt, s.step)
    ensures forall i :: m <= i < |h| ==> h[i].at >= s.step
    ensures Idx(h[n - 1].at, s.step) <= Idx(h[|h| - 1].at, s.step) <= Idx(h[|h| - 1].at + cadence, s.step)
    ensures TipIdx(s) == Idx(s.nextSrcAt, s.step) <= Idx(h[|h| - 1].at + cadence, s.step)
    ensures s.tip.at <= Align(h[m].at, s.step)
  {
    hide Idx, Align, Multiple, Good, Increasing;
    var newest, seen := h[|h| - 1].at, h[n - 1].at;
    LaterRecords(h, n - 1, cadence);
    LaterRecords(h, m, cadence);
    AlignFacts(seen, s.step);
    IdxMono(seen, newest, s.step);
    IdxMono(newest, newest + cadence, s.step);
    IdxMono(s.nextSrcAt, newest + cadence, s.step);
    IdxMono(s.nextSrcAt, h[m].at, s.step);
    AlignFacts(s.nextSrcAt, s.step);
  }

  lemma ContinueFeeding<R, T>(ops: Ops<R, T>, s: State<T>, h: seq<Record<R>>, n: nat, m: nat, cadence: nat)
    requires History(h, cadence) && 0 < n <= m < |h|
    requires Exact(ops, s, h[..n], cadence) && Scaled(s) && s.nrSlots > 0
    requires s.nrSlots <= Idx(h[|h| - 1].at, s.step)
    requires h[m].at >= s.nextSrcAt
    requires forall i :: n <= i < m ==> Idx(h[i].at, s.step) < Idx(h[|h| - 1].at, s.step) - s.nrSlots
    requires forall i :: m <= i < |h| ==> Idx(h[i].at, s.step) >= Idx(h[|h| - 1].at, s.step) - s.nrSlots
    ensures var t := FeedAll(ops, s.(nextSrcAt := h[|h| - 1].at + cadence), h[m..]);
            Exact(ops, t.(dataRing := Truncated(t.dataRing, s.nrSlots)), h, cadence)
  {
    hide Idx, Align, Multiple, Scale, FeedAll, Good, Increasing, Truncated;
    var newest, seen := h[|h| - 1].at, h[n - 1].at;
    var base, lim := Idx(newest, s.step) - s.nrSlots, Idx(newest + cadence, s.step) - s.nrSlots;
    ContinueFacts(ops, s, h, n, m, cadence);
    assert h[..m] == h[..n] + h[n..m];
    SkipGood(ops, s, h[..n], h[n..m], Idx(seen, s.step) - s.nrSlots, TipIdx(s) - s.nrSlots, base, lim);
    var c := s.(nextSrcAt := newest + cadence);
    SameGood(ops, s, c, h[..m], base, lim);
    FedExact(ops, c, h, m, cadence);
  }

  lemma SameGood<R, T>(ops: Ops<R, T>, s: State<T>, t: State<T>, h: seq<Record<R>>, base: nat, lim: nat)
    requires Good(ops, s, h, base, lim)
    requires t.tip == s.tip && t.dataRing == s.dataRing && t.step == s.step
    ensures Good(ops, t, h, base, lim)
  {
  }

  // ---- Every run of appends, expiries and fills -----------------------------

  // One source and one graph: every record ever published, how many of them
  // have expired from the ring, how many the graph has looked at.
  datatype World<R, T> = World(history: seq<Record<R>>, dropped: nat, data: State<T>, seen: nat)

  datatype Event<R> =
    | Append(rec: Record<R>)
    | Expire(count: nat)
    | Refresh(stride: nat, nrSlots: nat)

  // Records come in timestamp order and on cadence, only held records expire,
  // and at each fill the source still holds what the fill may need.
  ghost predicate Enabled<R, T>(w: World<R, T>, e: Event<R>, cadence: nat)
    requires cadence > 0 && w.dropped <= |w.history|
  {
    match e
    case Append(rec) =>
      Multiple(rec.at, cadence) && (w.history != [] ==> w.history[|w.history| - 1].at < rec.at)
    case Expire(count) => w.dropped + count <= |w.history|
    case Refresh(stride, nrSlots) =>
      && stride > 0 && Scale(stride, cadence) > 0
      && (w.dropped < |w.history| ==> Retained(w.history, w.dropped, Resume(w.data, stride, nrSlots, cadence), nrSlots,
                                                Scale(stride, cadence), cadence))
  }

  ghost function After<R, T>(ops: Ops<R, T>, w: World<R, T>, e: Event<R>, cadence: nat): World<R, T>
    requires cadence > 0 && w.dropped <= |w.history| && Scaled(w.data)
    requires Enabled(w, e, cadence)
  {
    match e
    case Append(rec) => w.(history := w.history + [rec])
    case Expire(count) => w.(dropped := w.dropped + count)
    case Refresh(stride, nrSlots) =>
      var src := w.history[w.dropped..];
      if src == [] then
        var c := Reconfigured(ops.zero, w.data, stride, nrSlots, cadence);
        w.(data := c, seen := if c == w.data then w.seen else 0)
      else
        FillFromIdx(src, nrSlots, Scale(stride, cadence));
        w.(data := Fill(ops, w.data, stride, nrSlots, src, cadence), seen := |w.history|)
  }

  ghost predicate NothingShown<T>(s: State<T>) {
    s.nrSlots == 0 && s.dataRing == []
  }

  // `seen` records have been looked at.  Either none has been since the last
  // reset, or the ring and the tip are exact for those, or there is no slot to show.
  ghost predicate Inv<R, T>(ops: Ops<R, T>, w: World<R, T>, cadence: nat) {
    && History(w.history, cadence)
    && w.dropped <= |w.history| && w.seen <= |w.history|
    && Scaled(w.data)
    && (w.seen == 0 ==> w.data.tip == Tip(0, ops.zero, 0) && w.data.dataRing == [] && w.data.nextSrcAt == 0)
    && (w.seen > 0 ==> w.data.nextSrcAt > 0)
    && (w.seen > 0 ==> NothingShown(w.data) || Exact(ops, w.data, w.history[..w.seen], cadence))
  }

  lemma AppendKeepsInv<R, T>(ops: Ops<R, T>, w: World<R, T>, rec: Record<R>, cadence: nat)
    requires Inv(ops, w, cadence) && Enabled(w, Append(rec), cadence)
    ensures Inv(ops, After(ops, w, Append(rec), cadence), cadence)
  {
    hide Exact, Multiple, Scale;
    assert (w.history + [rec])[..w.seen] == w.history[..w.seen];
  }

  lemma RefreshKeepsInv<R, T>(ops: Ops<R, T>, w: World<R, T>, stride: nat, nrSlots: nat, cadence: nat)
    requires Inv(ops, w, cadence) && Enabled(w, Refresh(stride, nrSlots), cadence)
    ensures Inv(ops, After(ops, w, Refresh(stride, nrSlots), cadence), cadence)
  {
    hide Multiple, Scale, Idx, Align, Good, Increasing, FirstNew, FeedAll, FillFrom;
    var h := w.history;
    if w.dropped == |h| {
      assert h[w.dropped..] == [];
    } else {
      assert h[w.dropped..] != [];
      var c := Reconfigured(ops.zero, w.data, stride, nrSlots, cadence);
      assert Reconfigured(ops.zero, c, stride, nrSlots, cadence) == c;
      assert h[..|h|] == h;
      FillFromIdx(h[w.dropped..], nrSlots, Scale(stride, cadence));
      assert Fill(ops, w.data, stride, nrSlots, h[w.dropped..], cadence)
          == Fill(ops, c, stride, nrSlots, h[w.dropped..], cadence);
      if nrSlots == 0 {
        FillWithoutSlots(ops, w.data, stride, h[w.dropped..], cadence);
      } else if c == w.data && w.seen > 0 {
        LaterFill(ops, c, h, w.seen, w.dropped, cadence);
      } else {
        FreshFill(ops, c, h, w.dropped, cadence);
      }
    }
  }

  lemma FillWithoutSlots<R, T>(ops: Ops<R, T>, s: State<T>, stride: nat, src: seq<Record<R>>, cadence: nat)
    requires stride > 0 && Scale(stride, cadence) > 0 && cadence > 0 && Scaled(s) && src != []
    requires 0 <= FillFrom(src, 0, Scale(stride, cadence))
    ensures var t := Fill(ops, s, stride, 0, src, cadence);
            NothingShown(t) && Scaled(t) && t.step == Scale(stride, cadence) && t.nextSrcAt > 0
  {
    hide Scale, FeedAll, FirstNew, FillFrom;
  }

  lemma FillKeepsConfig<R, T>(ops: Ops<R, T>, s: State<T>, stride: nat, n: nat, src: seq<Record<R>>, cadence: nat)
    requires stride > 0 && cadence > 0 && Scale(stride, cadence) > 0 && Scaled(s)
    requires src != [] && 0 <= FillFrom(src, n, Scale(stride, cadence))
    ensures var t := Fill(ops, s, stride, n, src, cadence);
            t.step == Scale(stride, cadence) && t.nrSlots == n && t.stride == stride && t.srcCadence == cadence
  {
    hide Scale, FeedAll, FirstNew, FillFrom, Truncated;
  }

  // Before the first event: an empty source and a graph never filled.
  ghost function InitWorld<R, T>(ops: Ops<R, T>): World<R, T> {
    World([], 0, Cleared(ops.zero, 0, 0, 0), 0)
  }

  // The worlds a run of enabled events can reach.
  ghost predicate Reaches<R(!new), T(!new)>(ops: Ops<R, T>, events: seq<Event<R>>, w: World<R, T>, cadence: nat)
    requires cadence > 0
  {
    if events == [] then w == InitWorld(ops)
    else
      var n := |events|;
      exists p: World<R, T> ::
        && Reaches(ops, events[..n - 1], p, cadence)
        && p.dropped <= |p.history| && Scaled(p.data)
        && Enabled(p, events[n - 1], cadence)
        && w == After(ops, p, events[n - 1], cadence)
  }

  lemma {:induction false} ReachableInv<R(!new), T(!new)>(ops: Ops<R, T>, events: seq<Event<R>>, w: World<R, T>, cadence: nat)
    requires cadence > 0 && Reaches(ops, events, w, cadence)
    ensures Inv(ops, w, cadence)
  {
    if events != [] {
      var n := |events|;
      var p: World<R, T> :|
        && Reaches(ops, events[..n - 1], p, cadence)
        && p.dropped <= |p.history| && Scaled(p.data)
        && Enabled(p, events[n - 1], cadence)
        && w == After(ops, p, events[n - 1], cadence);
      ReachableInv(ops, events[..n - 1], p, cadence);
      match events[n - 1]
      case Append(rec) => AppendKeepsInv(ops, p, rec, cadence);
      case Expire(_) =>
      case Refresh(stride, nrSlots) => RefreshKeepsInv(ops, p, stride, nrSlots, cadence);
    }
  }

  // A ring that does not reach back `nrSlots` buckets shows nothing before its
  // first slot.
  function Padded<T>(ring: seq<Option<T>>, nrSlots: nat): (r: seq<Option<T>>)
    requires |ring| <= nrSlots
    ensures |r| == nrSlots
  {
    seq(nrSlots - |ring|, _ => None) + ring
  }

  lemma SlotShown<R, T>(ops: Ops<R, T>, ring: seq<Option<T>>, h: seq<Record<R>>, k: nat, base: nat, nrSlots: nat, step: nat, i: nat)
    requires step > 0 && i < nrSlots && |ring| <= nrSlots <= k && base <= k - nrSlots
    requires RingExact(ops, ring, h, k, base, step)
    requires NoneBefore(h, k - |ring|, k - nrSlots, step)
    ensures Padded(ring, nrSlots)[i] == BucketValue(ops, h, k - nrSlots + i, step)
  {
    hide Idx, Align, Multiple;
    var missing := nrSlots - |ring|;
    if i < missing {
      InBucketNone(h, k - nrSlots + i, step);
    } else {
      assert ring[i - missing] == BucketValue(ops, h, k - |ring| + (i - missing), step);
    }
  }

  // The ring is exactly the batch aggregation of the last `nrSlots` closed
  // buckets of everything read, up to leading empty slots.
  lemma ExactShowsLastBuckets<R, T>(ops: Ops<R, T>, s: State<T>, h: seq<Record<R>>, cadence: nat)
    requires h != [] && cadence > 0 && Exact(ops, s, h, cadence)
    ensures TipIdx(s) == Idx(h[|h| - 1].at + cadence, s.step)
    ensures |s.dataRing| <= s.nrSlots <= TipIdx(s)
    ensures Padded(s.dataRing, s.nrSlots) == Buckets(ops, h, TipIdx(s), s.nrSlots, s.step)
  {
    hide Idx, Align, Multiple;
    AlignFacts(s.nextSrcAt, s.step);
    IdxMono(h[|h| - 1].at, s.nextSrcAt, s.step);
    ExactSlots(ops, s, h, cadence);
    hide Exact, BucketValue, Padded;
  }

  lemma ShownSlots<R, T>(ops: Ops<R, T>, ring: seq<Option<T>>, h: seq<Record<R>>, k: nat, base: nat, nrSlots: nat, step: nat)
    requires step > 0 && |ring| <= nrSlots <= k && base <= k - nrSlots
    requires RingExact(ops, ring, h, k, base, step)
    requires NoneBefore(h, k - |ring|, k - nrSlots, step)
    ensures forall i :: 0 <= i < nrSlots ==> Padded(ring, nrSlots)[i] == BucketValue(ops, h, k - nrSlots + i, step)
  {
    forall i | 0 <= i < nrSlots ensures Padded(ring, nrSlots)[i] == BucketValue(ops, h, k - nrSlots + i, step) {
      SlotShown(ops, ring, h, k, base, nrSlots, step, i);
    }
  }

  lemma ExactSlots<R, T>(ops: Ops<R, T>, s: State<T>, h: seq<Record<R>>, cadence: nat)
    requires h != [] && cadence > 0 && Exact(ops, s, h, cadence)
    requires Idx(h[|h| - 1].at, s.step) <= TipIdx(s) && |s.dataRing| <= s.nrSlots <= TipIdx(s)
    ensures forall i :: 0 <= i < s.nrSlots ==>
              Padded(s.dataRing, s.nrSlots)[i] == BucketValue(ops, h, TipIdx(s) - s.nrSlots + i, s.step)
  {
    hide Idx, Align, Multiple, BucketValue, Padded;
    ShownSlots(ops, s.dataRing, h, TipIdx(s), Idx(h[|h| - 1].at, s.step) - s.nrSlots, s.nrSlots, s.step);
  }

  // What a graph shows after one more fill of a non-empty source.
  ghost function Shown<R, T>(ops: Ops<R, T>, p: World<R, T>, stride: nat, nrSlots: nat, cadence: nat): seq<Option<T>>
    requires cadence > 0 && p.dropped < |p.history| && Scaled(p.data)
    requires Enabled(p, Refresh(stride, nrSlots), cadence)
  {
    After(ops, p, Refresh(stride, nrSlots), cadence).data.dataRing
  }

  lemma RefreshedExact<R, T>(ops: Ops<R, T>, p: World<R, T>, stride: nat, nrSlots: nat, cadence: nat)
    requires Inv(ops, p, cadence) && p.dropped < |p.history|
    requires Enabled(p, Refresh(stride, nrSlots), cadence)
    ensures var d := After(ops, p, Refresh(stride, nrSlots), cadence).data;
            && (if nrSlots == 0 then NothingShown(d) else Exact(ops, d, p.history, cadence))
            && d.nrSlots == nrSlots && d.step == Scale(stride, cadence)
  {
    hide Idx, Align, Multiple, Scale, Good, Increasing, FirstNew, FeedAll, FillFrom;
    RefreshKeepsInv(ops, p, stride, nrSlots, cadence);
    assert p.history[p.dropped..] != [];
    if nrSlots == 0 {
      FillFromIdx(p.history[p.dropped..], 0, Scale(stride, cadence));
      FillWithoutSlots(ops, p.data, stride, p.history[p.dropped..], cadence);
    }
    assert p.history[..|p.history|] == p.history;
  }

  lemma ShownIsBatch<R, T>(ops: Ops<R, T>, p: World<R, T>, stride: nat, nrSlots: nat, cadence: nat)
    requires Inv(ops, p, cadence) && p.dropped < |p.history|
    requires Enabled(p, Refresh(stride, nrSlots), cadence)
    ensures var step := Scale(stride, cadence);
            var hi := Idx(p.history[|p.history| - 1].at + cadence, step);
            var shown := Shown(ops, p, stride, nrSlots, cadence);
            && |shown| <= nrSlots <= hi
            && Padded(shown, nrSlots) == Buckets(ops, p.history, hi, nrSlots, step)
  {
    hide Idx, Align, Multiple, Scale, Good, Increasing, Enabled, After, Exact;
    RefreshedExact(ops, p, stride, nrSlots, cadence);
    if nrSlots > 0 {
      ExactShowsLastBuckets(ops, After(ops, p, Refresh(stride, nrSlots), cadence).data, p.history, cadence);
    }
  }

  // Main result.  After every run that ends in a fill of a non-empty source,
  // the graph shows the last closed buckets of the whole published history.
  lemma FillEqualsBatch<R(!new), T(!new)>(ops: Ops<R, T>, events: seq<Event<R>>, p: World<R, T>, stride: nat, nrSlots: nat, cadence: nat)
    requires cadence > 0 && Reaches(ops, events, p, cadence)
    requires p.dropped < |p.history| && Scaled(p.data) && Enabled(p, Refresh(stride, nrSlots), cadence)
    ensures var step := Scale(stride, cadence);
            var hi := Idx(p.history[|p.history| - 1].at + cadence, step);
            var shown := Shown(ops, p, stride, nrSlots, cadence);
            && |shown| <= nrSlots <= hi
            && Padded(shown, nrSlots) == Buckets(ops, p.history, hi, nrSlots, step)
  {
    hide Idx, Align, Multiple, Scale, Exact, Increasing, Enabled, After, Shown, Buckets;
    ReachableInv(ops, events, p, cadence);
    ShownIsBatch(ops, p, stride, nrSlots, cadence);
  }

  // Filling a reset graph from the same source shows the same buckets, so the
  // incremental form and a refill from scratch agree up to leading empty slots.
  lemma RefillAgrees<R(!new), T(!new)>(ops: Ops<R, T>, events: seq<Event<R>>, p: World<R, T>, stride: nat, nrSlots: nat, cadence: nat)
    requires cadence > 0 && Reaches(ops, events, p, cadence)
    requires p.dropped < |p.history| && Scaled(p.data) && Enabled(p, Refresh(stride, nrSlots), cadence)
    requires Enabled(p.(data := Cleared(ops.zero, stride, nrSlots, cadence), seen := 0), Refresh(stride, nrSlots), cadence)
    ensures var kept := Shown(ops, p, stride, nrSlots, cadence);
            var again := Shown(ops, p.(data := Cleared(ops.zero, stride, nrSlots, cadence), seen := 0), stride, nrSlots, cadence);
            && |kept| <= nrSlots && |again| <= nrSlots
            && Padded(kept, nrSlots) == Padded(again, nrSlots)
  {
    hide Idx, Align, Multiple, Scale, Exact, Increasing, After, Shown, Buckets;
    ReachableInv(ops, events, p, cadence);
    ShownIsBatch(ops, p, stride, nrSlots, cadence);
    ShownIsBatch(ops, p.(data := Cleared(ops.zero, stride, nrSlots, cadence), seen := 0), stride, nrSlots, cadence);
  }

  // The first bucket of time can be lost: a tip that opened at time zero looks
  // unopened, so the next bucket swallows its samples.  Summing 10 at time 0 and
  // 1 at times 2 and 3 in buckets of two shows 12 where the bucket holds 2.
  lemma ZeroBucketLeaks()
    ensures History(LeakyHistory(), 1) && FillFrom(LeakyHistory(), 1, 2) == 0
    ensures Fill(SumOps(), Cleared(0, 2, 1, 1), 2, 1, LeakyHistory(), 1).dataRing == [Some(12)]
    ensures Buckets(SumOps(), LeakyHistory(), 2, 1, 2) == [Some(2)]
  {
    LeakyFill();
    LeakyBatch();
  }

  function SumOps(): Ops<int, int> {
    Ops((r: int) => r, (a: int, b: int) => a + b, (a: int, n: nat) => a, 0)
  }

  function LeakyHistory(): seq<Record<int>> {
    [Record(0, 10), Record(2, 1), Record(3, 1)]
  }

  lemma FeedAllSnoc<R, T>(ops: Ops<R, T>, s: State<T>, recs: seq<Record<R>>, r: Record<R>)
    requires s.step > 0
    ensures FeedAll(ops, s, []) == s
    ensures FeedAll(ops, s, recs + [r]) == Feed(ops, FeedAll(ops, s, recs), r)
  {
    assert (recs + [r])[..|recs|] == recs;
  }

  lemma LeakySteps()
    ensures var ops: Ops<int, int> := SumOps();
            var s0: State<int> := State(4, Tip(0, 0, 0), [], 2, 1, 1, 2);
            var s1, s2 := s0.(tip := Tip(0, 10, 1)), s0.(tip := Tip(2, 11, 2));
            && Feed(ops, s0, Record(0, 10)) == s1
            && Feed(ops, s1, Record(2, 1)) == s2
            && Feed(ops, s2, Record(3, 1)) == s0.(tip := Tip(4, 0, 0), dataRing := [Some(12)])
  {
  }

  lemma LeakyFill()
    ensures FillFrom(LeakyHistory(), 1, 2) == 0
    ensures Fill(SumOps(), Cleared(0, 2, 1, 1), 2, 1, LeakyHistory(), 1).dataRing == [Some(12)]
  {
    hide Feed, FeedAll;
    var ops, h := SumOps(), LeakyHistory();
    var s0: State<int> := State(4, Tip(0, 0, 0), [], 2, 1, 1, 2);
    LeakySteps();
    FeedAllSnoc(ops, s0, [], h[0]);
    FeedAllSnoc(ops, s0, [h[0]], h[1]);
    FeedAllSnoc(ops, s0, [h[0], h[1]], h[2]);
    assert [] + [h[0]] == [h[0]] && [h[0]] + [h[1]] == [h[0], h[1]] && [h[0], h[1]] + [h[2]] == h;
    assert h[..2] == [h[0], h[1]] && h[..2][..1] == [h[0]];
    assert FirstNew(h[..2][..1], 0) == 0 by {
      assert [h[0]][..0] == [];
    }
    assert h[0..] == h;
  }

  lemma LeakyBatch()
    ensures Buckets(SumOps(), LeakyHistory(), 2, 1, 2) == [Some(2)]
  {
    var h := LeakyHistory();
    assert h[..2] == [Record(0, 10), Record(2, 1)] && h[..2][..1] == [Record(0, 10)];
    assert InBucket(h[..2], 1, 2) == [Record(2, 1)];
    assert InBucket(h, 1, 2) == [Record(2, 1), Record(3, 1)];
    assert [Record(2, 1), Record(3, 1)][..1] == [Record(2, 1)] && [Record(2, 1)][..0] == [];
    assert Folded(SumOps(), [Record(2, 1)]) == 1;
    assert Folded(SumOps(), [Record(2, 1), Record(3, 1)]) == 2;
    assert BucketValue(SumOps(), h, 1, 2) == Some(2);
  }

  // ---- Timestamps the iterator hands out ------------------------------------

  // ReportDataIter::next for the slot `idx`.
  function SlotAt<T>(s: State<T>, idx: nat): int
    requires idx < |s.dataRing|
  {
    s.nextSrcAt - (|s.dataRing| - idx) * s.step
  }

  // ReportDataIter: `idx` counts what the ring iterator has yielded.
  class ReportDataIter<T> {
    const data: State<T>
    var idx: nat

    constructor (data: State<T>)
      ensures this.data == data && idx == 0
    {
      this.data, idx := data, 0;
    }

    method Next() returns (item: Option<(int, Option<T>)>)
      modifies this`idx
      ensures old(idx) < |data.dataRing| ==>
                item == Some((SlotAt(data, old(idx)), data.dataRing[old(idx)])) && idx == old(idx) + 1
      ensures old(idx) >= |data.dataRing| ==> item == None && idx == old(idx)
    {
      if idx >= |data.dataRing| {
        return None;
      }
      var at := data.nextSrcAt - (|data.dataRing| - idx) * data.step;
      item := Some((at, data.dataRing[idx]));
      idx := idx + 1;
    }
  }

  // ReportDataSet::latest_at.
  function LatestAt<T>(s: State<T>): nat {
    if s.nextSrcAt > s.step then s.nextSrcAt - s.step else 0
  }

  // In every reachable world the timestamps never underflow, step by `step`, sit
  // one common offset in [0, step) after their buckets' starts, and end at
  // latest_at.
  lemma SlotTimestamps<R(!new), T(!new)>(ops: Ops<R, T>, events: seq<Event<R>>, w: World<R, T>, idx: nat, cadence: nat)
    requires cadence > 0 && Reaches(ops, events, w, cadence) && w.seen > 0
    requires idx < |w.data.dataRing|
    ensures var s := w.data;
            && s.step > 0
            && 0 <= s.nextSrcAt - s.tip.at < s.step
            && |s.dataRing| <= TipIdx(s)
            && SlotAt(s, idx) == Scale(TipIdx(s) - |s.dataRing| + idx, s.step) + (s.nextSrcAt - s.tip.at)
            && SlotAt(s, idx) >= 0
            && (idx + 1 < |s.dataRing| ==> SlotAt(s, idx + 1) == SlotAt(s, idx) + s.step)
            && (idx + 1 == |s.dataRing| ==> SlotAt(s, idx) == LatestAt(s))
  {
    hide Idx, Align, Multiple, Scale, Increasing, SlotAt, LatestAt, Exact, Reaches;
    ReachableInv(ops, events, w, cadence);
    ExactTimestamps(ops, w.data, w.history[..w.seen], cadence);
    SlotArithmetic(w.data, idx);
  }

  lemma ExactTimestamps<R, T>(ops: Ops<R, T>, s: State<T>, h: seq<Record<R>>, cadence: nat)
    requires h != [] && Exact(ops, s, h, cadence)
    ensures s.step > 0 && s.tip.at == Align(s.nextSrcAt, s.step)
    ensures s.tip.at > 0 && |s.dataRing| <= TipIdx(s)
  {
  }

  lemma SlotArithmetic<T>(s: State<T>, idx: nat)
    requires s.step > 0 && s.tip.at == Align(s.nextSrcAt, s.step)
    requires s.tip.at > 0 && idx < |s.dataRing| <= TipIdx(s)
    ensures 0 <= s.nextSrcAt - s.tip.at < s.step
    ensures SlotAt(s, idx) == Scale(TipIdx(s) - |s.dataRing| + idx, s.step) + (s.nextSrcAt - s.tip.at)
    ensures SlotAt(s, idx) >= 0
    ensures idx + 1 < |s.dataRing| ==> SlotAt(s, idx + 1) == SlotAt(s, idx) + s.step
    ensures idx + 1 == |s.dataRing| ==> SlotAt(s, idx) == LatestAt(s)
  {
    AlignFacts(s.nextSrcAt, s.step);
    MultipleIdx(s.nextSrcAt / s.step, s.step);
    var back := |s.dataRing| - idx;
    assert s.tip.at == TipIdx(s) * s.step;
    assert (TipIdx(s) - back) * s.step == TipIdx(s) * s.step - back * s.step;
    MulMono(0, TipIdx(s) - back, s.step);
    assert (back - 1) * s.step == back * s.step - s.step;
  }
}
