// Exactly when a fresh fill of a graph shows what batch aggregation gives
// (resctl-demo/src/report_ring.rs, ReportData::fill): the case of records in the
// first bucket of time.
module ReportZeroBucket {
  import opened Wrappers
  import opened Windows
  import opened ReportSource
  import opened ReportBuckets
  import opened ReportHistory

  // Callbacks that keep every record apart, so that any two different contents of
  // a bucket show.
  function Collect<R>(): Ops<R, seq<R>> {
    Ops((r: R) => [r], (a: seq<R>, b: seq<R>) => a + b, (a: seq<R>, n: nat) => a, [])
  }

  lemma {:induction false} FoldedLength<R>(rs: seq<Record<R>>)
    ensures |Folded(Collect<R>(), rs)| == |rs|
  {
    if rs != [] {
      FoldedLength(rs[..|rs| - 1]);
    }
  }

  // Bucket `k`, the first after bucket 0, holds more samples than records: in the
  // open tip while nothing is closed, in the ring's first slot afterwards.
  ghost predicate Leaking<R>(s: State<seq<R>>, fed: seq<Record<R>>, k: nat) {
    && s.step > 0 && k > 0 && s.tip.at > 0 && Multiple(s.tip.at, s.step)
    && k <= TipIdx(s) && |s.dataRing| == TipIdx(s) - k
    && (s.dataRing == [] ==> s.tip.nrSamples > 0 && |s.tip.data| > |InBucket(fed, k, s.step)|)
    && (s.dataRing != [] ==> s.dataRing[0].Some? && |s.dataRing[0].value| > |InBucket(fed, k, s.step)|)
  }

  lemma PushLeaks<R>(s: State<seq<R>>, fed: seq<Record<R>>, k: nat)
    requires Leaking(s, fed, k)
    ensures Leaking(Push(Collect(), s), fed, k)
  {
    hide Idx, Multiple, InBucket;
    NextMultiple(s.tip.at, s.step);
  }

  lemma {:induction false} CloseUntilLeaks<R>(s: State<seq<R>>, fed: seq<Record<R>>, k: nat, at: nat)
    requires Leaking(s, fed, k) && Multiple(at, s.step) && s.tip.at <= at
    ensures var t := CloseUntil(Collect(), s, at);
            Leaking(t, fed, k) && t.tip.at == at && SameConfig(s, t)
    decreases at - s.tip.at
  {
    hide Idx, Multiple, Leaking, Push;
    if s.tip.at < at {
      PushLeaks(s, fed, k);
      PushSteps(s);
      ApartWhenLeaking(s, fed, k, at);
      CloseUntilLeaks(Push(Collect(), s), fed, k, at);
    }
  }

  lemma PushSteps<R>(s: State<seq<R>>)
    ensures Push(Collect(), s).tip.at == s.tip.at + s.step && SameConfig(s, Push(Collect(), s))
  {
  }

  lemma ApartWhenLeaking<R>(s: State<seq<R>>, fed: seq<Record<R>>, k: nat, at: nat)
    requires Leaking(s, fed, k) && Multiple(at, s.step) && s.tip.at < at
    ensures s.step > 0 && s.tip.at + s.step <= at
  {
    hide Idx, Multiple;
    MultiplesApart(s.tip.at, at, s.step);
  }

  lemma AccumulatedLeaks<R>(s: State<seq<R>>, fed: seq<Record<R>>, k: nat, rec: Record<R>)
    requires Leaking(s, fed, k) && Idx(rec.at, s.step) == TipIdx(s)
    ensures Leaking(Accumulated(Collect(), s, rec), fed + [rec], k)
  {
    hide Idx, Multiple, InBucket;
    InBucketSnoc(fed, rec, k, s.step);
  }

  lemma FeedLeaks<R>(s: State<seq<R>>, fed: seq<Record<R>>, k: nat, rec: Record<R>)
    requires Leaking(s, fed, k) && s.stride > 0 && s.srcCadence > 0 && Scaled(s)
    requires Multiple(rec.at, s.srcCadence) && s.tip.at <= Align(rec.at, s.step)
    ensures var t := Feed(Collect(), s, rec);
            Leaking(t, fed + [rec], k) && SameConfig(s, t) && t.tip.at == Align(rec.at + s.srcCadence, s.step)
  {
    hide Idx, Align, Multiple, LastOfBucket, Scale;
    var at := Align(rec.at, s.step);
    AlignFacts(rec.at, s.step);
    CloseUntilLeaks(s, fed, k, at);
    var c := CloseUntil(Collect(), s, at);
    AccumulatedLeaks(c, fed, k, rec);
    ClosesBucket(rec.at, s.stride, s.srcCadence);
    if LastOfBucket(rec.at, s.step, s.stride, s.srcCadence) {
      PushLeaks(Accumulated(Collect(), c, rec), fed + [rec], k);
    }
  }

  // The first record after bucket 0 takes over the samples of the tip.
  lemma FirstLeak<R>(s: State<seq<R>>, fed: seq<Record<R>>, rec: Record<R>)
    requires s.stride > 0 && s.srcCadence > 0 && s.step > 0 && Scaled(s) && Multiple(rec.at, s.srcCadence)
    requires s.tip.at == 0 && s.dataRing == [] && fed != []
    requires |s.tip.data| == s.tip.nrSamples == |fed|
    requires rec.at >= s.step && forall i :: 0 <= i < |fed| ==> fed[i].at < s.step
    ensures var t := Feed(Collect(), s, rec);
            Leaking(t, fed + [rec], Idx(rec.at, s.step)) && SameConfig(s, t)
            && t.tip.at == Align(rec.at + s.srcCadence, s.step)
  {
    hide Idx, Align, Multiple, LastOfBucket, Scale, InBucket;
    var k := Idx(rec.at, s.step);
    AlignFacts(rec.at, s.step);
    FirstIndices(fed, s.step);
    InBucketNone(fed, k, s.step);
    InBucketSnoc(fed, rec, k, s.step);
    var o := Opened(s, Align(rec.at, s.step));
    var a := Accumulated(Collect(), o, rec);
    assert CloseUntil(Collect<R>(), o, Align(rec.at, s.step)) == o;
    assert Leaking(a, fed + [rec], k);
    ClosesBucket(rec.at, s.stride, s.srcCadence);
    if LastOfBucket(rec.at, s.step, s.stride, s.srcCadence) {
      PushLeaks(a, fed + [rec], k);
    }
  }

  lemma {:induction false} FeedAllLeaks<R>(s: State<seq<R>>, fed: seq<Record<R>>, recs: seq<Record<R>>)
    requires s.stride > 0 && s.srcCadence > 0 && s.step > 0 && Scaled(s) && History(recs, s.srcCadence) && recs != []
    requires s.tip.at == 0 && s.dataRing == [] && fed != []
    requires |s.tip.data| == s.tip.nrSamples == |fed|
    requires recs[0].at >= s.step && forall i :: 0 <= i < |fed| ==> fed[i].at < s.step
    ensures var t := FeedAll(Collect(), s, recs);
            Leaking(t, fed + recs, Idx(recs[0].at, s.step))
            && t.tip.at == Align(recs[|recs| - 1].at + s.srcCadence, s.step)
  {
    hide Idx, Align, Multiple, Scale, Leaking, Feed;
    var n := |recs| - 1;
    var init, last := recs[..n], recs[n];
    assert fed + recs == (fed + init) + [last];
    if n == 0 {
      assert fed + init == fed;
      FirstLeak(s, fed, last);
    } else {
      FeedAllLeaks(s, fed, init);
      MultiplesApart(recs[n - 1].at, last.at, s.srcCadence);
      IdxMono(recs[n - 1].at + s.srcCadence, last.at, s.step);
      FeedLeaks(FeedAll(Collect(), s, init), fed + init, Idx(recs[0].at, s.step), last);
    }
  }

  // ---- The leak shows -------------------------------------------------------------

  lemma BucketLength<R>(h: seq<Record<R>>, k: nat, step: nat)
    requires step > 0
    ensures var v := BucketValue(Collect<R>(), h, k, step);
            && (v.Some? <==> InBucket(h, k, step) != [])
            && (v.Some? ==> |v.value| == |InBucket(h, k, step)|)
  {
    FoldedLength(InBucket(h, k, step));
  }

  lemma {:induction false} InBucketSome<R>(h: seq<Record<R>>, i: nat, k: nat, step: nat)
    requires step > 0 && i < |h| && Idx(h[i].at, step) == k
    ensures InBucket(h, k, step) != []
  {
    hide Idx;
    if i < |h| - 1 {
      InBucketSome(h[..|h| - 1], i, k, step);
    }
  }

  // The window either includes bucket 0, which the ring lacks, or includes bucket
  // `k`, whose slot holds too much.
  lemma LeakDiffers<R>(t: State<seq<R>>, h: seq<Record<R>>, k: nat, n: nat)
    requires Leaking(t, h, k) && k <= n <= TipIdx(t) <= n + 1
    requires h != [] && Idx(h[0].at, t.step) == 0
    ensures |Truncated(t.dataRing, n)| <= n
    ensures Padded(Truncated(t.dataRing, n), n) != Buckets(Collect(), h, TipIdx(t), n, t.step)
  {
    hide Idx, Multiple, InBucket, BucketValue;
    var hi := TipIdx(t);
    var shown := Padded(t.dataRing, n);
    var batch := Buckets(Collect(), h, hi, n, t.step);
    if hi == n {
      InBucketSome(h, 0, 0, t.step);
      BucketLength(h, 0, t.step);
      assert shown[0] == None && batch[0] == BucketValue(Collect<R>(), h, 0, t.step);
    } else {
      BucketLength(h, k, t.step);
      assert shown[k - 1] == t.dataRing[0] && batch[k - 1] == BucketValue(Collect<R>(), h, k, t.step);
    }
  }

  // The records of bucket 0 come first.
  lemma SplitFirstBucket<R>(h: seq<Record<R>>, step: nat, cadence: nat) returns (z: nat)
    requires History(h, cadence) && h != [] && step > 0 && h[|h| - 1].at >= step
    requires exists i :: 0 <= i < |h| && h[i].at < step
    ensures 0 < z < |h|
    ensures forall i :: 0 <= i < z ==> h[i].at < step
    ensures h[z].at >= step
  {
    var i :| 0 <= i < |h| && h[i].at < step;
    z := i + 1;
    while h[z].at < step
      invariant 0 < z < |h|
      invariant h[z - 1].at < step
      decreases |h| - z
    {
      z := z + 1;
    }
    forall j | 0 <= j < z ensures h[j].at < step {
      assert h[j].at <= h[z - 1].at;
    }
  }

  // The tip after feeding the incomplete first bucket from a reset.
  lemma LostTip<R>(c: State<seq<R>>, h: seq<Record<R>>, z: nat)
    requires Fresh(Collect<R>(), c) && c.stride > 0 && Scaled(c) && z <= |h|
    requires forall i :: 0 <= i < z ==> h[i].at < c.step && h[i].at + c.srcCadence != c.step
    ensures var t := FeedAll(Collect(), c, h[..z]);
            && t.tip.at == 0 && t.dataRing == [] && |t.tip.data| == t.tip.nrSamples == z && SameConfig(c, t)
            && FeedAll(Collect(), c, h) == FeedAll(Collect(), t, h[z..])
  {
    hide Scale, FeedAll, Folded;
    assert h == h[..z] + h[z..];
    FeedAllConcat(Collect(), c, h[..z], h[z..]);
    FeedFirstBucket(Collect(), c, h[..z]);
    FoldedLength(h[..z]);
  }

  // What feeding such a history from a reset leads to.
  lemma LostLeaks<R>(c: State<seq<R>>, h: seq<Record<R>>) returns (k: nat)
    requires Fresh(Collect<R>(), c) && c.stride > 0 && c.srcCadence > 0 && Scaled(c) && History(h, c.srcCadence) && h != []
    requires ZeroBucketLost(h, c.nrSlots, c.step, c.srcCadence)
    ensures var t := FeedAll(Collect(), c, h);
            && Leaking(t, h, k) && k <= c.nrSlots
            && t.tip.at == Align(h[|h| - 1].at + c.srcCadence, c.step)
            && SameConfig(c, t)
  {
    hide Idx, Align, Multiple, Scale, Leaking, FeedAll, Folded, Collect;
    var z := SplitFirstBucket(h, c.step, c.srcCadence);
    LostTip(c, h, z);
    SuffixHistory(h, z, c.srcCadence);
    assert h[..z] + h[z..] == h;
    FeedAllLeaks(FeedAll(Collect(), c, h[..z]), h[..z], h[z..]);
    k := Idx(h[z].at, c.step);
    LaterRecords(h, z, c.srcCadence);
    IdxMono(h[z].at, h[|h| - 1].at, c.step);
  }

  // The last closed bucket is the newest record's or the one before it.
  lemma ClosedUpTo(newest: nat, stride: nat, cadence: nat)
    requires stride > 0 && cadence > 0 && Multiple(newest, cadence) && Scale(stride, cadence) > 0
    ensures var step := Scale(stride, cadence);
            Idx(newest, step) <= Idx(newest + cadence, step) <= Idx(newest, step) + 1
  {
    hide Idx, Align, Multiple, Scale, LastOfBucket;
    var step := Scale(stride, cadence);
    ClosesBucket(newest, stride, cadence);
    AlignFacts(newest, step);
    AlignFacts(newest + cadence, step);
    IdxMono(newest, newest + cadence, step);
    NextMultiple(Align(newest, step), step);
  }

  lemma NothingExpired<R>(h: seq<Record<R>>, dropped: nat, n: nat, step: nat, cadence: nat)
    requires step > 0 && dropped < |h| && HeldBack(h, dropped, 0, n, step)
    requires ZeroBucketLost(h[dropped..], n, step, cadence)
    ensures dropped == 0 && h[dropped..] == h
    ensures FillFrom(h[dropped..], n, step) == 0
  {
    hide FillFrom, Idx;
    FillFromIdx(h[dropped..], n, step);
    ScaleZero(step);
    FirstIsBelow(h, dropped, FillFrom(h[dropped..], n, step));
  }

  lemma ScaleZero(step: nat)
    ensures Scale(0, step) == 0
  {
  }

  // Such a fill feeds the whole history.
  lemma LostFill<R>(h: seq<Record<R>>, dropped: nat, stride: nat, n: nat, cadence: nat)
    requires History(h, cadence) && dropped < |h| && stride > 0 && Scale(stride, cadence) > 0
    requires HeldBack(h, dropped, 0, n, Scale(stride, cadence))
    requires ZeroBucketLost(h[dropped..], n, Scale(stride, cadence), cadence)
    ensures h[dropped..] == h && 0 == FillFrom(h[dropped..], n, Scale(stride, cadence))
    ensures var t := FeedAll(Collect<R>(), Cleared([], stride, n, cadence).(nextSrcAt := h[|h| - 1].at + cadence), h);
            Fill(Collect<R>(), Cleared([], stride, n, cadence), stride, n, h[dropped..], cadence)
            == t.(dataRing := Truncated(t.dataRing, n))
  {
    hide Idx, Align, Multiple, Scale, FeedAll, FirstNew, FillFrom, Truncated, Increasing, HeldBack, ZeroBucketLost, Fill;
    NothingExpired(h, dropped, n, Scale(stride, cadence), cadence);
    var m := FillIsFeed(Collect<R>(), Cleared([], stride, n, cadence), h, dropped, cadence);
    FirstIsBelow(h, m, 0);
    assert h[0..] == h;
  }

  lemma LostStartsAtZero<R>(h: seq<Record<R>>, n: nat, step: nat, cadence: nat)
    requires History(h, cadence) && h != [] && step > 0 && ZeroBucketLost(h, n, step, cadence)
    ensures Idx(h[0].at, step) == 0
  {
    var i :| 0 <= i < |h| && h[i].at < step;
    FirstBucket(h[0].at, step);
  }

  lemma FreshLeaks<R>(h: seq<Record<R>>, dropped: nat, stride: nat, n: nat, cadence: nat)
    requires History(h, cadence) && dropped < |h| && stride > 0 && Scale(stride, cadence) > 0
    requires HeldBack(h, dropped, 0, n, Scale(stride, cadence))
    requires ZeroBucketLost(h[dropped..], n, Scale(stride, cadence), cadence)
    requires 0 <= FillFrom(h[dropped..], n, Scale(stride, cadence))
    ensures var step := Scale(stride, cadence);
            var hi := Idx(h[|h| - 1].at + cadence, step);
            var t := Fill(Collect<R>(), Cleared([], stride, n, cadence), stride, n, h[dropped..], cadence);
            |t.dataRing| <= n <= hi && Padded(t.dataRing, n) != Buckets(Collect(), h, hi, n, step)
  {
    hide Idx, Align, Multiple, Scale, FeedAll, Fill, Leaking, FillFrom, Truncated, Increasing, Padded, Buckets, HeldBack;
    var step := Scale(stride, cadence);
    LostFill(h, dropped, stride, n, cadence);
    var c := Cleared<seq<R>>([], stride, n, cadence).(nextSrcAt := h[|h| - 1].at + cadence);
    var k := LostLeaks(c, h);
    ClosedUpTo(h[|h| - 1].at, stride, cadence);
    AlignFacts(h[|h| - 1].at + cadence, step);
    LostStartsAtZero(h, n, step, cadence);
    LeakDiffers(FeedAll(Collect(), c, h), h, k, n);
  }

  // Exactly when a fresh fill shows the batch aggregation, for callbacks that lose
  // nothing: unless it reaches back to time zero, reads samples of bucket 0, and
  // lacks the sample that completes that bucket.
  lemma FreshFillIff<R>(h: seq<Record<R>>, dropped: nat, stride: nat, n: nat, cadence: nat)
    requires History(h, cadence) && dropped < |h| && stride > 0 && Scale(stride, cadence) > 0
    requires HeldBack(h, dropped, 0, n, Scale(stride, cadence))
    ensures 0 <= FillFrom(h[dropped..], n, Scale(stride, cadence))
    ensures var step := Scale(stride, cadence);
            var hi := Idx(h[|h| - 1].at + cadence, step);
            var t := Fill(Collect<R>(), Cleared([], stride, n, cadence), stride, n, h[dropped..], cadence);
            && |t.dataRing| <= n <= hi
            && (Padded(t.dataRing, n) == Buckets(Collect(), h, hi, n, step)
                <==> !ZeroBucketLost(h[dropped..], n, step, cadence))
  {
    hide Idx, Align, Multiple, Scale, Fill, FillFrom, ZeroBucketLost, Padded, Buckets, Exact, Increasing;
    var step := Scale(stride, cadence);
    FillFromIdx(h[dropped..], n, step);
    IdxMono(h[|h| - 1].at, h[|h| - 1].at + cadence, step);
    var s := Cleared<seq<R>>([], stride, n, cadence);
    if ZeroBucketLost(h[dropped..], n, step, cadence) {
      FreshLeaks(h, dropped, stride, n, cadence);
    } else if n == 0 {
      FillWithoutSlots(Collect(), s, stride, h[dropped..], cadence);
      NoSlots(Fill(Collect<R>(), s, stride, 0, h[dropped..], cadence), h, Idx(h[|h| - 1].at + cadence, step), step);
    } else {
      FreshFill(Collect(), s, h, dropped, cadence);
      var t := Fill(Collect<R>(), s, stride, n, h[dropped..], cadence);
      FillKeepsConfig(Collect(), s, stride, n, h[dropped..], cadence);
      ExactShowsLastBuckets(Collect(), t, h, cadence);
    }
  }

  lemma NoSlots<R>(t: State<seq<R>>, h: seq<Record<R>>, hi: nat, step: nat)
    requires step > 0 && t.dataRing == []
    ensures Padded(t.dataRing, 0) == Buckets(Collect(), h, hi, 0, step)
  {
  }
}
