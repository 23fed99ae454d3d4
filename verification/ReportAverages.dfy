// What a graph with averaging callbacks shows (resctl-demo/src/report_ring.rs,
// ReportData; resctl-demo/src/graph.rs, the averaging callbacks): sums divided by
// the number of samples.
module ReportAverages {
  import opened Wrappers
  import opened Windows
  import opened ReportSource
  import opened ReportBuckets
  import opened ReportHistory
  import opened ReportDataSets

  // Samples are added up, and the sum is divided by their number.
  function AverageOps<R>(sel: R -> real): Ops<R, real> {
    Ops(sel, (a: real, b: real) => a + b, (a: real, n: nat) => if n == 0 then a else a / n as real, 0.0)
  }

  // The samples whose time falls into the `k`-th stretch of `step`: their sum and
  // their number.
  function SumIn<R>(h: seq<Record<R>>, k: nat, step: nat, sel: R -> real): real
    requires step > 0
  {
    if h == [] then 0.0
    else (if h[0].at / step == k then sel(h[0].rep) else 0.0) + SumIn(h[1..], k, step, sel)
  }

  function CountIn<R>(h: seq<Record<R>>, k: nat, step: nat): nat
    requires step > 0
  {
    if h == [] then 0 else (if h[0].at / step == k then 1 else 0) + CountIn(h[1..], k, step)
  }

  lemma {:induction false} SumInSnoc<R>(h: seq<Record<R>>, r: Record<R>, k: nat, step: nat, sel: R -> real)
    requires step > 0
    ensures SumIn(h + [r], k, step, sel) == SumIn(h, k, step, sel) + if r.at / step == k then sel(r.rep) else 0.0
    ensures CountIn(h + [r], k, step) == CountIn(h, k, step) + if r.at / step == k then 1 else 0
  {
    if h == [] {
      assert h + [r] == [r] && [r][1..] == [];
    } else {
      assert (h + [r])[0] == h[0] && (h + [r])[1..] == h[1..] + [r];
      SumInSnoc(h[1..], r, k, step, sel);
    }
  }

  lemma {:induction false} BucketSums<R>(h: seq<Record<R>>, k: nat, step: nat, sel: R -> real)
    requires step > 0
    ensures Folded(AverageOps(sel), InBucket(h, k, step)) == SumIn(h, k, step, sel)
    ensures |InBucket(h, k, step)| == CountIn(h, k, step)
  {
    if h != [] {
      var n := |h| - 1;
      BucketSums(h[..n], k, step, sel);
      assert h == h[..n] + [h[n]];
      SumInSnoc(h[..n], h[n], k, step, sel);
      var rs := InBucket(h[..n], k, step);
      assert (rs + [h[n]])[..|rs|] == rs && rs + [] == rs;
    }
  }

  // `slot` is the average of the samples in the `k`-th stretch: nothing if there is
  // none, else a value that gives their sum when multiplied by their number.
  ghost predicate IsAverage<R>(slot: Option<real>, h: seq<Record<R>>, k: nat, step: nat, sel: R -> real)
    requires step > 0
  {
    && (slot.Some? <==> CountIn(h, k, step) > 0)
    && (slot.Some? ==> slot.value * CountIn(h, k, step) as real == SumIn(h, k, step, sel))
  }

  lemma BucketIsAverage<R>(h: seq<Record<R>>, k: nat, step: nat, sel: R -> real)
    requires step > 0
    ensures IsAverage(BucketValue(AverageOps(sel), h, k, step), h, k, step, sel)
  {
    hide InBucket, Folded, SumIn, CountIn;
    BucketSums(h, k, step, sel);
    if CountIn(h, k, step) > 0 {
      DividedBack(SumIn(h, k, step, sel), CountIn(h, k, step));
    }
  }

  lemma DividedBack(sum: real, n: nat)
    requires n > 0
    ensures sum / n as real * n as real == sum
  {
  }

  // After every run, each shown slot is the average of its own samples.
  lemma FillShowsAverages<R(!new)>(sel: R -> real, events: seq<Event<R>>, p: World<R, real>, stride: nat, nrSlots: nat, cadence: nat)
    requires cadence > 0 && Reaches(AverageOps(sel), events, p, cadence)
    requires p.dropped < |p.history| && Scaled(p.data) && Enabled(p, Refresh(stride, nrSlots), cadence)
    ensures var step := stride * cadence;
            var shown := Shown(AverageOps(sel), p, stride, nrSlots, cadence);
            && step > 0 && |shown| <= nrSlots
            && var hi := (p.history[|p.history| - 1].at + cadence) / step;
               && nrSlots <= hi
               && forall i :: 0 <= i < nrSlots ==>
                    IsAverage(Padded(shown, nrSlots)[i], p.history, hi - nrSlots + i, step, sel)
  {
    hide Reaches, Enabled, Shown, Padded, BucketValue, IsAverage, AverageOps;
    FillEqualsBatch(AverageOps(sel), events, p, stride, nrSlots, cadence);
    EnabledSteps(p, stride, nrSlots, cadence);
    var step := stride * cadence;
    var hi := (p.history[|p.history| - 1].at + cadence) / step;
    forall i | 0 <= i < nrSlots
      ensures IsAverage(Padded(Shown(AverageOps(sel), p, stride, nrSlots, cadence), nrSlots)[i],
                        p.history, hi - nrSlots + i, step, sel)
    {
      BucketIsAverage(p.history, hi - nrSlots + i, step, sel);
    }
  }

  lemma EnabledSteps<R, T>(p: World<R, T>, stride: nat, nrSlots: nat, cadence: nat)
    requires cadence > 0 && p.dropped <= |p.history| && Enabled(p, Refresh(stride, nrSlots), cadence)
    ensures Scale(stride, cadence) == stride * cadence > 0
  {
  }

  // The same from the files up, for a graph that a caller checks against the
  // retention period.
  lemma SetShowsAverages<R(!new)>(sel: R -> real, cfg: Config, calls: seq<Call<R>>, s: State<real>)
    requires cfg.Valid() && calls != [] && SetReaches(AverageOps(sel), cfg, false, calls, s)
    requires ValidRun(cfg, Polls(calls)) && RingAfter(cfg, Polls(calls)) != []
    ensures var c := calls[|calls| - 1];
            var h := Known(cfg, Polls(calls));
            var step := c.stride * cfg.cadence;
            && h != [] && step > 0 && |s.dataRing| <= c.nrSlots
            && var hi := (h[|h| - 1].at + cfg.cadence) / step;
               && c.nrSlots <= hi
               && forall i :: 0 <= i < c.nrSlots ==>
                    IsAverage(Padded(s.dataRing, c.nrSlots)[i], h, hi - c.nrSlots + i, step, sel)
  {
    hide SetReaches, ValidRun, RingAfter, Known, Polls, Padded, BucketValue, IsAverage, AverageOps;
    SetShowsBatch(AverageOps(sel), cfg, calls, s);
    var c := calls[|calls| - 1];
    var h := Known(cfg, Polls(calls));
    var step := c.stride * cfg.cadence;
    assert step == Scale(c.stride, cfg.cadence);
    var hi := (h[|h| - 1].at + cfg.cadence) / step;
    forall i | 0 <= i < c.nrSlots
      ensures IsAverage(Padded(s.dataRing, c.nrSlots)[i], h, hi - c.nrSlots + i, step, sel)
    {
      BucketIsAverage(h, hi - c.nrSlots + i, step, sel);
    }
  }
}
