// Incremental bucketing of report records for the demo's graphs
// (resctl-demo/src/report_ring.rs, ReportDataTip, ReportData, ReportDataIter).
//
// The source keeps an open bucket (`tip`) and a bounded ring of closed buckets,
// and skips records it believes it no longer needs. The reference is plain
// bucketing of the whole history: bucket `k` holds the records with
// `at / step == k`.
module ReportBuckets {
  import opened Wrappers
  import opened Windows
  import opened ReportSource

  // The three callbacks a graph supplies; `zero` is the default value.
  datatype Ops<!R, !T> = Ops(sel: R -> T, acc: (T, T) -> T, aggr: (T, nat) -> T, zero: T)

  datatype Tip<T> = Tip(at: nat, data: T, nrSamples: nat)

  // The mutable fields of ReportData.
  datatype State<T> = State(
    nextSrcAt: nat,
    tip: Tip<T>,
    dataRing: seq<Option<T>>,
    stride: nat,
    nrSlots: nat,
    srcCadence: nat,
    step: nat)

  // ---- Reference: buckets of the whole history ------------------------------

  function InBucket<R>(h: seq<Record<R>>, k: nat, step: nat): (rs: seq<Record<R>>)
    requires step > 0
    ensures |rs| <= |h|
  {
    if h == [] then []
    else
      var last := h[|h| - 1];
      InBucket(h[..|h| - 1], k, step) + (if Idx(last.at, step) == k then [last] else [])
  }

  function Folded<R, T>(ops: Ops<R, T>, rs: seq<Record<R>>): T {
    if rs == [] then ops.zero
    else ops.acc(Folded(ops, rs[..|rs| - 1]), ops.sel(rs[|rs| - 1].rep))
  }

  // Nothing for an empty bucket, else the aggregate of its records, told how many
  // they are.
  function BucketValue<R, T>(ops: Ops<R, T>, h: seq<Record<R>>, k: nat, step: nat): Option<T>
    requires step > 0
  {
    var rs := InBucket(h, k, step);
    if rs == [] then None else Some(ops.aggr(Folded(ops, rs), |rs|))
  }

  // The `n` buckets before bucket `hi`, oldest first.
  function Buckets<R, T>(ops: Ops<R, T>, h: seq<Record<R>>, hi: nat, n: nat, step: nat): seq<Option<T>>
    requires step > 0 && n <= hi
  {
    seq(n, i requires 0 <= i < n => BucketValue(ops, h, hi - n + i, step))
  }

  // `step` is kept at stride times cadence.
  predicate Scaled<T>(s: State<T>) {
    s.step == Scale(s.stride, s.srcCadence)
  }

  // ---- What the source computes ---------------------------------------------

  function Cleared<T>(zero: T, stride: nat, nrSlots: nat, cadence: nat): State<T> {
    State(0, Tip(0, zero, 0), [], stride, nrSlots, cadence, Scale(stride, cadence))
  }

  function Closed<T>(data: T, nrSamples: nat, aggr: (T, nat) -> T): Option<T> {
    if nrSamples > 0 then Some(aggr(data, nrSamples)) else None
  }

  // Consume the open bucket into the ring and open the next one.
  function Push<R, T>(ops: Ops<R, T>, s: State<T>): State<T> {
    s.(tip := Tip(s.tip.at + s.step, ops.zero, 0),
       dataRing := s.dataRing + [Closed(s.tip.data, s.tip.nrSamples, ops.aggr)])
  }

  function CloseUntil<R, T>(ops: Ops<R, T>, s: State<T>, at: nat): State<T>
    requires s.step > 0
    decreases if s.tip.at < at then at - s.tip.at else 0
  {
    if s.tip.at < at then CloseUntil(ops, Push(ops, s), at) else s
  }

  function Accumulated<R, T>(ops: Ops<R, T>, s: State<T>, rec: Record<R>): State<T> {
    s.(tip := Tip(s.tip.at, ops.acc(s.tip.data, ops.sel(rec.rep)), s.tip.nrSamples + 1))
  }

  function Opened<T>(s: State<T>, at: nat): State<T> {
    if s.tip.at == 0 then s.(tip := s.tip.(at := at)) else s
  }

  // The record of the bucket's last cadence completes the bucket.
  predicate LastOfBucket(at: nat, step: nat, stride: nat, cadence: nat)
    requires step > 0
  {
    at % step == (stride - 1) * cadence
  }

  function Feed<R, T>(ops: Ops<R, T>, s: State<T>, rec: Record<R>): State<T>
    requires s.step > 0
  {
    var at := Align(rec.at, s.step);
    var s' := Accumulated(ops, CloseUntil(ops, Opened(s, at), at), rec);
    if LastOfBucket(rec.at, s.step, s.stride, s.srcCadence) then Push(ops, s') else s'
  }

  ghost predicate SameConfig<T>(s: State<T>, t: State<T>) {
    t.step == s.step && t.stride == s.stride && t.nrSlots == s.nrSlots && t.srcCadence == s.srcCadence
    && t.nextSrcAt == s.nextSrcAt
  }

  lemma {:induction false} CloseUntilKeepsConfig<R, T>(ops: Ops<R, T>, s: State<T>, at: nat)
    requires s.step > 0
    ensures SameConfig(s, CloseUntil(ops, s, at))
    decreases if s.tip.at < at then at - s.tip.at else 0
  {
    if s.tip.at < at {
      CloseUntilKeepsConfig(ops, Push(ops, s), at);
    }
  }

  function FeedAll<R, T>(ops: Ops<R, T>, s: State<T>, recs: seq<Record<R>>): (t: State<T>)
    requires s.step > 0
    ensures SameConfig(s, t)
  {
    if recs == [] then s
    else
      var t := FeedAll(ops, s, recs[..|recs| - 1]);
      CloseUntilKeepsConfig(ops, Opened(t, Align(recs[|recs| - 1].at, t.step)), Align(recs[|recs| - 1].at, t.step));
      Feed(ops, t, recs[|recs| - 1])
  }

  // Index from which on all records are new, found by scanning from the back.
  function FirstNew<R>(src: seq<Record<R>>, from: nat): (start: nat)
    ensures start <= |src|
    ensures forall i :: start <= i < |src| ==> src[i].at >= from
    ensures start > 0 ==> src[start - 1].at < from
  {
    if src == [] || src[|src| - 1].at < from then |src|
    else FirstNew(src[..|src| - 1], from)
  }

  function Truncated<T>(ring: seq<Option<T>>, nrSlots: nat): seq<Option<T>> {
    if |ring| > nrSlots then ring[|ring| - nrSlots..] else ring
  }

  function Reconfigured<T>(zero: T, s: State<T>, stride: nat, nrSlots: nat, cadence: nat): State<T> {
    if stride != s.stride || nrSlots != s.nrSlots || s.srcCadence != cadence
    then Cleared(zero, stride, nrSlots, cadence)
    else s
  }

  // Earliest record time a fill looks at; negative where the source's unsigned
  // subtraction would underflow.
  function FillFrom<R>(src: seq<Record<R>>, nrSlots: nat, step: nat): int
    requires step > 0 && src != []
  {
    Align(src[|src| - 1].at, step) - nrSlots * step
  }

  function Fill<R, T>(ops: Ops<R, T>, s: State<T>, stride: nat, nrSlots: nat, src: seq<Record<R>>, cadence: nat): State<T>
    requires stride > 0 && cadence > 0
    requires Scale(stride, cadence) > 0
    requires Scaled(s)
    requires src != [] ==> 0 <= FillFrom(src, nrSlots, Scale(stride, cadence))
  {
    var c := Reconfigured(ops.zero, s, stride, nrSlots, cadence);
    if src == [] then c
    else
      var newest := src[|src| - 1].at;
      var from := Max(c.nextSrcAt, FillFrom(src, nrSlots, c.step));
      var start := FirstNew(src, from);
      var t := FeedAll(ops, c.(nextSrcAt := newest + cadence), src[start..]);
      t.(dataRing := Truncated(t.dataRing, nrSlots))
  }

  // ---- The class, refining Fill ---------------------------------------------

  class ReportData<R, T> {
    const ops: Ops<R, T>
    var nextSrcAt: nat
    var tip: Tip<T>
    var dataRing: seq<Option<T>>
    var stride: nat
    var nrSlots: nat
    var srcCadence: nat
    var step: nat

    ghost function View(): State<T>
      reads this
    {
      State(nextSrcAt, tip, dataRing, stride, nrSlots, srcCadence, step)
    }

    constructor (ops: Ops<R, T>)
      ensures this.ops == ops
      ensures View() == Cleared(ops.zero, 0, 0, 0)
    {
      this.ops := ops;
      nextSrcAt, tip, dataRing := 0, Tip(0, ops.zero, 0), [];
      stride, nrSlots, srcCadence, step := 0, 0, 0, 0;
    }

    method Clear()
      modifies this
      ensures View() == old(View()).(nextSrcAt := 0, tip := Tip(0, ops.zero, 0), dataRing := [])
    {
      nextSrcAt, tip, dataRing := 0, Tip(0, ops.zero, 0), [];
    }

    // Tip::consume followed by the ring push both call sites make.
    method PushTip()
      modifies this
      ensures View() == Push(ops, old(View()))
    {
      var v := None;
      if tip.nrSamples > 0 {
        v := Some(ops.aggr(tip.data, tip.nrSamples));
      }
      tip := Tip(tip.at + step, ops.zero, 0);
      dataRing := dataRing + [v];
    }

    method FeedRecord(rec: Record<R>)
      requires step > 0
      modifies this
      ensures View() == Feed(ops, old(View()), rec)
      ensures step == old(step)
    {
      var at := Align(rec.at, step);
      if tip.at == 0 {
        tip := tip.(at := at);
      }
      ghost var before := View();
      CloseUntilKeepsConfig(ops, before, at);
      while tip.at < at
        invariant step > 0
        invariant CloseUntil(ops, View(), at) == CloseUntil(ops, before, at)
        decreases if tip.at < at then at - tip.at else 0
      {
        PushTip();
      }
      CloseUntilKeepsConfig(ops, View(), at);
      tip := Tip(tip.at, ops.acc(tip.data, ops.sel(rec.rep)), tip.nrSamples + 1);
      if LastOfBucket(rec.at, step, stride, srcCadence) {
        PushTip();
      }
    }

    // Walks back from the newest record while the records are still due.
    static method ScanNew(src: seq<Record<R>>, from: nat) returns (start: nat)
      ensures start == FirstNew(src, from)
    {
      start := |src|;
      var i := |src|;
      assert src[..i] == src;
      while i > 0
        invariant 0 <= i == start <= |src|
        invariant FirstNew(src[..i], from) == FirstNew(src, from)
        decreases i
      {
        i := i - 1;
        assert src[..i + 1][..i] == src[..i];
        if src[i].at < from {
          break;
        }
        start := i;
      }
    }

    method FeedRecords(recs: seq<Record<R>>)
      requires step > 0
      modifies this
      ensures View() == FeedAll(ops, old(View()), recs)
    {
      for j := 0 to |recs|
        invariant step > 0
        invariant View() == FeedAll(ops, old(View()), recs[..j])
      {
        assert recs[..j + 1][..j] == recs[..j];
        FeedRecord(recs[j]);
      }
      assert recs[..|recs|] == recs;
    }

    method Truncate()
      modifies this
      ensures View() == old(View()).(dataRing := Truncated(old(dataRing), nrSlots))
    {
      while |dataRing| > nrSlots
        invariant Truncated(dataRing, nrSlots) == Truncated(old(dataRing), nrSlots)
        invariant View() == old(View()).(dataRing := dataRing)
        decreases |dataRing|
      {
        dataRing := dataRing[1..];
      }
    }

    method Reconfigure(newStride: nat, newSlots: nat, cadence: nat)
      modifies this
      ensures View() == Reconfigured(ops.zero, old(View()), newStride, newSlots, cadence)
    {
      if newStride != stride || newSlots != nrSlots || srcCadence != cadence {
        Clear();
        stride, nrSlots, srcCadence := newStride, newSlots, cadence;
        step := Scale(newStride, cadence);
      }
    }

    method FillFromSource(newStride: nat, newSlots: nat, src: seq<Record<R>>, cadence: nat)
      requires newStride > 0 && cadence > 0 && Scale(newStride, cadence) > 0
      requires Scaled(View())
      requires src != [] ==> 0 <= FillFrom(src, newSlots, Scale(newStride, cadence))
      modifies this
      ensures View() == Fill(ops, old(View()), newStride, newSlots, src, cadence)
    {
      hide FeedAll, FirstNew, Truncated, Align, Multiple;
      Reconfigure(newStride, newSlots, cadence);
      if |src| == 0 {
        return;
      }

      var newest := src[|src| - 1].at;
      nextSrcAt := Max(nextSrcAt, Align(newest, step) - newSlots * step);
      var start := ScanNew(src, nextSrcAt);
      nextSrcAt := newest + srcCadence;
      FeedRecords(src[start..]);
      Truncate();
    }
  }
}
