// The per-second half of the demo's data sets (resctl-demo/src/report_ring.rs,
// ReportDataSet::fill): refreshing the ring of report files and filling the graph
// from it, composed over whole runs.
module ReportDataSets {
  import opened Wrappers
  import opened Windows
  import opened ReportSource
  import opened ReportBuckets
  import opened ReportHistory

  // ---- The code ------------------------------------------------------------------

  class ReportDataSet<R, T> {
    const srcSet: ReportRingSet<R>
    const secData: ReportData<R, T>

    constructor (srcSet: ReportRingSet<R>, secData: ReportData<R, T>)
      ensures this.srcSet == srcSet && this.secData == secData
    {
      this.srcSet, this.secData := srcSet, secData;
    }

    // The rings are refreshed, then the per-second graph is filled with as many
    // slots as fit the span.
    method FillSec(secDir: Option<map<nat, R>>, minDir: Option<map<nat, R>>, now: nat, stride: nat, span: nat)
      requires srcSet.secRing != srcSet.minRing
      requires srcSet.secRing.cadence == 1 && srcSet.secRing.tailCadence == MINUTE
      requires srcSet.minRing.cadence == MINUTE && srcSet.minRing.tailCadence == MINUTE
      requires srcSet.secRing.retention + MINUTE <= now
      requires srcSet.minRing.retention <= Align(now - srcSet.secRing.retention - MINUTE, MINUTE)
      requires stride > 0 && Scale(stride, 1) > 0 && Scaled(secData.View())
      requires var cfg := SecConfig(srcSet.secRing.retention);
               var ring := if secDir.None? then srcSet.secRing.ring
                           else Updated(srcSet.secRing.ring, secDir.value, cfg.Start(now), cfg.Now(now), 1);
               ring != [] ==> 0 <= FillFrom(ring, span / stride, Scale(stride, 1))
      modifies srcSet.secRing, srcSet.minRing, secData
      ensures secDir.None? ==> srcSet.secRing.ring == old(srcSet.secRing.ring)
      ensures secDir.Some? ==>
                var cfg := SecConfig(srcSet.secRing.retention);
                srcSet.secRing.ring
                == Updated(old(srcSet.secRing.ring), secDir.value, cfg.Start(now), cfg.Now(now), 1)
      ensures secData.View() == Fill(secData.ops, old(secData.View()), stride, span / stride, srcSet.secRing.ring, 1)
    {
      srcSet.Update(secDir, minDir, now);
      secData.FillFromSource(stride, span / stride, srcSet.secRing.ring, 1);
    }
  }

  // ---- The ring as a part of everything published ----------------------------------

  // Everything published up to a poll, whether the ring still holds it or not.
  ghost function Published<R>(cfg: Config, p: Poll<R>): seq<Record<R>>
    requires cfg.Valid()
  {
    Scan(p.published, 0, cfg.Now(p.wallClock), cfg.cadence)
  }

  lemma ZeroIsMultiple(step: nat)
    requires step > 0
    ensures Multiple(0, step)
  {
  }

  lemma PublishedHistory<R>(cfg: Config, p: Poll<R>)
    requires cfg.Valid()
    ensures History(Published(cfg, p), cfg.cadence)
  {
    hide Multiple, Scan, Align;
    var h := Published(cfg, p);
    ZeroIsMultiple(cfg.cadence);
    ScanIncreasing(p.published, 0, cfg.Now(p.wallClock), cfg.cadence);
    forall r | r in h ensures Multiple(r.at, cfg.cadence) {
      ScanExact(p.published, 0, cfg.Now(p.wallClock), cfg.cadence, r);
    }
  }

  // A later poll has everything an earlier one had, in front.
  lemma PublishedGrows<R>(cfg: Config, p: Poll<R>, q: Poll<R>)
    requires cfg.Valid() && Follows(p, q)
    ensures Published(cfg, p) <= Published(cfg, q)
  {
    hide Multiple, Scan, Align;
    var c := cfg.cadence;
    var h := Published(cfg, p);
    ZeroIsMultiple(c);
    IdxMono(p.wallClock, q.wallClock, c);
    if h != [] {
      ScanEndsAtLast(p.published, 0, cfg.Now(p.wallClock), c);
      var last := h[|h| - 1].at;
      ScanAgrees(p.published, q.published, 0, last, c);
      ScanSplit(q.published, 0, last, cfg.Now(q.wallClock), c);
    }
  }

  // The window is what remains of it after dropping the records older than its
  // start.
  lemma WindowIsSuffix<R>(cfg: Config, p: Poll<R>) returns (dropped: nat)
    requires cfg.Valid() && ValidPoll(cfg, p)
    ensures dropped <= |Published(cfg, p)|
    ensures Window(cfg, p) == Published(cfg, p)[dropped..]
    ensures forall i :: 0 <= i < dropped ==> Published(cfg, p)[i].at < cfg.Start(p.wallClock)
    ensures forall i :: dropped <= i < |Published(cfg, p)| ==> Published(cfg, p)[i].at >= cfg.Start(p.wallClock)
  {
    hide Multiple, Scan, Align;
    var c := cfg.cadence;
    var start, now := cfg.Start(p.wallClock), cfg.Now(p.wallClock);
    StartAligned(cfg, p.wallClock, p.wallClock);
    ZeroIsMultiple(c);
    StartBeforeNow(cfg, p.wallClock);
    if start == 0 {
      dropped := 0;
    } else {
      MultiplesApart(0, start, c);
      BeforeStart(start, c);
      ScanSplit(p.published, 0, start - c, now, c);
      ScanIncreasing(p.published, 0, start - c, c);
      dropped := |Scan(p.published, 0, start - c, c)|;
    }
    ScanIncreasing(p.published, start, now, c);
    SuffixElements(Published(cfg, p), dropped);
  }

  lemma SuffixElements<R>(h: seq<Record<R>>, dropped: nat)
    requires dropped <= |h|
    ensures forall i :: dropped <= i < |h| ==> h[i] == h[dropped..][i - dropped]
  {
  }

  lemma StartBeforeNow(cfg: Config, wallClock: nat)
    requires cfg.Valid() && cfg.retention <= cfg.Now(wallClock)
    ensures cfg.Start(wallClock) <= cfg.Now(wallClock) - cfg.retention
  {
    AlignFacts(cfg.Now(wallClock) - cfg.retention, cfg.tailCadence);
  }

  lemma BeforeStart(start: nat, c: nat)
    requires c > 0 && Multiple(start, c) && start >= c
    ensures Multiple(start - c, c)
  {
    hide Multiple;
    MultipleIdx(1, c);
    if start > c {
      MultiplesApart(c, start, c);
    } else {
      ZeroIsMultiple(c);
    }
  }

  // ---- Everything published, over a run of polls -----------------------------------

  ghost function Known<R>(cfg: Config, polls: seq<Poll<R>>): seq<Record<R>>
    requires cfg.Valid()
  {
    if polls == [] then [] else Published(cfg, polls[|polls| - 1])
  }

  // Where the ring starts.
  ghost function From<R(!new)>(cfg: Config, polls: seq<Poll<R>>): nat
    requires cfg.Valid() && ValidRun(cfg, polls)
  {
    if polls == [] then 0 else cfg.Start(polls[|polls| - 1].wallClock)
  }

  lemma KnownHistory<R(!new)>(cfg: Config, polls: seq<Poll<R>>) returns (dropped: nat)
    requires cfg.Valid() && ValidRun(cfg, polls)
    ensures History(Known(cfg, polls), cfg.cadence)
    ensures dropped <= |Known(cfg, polls)| && RingAfter(cfg, polls) == Known(cfg, polls)[dropped..]
    ensures forall i :: 0 <= i < dropped ==> Known(cfg, polls)[i].at < From(cfg, polls)
    ensures forall i :: dropped <= i < |Known(cfg, polls)| ==> Known(cfg, polls)[i].at >= From(cfg, polls)
  {
    hide Published, Window;
    if polls == [] {
      dropped := 0;
    } else {
      var p := polls[|polls| - 1];
      PublishedHistory(cfg, p);
      RingIsWindow(cfg, polls);
      dropped := WindowIsSuffix(cfg, p);
    }
  }

  lemma KnownGrows<R(!new)>(cfg: Config, polls: seq<Poll<R>>, q: Poll<R>)
    requires cfg.Valid() && ValidRun(cfg, polls + [q])
    ensures ValidRun(cfg, polls)
    ensures Known(cfg, polls) <= Known(cfg, polls + [q])
    ensures From(cfg, polls) <= From(cfg, polls + [q])
  {
    hide Published, ValidPoll, Align;
    assert (polls + [q])[..|polls|] == polls;
    if polls != [] {
      PollAt(cfg, polls, q);
      PublishedGrows(cfg, polls[|polls| - 1], q);
      StartsGrow(cfg, polls[|polls| - 1], q);
    }
  }

  lemma PollAt<R(!new)>(cfg: Config, polls: seq<Poll<R>>, q: Poll<R>)
    requires cfg.Valid() && polls != [] && ValidRun(cfg, polls + [q])
    ensures Follows(polls[|polls| - 1], q) && ValidPoll(cfg, q) && ValidPoll(cfg, polls[|polls| - 1])
  {
    hide Follows, ValidPoll;
    assert (polls + [q])[..|polls|] == polls;
    assert (polls + [q])[|polls| - 1] == polls[|polls| - 1];
  }

  lemma StartsGrow<R>(cfg: Config, p: Poll<R>, q: Poll<R>)
    requires cfg.Valid() && ValidPoll(cfg, p) && ValidPoll(cfg, q) && Follows(p, q)
    ensures cfg.Start(p.wallClock) <= cfg.Start(q.wallClock)
  {
    StartAligned(cfg, p.wallClock, q.wallClock);
  }

  // ---- What a caller checks before a fill ----------------------------------------------

  // The slots, one more bucket and the age of the newest record fit into the
  // retention period.
  ghost predicate Narrow<R(!new)>(cfg: Config, polls: seq<Poll<R>>, nrSlots: nat, step: nat)
    requires cfg.Valid() && ValidRun(cfg, polls) && polls != [] && RingAfter(cfg, polls) != []
  {
    var ring := RingAfter(cfg, polls);
    Scale(nrSlots + 1, step) + cfg.Now(polls[|polls| - 1].wallClock) - ring[|ring| - 1].at <= cfg.retention
  }

  // Or, for a graph of any width: buckets tile the ring's alignment, there are that
  // many buckets, and the ring still reaches back to where the graph stopped reading
  // (a graph that starts over must not lose the first bucket of time).
  ghost predicate Wide<R(!new)>(cfg: Config, polls: seq<Poll<R>>, next: nat, nrSlots: nat, step: nat)
    requires cfg.Valid() && ValidRun(cfg, polls) && polls != [] && RingAfter(cfg, polls) != [] && step > 0
  {
    var ring := RingAfter(cfg, polls);
    && nrSlots <= Idx(ring[|ring| - 1].at, step)
    && (if next == 0 then !ZeroBucketLost(ring, nrSlots, step, cfg.cadence) else From(cfg, polls) <= next)
  }

  ghost predicate CanFill<R(!new), T>(cfg: Config, polls: seq<Poll<R>>, s: State<T>, stride: nat, nrSlots: nat, wide: bool)
    requires cfg.Valid() && ValidRun(cfg, polls)
  {
    && stride > 0 && Scale(stride, cfg.cadence) > 0
    && (wide ==> Multiple(cfg.tailCadence, Scale(stride, cfg.cadence)))
    && (RingAfter(cfg, polls) != [] ==>
          && polls != []
          && if wide then Wide(cfg, polls, Resume(s, stride, nrSlots, cfg.cadence), nrSlots, Scale(stride, cfg.cadence))
             else Narrow(cfg, polls, nrSlots, Scale(stride, cfg.cadence)))
  }

  lemma SlotsFit(newest: nat, n: nat, step: nat)
    requires step > 0 && newest >= Scale(n + 1, step)
    ensures n < Idx(newest, step)
    ensures newest - Scale(n + 1, step) < Align(newest, step) - n * step
    ensures 0 <= Align(newest, step) - n * step
  {
    BelowIdx(newest, n + 1, step);
    AlignFacts(newest, step);
    assert (n + 1) * step == n * step + step;
  }

  lemma NarrowFits<R(!new)>(cfg: Config, polls: seq<Poll<R>>, nrSlots: nat, step: nat)
    requires cfg.Valid() && ValidRun(cfg, polls) && polls != [] && RingAfter(cfg, polls) != [] && step > 0
    requires Narrow(cfg, polls, nrSlots, step)
    ensures var ring := RingAfter(cfg, polls);
            && nrSlots < Idx(ring[|ring| - 1].at, step)
            && From(cfg, polls) <= FillFrom(ring, nrSlots, step)
  {
    hide Multiple, Scan, Align, Scale, Idx, RingAfter;
    var p := polls[|polls| - 1];
    var ring := RingAfter(cfg, polls);
    RingIsWindow(cfg, polls);
    ScanIncreasing(p.published, cfg.Start(p.wallClock), cfg.Now(p.wallClock), cfg.cadence);
    SlotsFit(ring[|ring| - 1].at, nrSlots, step);
    StartBeforeNow(cfg, p.wallClock);
  }

  // A checked call never underflows.
  lemma FillFits<R(!new), T>(cfg: Config, polls: seq<Poll<R>>, s: State<T>, stride: nat, nrSlots: nat, wide: bool)
    requires cfg.Valid() && ValidRun(cfg, polls) && CanFill(cfg, polls, s, stride, nrSlots, wide)
    ensures var ring := RingAfter(cfg, polls);
            ring != [] ==> 0 <= FillFrom(ring, nrSlots, Scale(stride, cfg.cadence))
  {
    hide Scale, RingAfter, FillFrom, Narrow, Idx, Multiple, ZeroBucketLost;
    var ring := RingAfter(cfg, polls);
    if ring != [] {
      if wide {
        FillFromIdx(ring, nrSlots, Scale(stride, cfg.cadence));
      } else {
        NarrowFits(cfg, polls, nrSlots, Scale(stride, cfg.cadence));
      }
    }
  }

  // A narrow graph finds all it can show in the ring, whatever it has read before.
  lemma CanFillRetains<R(!new)>(cfg: Config, polls: seq<Poll<R>>, dropped: nat, next: nat, nrSlots: nat, step: nat)
    requires cfg.Valid() && ValidRun(cfg, polls) && polls != [] && RingAfter(cfg, polls) != [] && step > 0
    requires Narrow(cfg, polls, nrSlots, step)
    requires dropped < |Known(cfg, polls)| && RingAfter(cfg, polls) == Known(cfg, polls)[dropped..]
    requires forall i :: 0 <= i < dropped ==> Known(cfg, polls)[i].at < From(cfg, polls)
    ensures Retained(Known(cfg, polls), dropped, next, nrSlots, step, cfg.cadence)
  {
    hide Scale, Idx, RingAfter, FillFrom, Narrow, Known, From;
    NarrowFits(cfg, polls, nrSlots, step);
  }

  // ---- Every run -------------------------------------------------------------------

  // `poll` is None while the agent has not published its directory.
  datatype Call<R> = Call(poll: Option<Poll<R>>, stride: nat, nrSlots: nat)

  // The polls that found a directory; the ring stays as it is in between.
  function Polls<R>(calls: seq<Call<R>>): seq<Poll<R>> {
    if calls == [] then []
    else
      var n := |calls| - 1;
      Polls(calls[..n]) + if calls[n].poll.Some? then [calls[n].poll.value] else []
  }

  // One call: the ring after its refresh, and the graph filled from it.
  ghost predicate Filled<R(!new), T(!new)>(ops: Ops<R, T>, cfg: Config, wide: bool, calls: seq<Call<R>>, p: State<T>, s: State<T>)
    requires cfg.Valid() && calls != []
  {
    && ValidRun(cfg, Polls(calls))
    && Scaled(p)
    && var c := calls[|calls| - 1];
       && CanFill(cfg, Polls(calls), p, c.stride, c.nrSlots, wide)
       && (FillFits(cfg, Polls(calls), p, c.stride, c.nrSlots, wide);
           s == Fill(ops, p, c.stride, c.nrSlots, RingAfter(cfg, Polls(calls)), cfg.cadence))
  }

  ghost predicate SetReaches<R(!new), T(!new)>(ops: Ops<R, T>, cfg: Config, wide: bool, calls: seq<Call<R>>, s: State<T>)
    requires cfg.Valid()
  {
    if calls == [] then s == Cleared(ops.zero, 0, 0, 0)
    else exists p: State<T> ::
           SetReaches(ops, cfg, wide, calls[..|calls| - 1], p) && Filled(ops, cfg, wide, calls, p, s)
  }

  lemma CallsGrow<R(!new)>(cfg: Config, calls: seq<Call<R>>)
    requires cfg.Valid() && calls != [] && ValidRun(cfg, Polls(calls))
    ensures var init := Polls(calls[..|calls| - 1]);
            && ValidRun(cfg, init)
            && Known(cfg, init) <= Known(cfg, Polls(calls))
            && From(cfg, init) <= From(cfg, Polls(calls))
  {
    hide Known, From, ValidRun;
    var init, c := Polls(calls[..|calls| - 1]), calls[|calls| - 1];
    if c.poll.Some? {
      KnownGrows(cfg, init, c.poll.value);
    } else {
      assert init + [] == init;
    }
  }

  lemma InvWithMore<R, T>(ops: Ops<R, T>, w: World<R, T>, h: seq<Record<R>>, dropped: nat, cadence: nat)
    requires Inv(ops, w, cadence) && w.history <= h && History(h, cadence) && dropped <= |h|
    ensures Inv(ops, w.(history := h, dropped := dropped), cadence)
  {
    hide Exact, History;
    assert h[..w.seen] == w.history[..w.seen];
  }

  lemma FillOfNothing<R, T>(ops: Ops<R, T>, s: State<T>, stride: nat, nrSlots: nat, cadence: nat)
    requires stride > 0 && cadence > 0 && Scale(stride, cadence) > 0 && Scaled(s)
    ensures Fill(ops, s, stride, nrSlots, [], cadence) == Reconfigured(ops.zero, s, stride, nrSlots, cadence)
  {
  }

  // A fill from what a world holds is that world's refresh.
  ghost predicate Refreshes<R, T>(ops: Ops<R, T>, w: World<R, T>, stride: nat, nrSlots: nat, cadence: nat, s: State<T>) {
    && Inv(ops, w, cadence) && w.dropped <= |w.history| && Scaled(w.data) && cadence > 0
    && Enabled(w, Refresh(stride, nrSlots), cadence)
    && After(ops, w, Refresh(stride, nrSlots), cadence).data == s
  }

  lemma FillRefreshes<R, T>(ops: Ops<R, T>, w: World<R, T>, stride: nat, nrSlots: nat, cadence: nat)
    requires Inv(ops, w, cadence) && stride > 0 && Scale(stride, cadence) > 0
    requires w.dropped < |w.history| ==>
               Retained(w.history, w.dropped, Resume(w.data, stride, nrSlots, cadence), nrSlots, Scale(stride, cadence), cadence)
    requires w.dropped < |w.history| ==> 0 <= FillFrom(w.history[w.dropped..], nrSlots, Scale(stride, cadence))
    ensures Scaled(w.data) && w.dropped <= |w.history|
    ensures Refreshes(ops, w, stride, nrSlots, cadence,
                      Fill(ops, w.data, stride, nrSlots, w.history[w.dropped..], cadence))
  {
    hide Scale, Retained, Fill, FillFrom, Exact, Increasing, Multiple;
    if w.dropped == |w.history| {
      assert w.history[w.dropped..] == [];
      FillOfNothing(ops, w.data, stride, nrSlots, cadence);
    } else {
      assert w.history[w.dropped..] != [];
    }
  }

  // What a refresh leaves for the next call.
  lemma AfterRefresh<R, T>(ops: Ops<R, T>, w: World<R, T>, stride: nat, nrSlots: nat, cadence: nat, s: State<T>)
    requires Refreshes(ops, w, stride, nrSlots, cadence, s)
    ensures var w' := After(ops, w, Refresh(stride, nrSlots), cadence);
            Inv(ops, w', cadence) && w'.history == w.history && w'.data == s
  {
    hide Inv, Retained, Fill;
    RefreshKeepsInv(ops, w, stride, nrSlots, cadence);
  }

  // ---- Narrow graphs -----------------------------------------------------------------

  // Before each call's fill, the graph's invariant holds for everything published
  // by then.
  lemma {:induction false} BeforeFill<R(!new), T(!new)>(ops: Ops<R, T>, cfg: Config, calls: seq<Call<R>>, s: State<T>)
    returns (w: World<R, T>)
    requires cfg.Valid() && calls != [] && SetReaches(ops, cfg, false, calls, s)
    ensures var c := calls[|calls| - 1];
            && ValidRun(cfg, Polls(calls))
            && w.history == Known(cfg, Polls(calls))
            && w.dropped <= |w.history| && w.history[w.dropped..] == RingAfter(cfg, Polls(calls))
            && Refreshes(ops, w, c.stride, c.nrSlots, cfg.cadence, s)
    decreases |calls|
  {
    hide Inv, Known, After, RingAfter, ValidRun, Refreshes, Narrow, Retained, FillFrom, Scale, Polls, From;
    var n := |calls| - 1;
    var c := calls[n];
    var p: State<T> :| SetReaches(ops, cfg, false, calls[..n], p) && Filled(ops, cfg, false, calls, p, s);
    CallsGrow(cfg, calls);
    var before := InitWorld(ops);
    if n > 0 {
      var w0 := BeforeFill(ops, cfg, calls[..n], p);
      var last := calls[..n][n - 1];
      AfterRefresh(ops, w0, last.stride, last.nrSlots, cfg.cadence, p);
      RefreshableWorld(ops, w0, last.stride, last.nrSlots, cfg.cadence, p);
      before := After(ops, w0, Refresh(last.stride, last.nrSlots), cfg.cadence);
    } else {
      ReachableInv(ops, [], before, cfg.cadence);
    }
    var polls := Polls(calls);
    var dropped := KnownHistory(cfg, polls);
    InvWithMore(ops, before, Known(cfg, polls), dropped, cfg.cadence);
    w := before.(history := Known(cfg, polls), dropped := dropped);
    FillFits(cfg, polls, p, c.stride, c.nrSlots, false);
    if dropped < |w.history| {
      assert w.history[dropped..] != [];
      CanFillRetains(cfg, polls, dropped, Resume(p, c.stride, c.nrSlots, cfg.cadence), c.nrSlots, Scale(c.stride, cfg.cadence));
    }
    FillRefreshes(ops, w, c.stride, c.nrSlots, cfg.cadence);
  }

  lemma RefreshableWorld<R, T>(ops: Ops<R, T>, w: World<R, T>, stride: nat, nrSlots: nat, cadence: nat, s: State<T>)
    requires Refreshes(ops, w, stride, nrSlots, cadence, s)
    ensures cadence > 0 && w.dropped <= |w.history| && Scaled(w.data) && Inv(ops, w, cadence)
    ensures Enabled(w, Refresh(stride, nrSlots), cadence)
    ensures After(ops, w, Refresh(stride, nrSlots), cadence).data == s
    ensures stride > 0 && Scale(stride, cadence) > 0
  {
    hide Inv, After;
  }

  // The graph of a data set, from the files up: after any run of calls that a
  // caller has checked against the retention period, it shows the batch aggregation
  // of the last closed buckets of everything ever published.
  lemma SetShowsBatch<R(!new), T(!new)>(ops: Ops<R, T>, cfg: Config, calls: seq<Call<R>>, s: State<T>)
    requires cfg.Valid() && calls != [] && SetReaches(ops, cfg, false, calls, s)
    requires ValidRun(cfg, Polls(calls)) && RingAfter(cfg, Polls(calls)) != []
    ensures var c := calls[|calls| - 1];
            var h := Known(cfg, Polls(calls));
            var step := Scale(c.stride, cfg.cadence);
            && h != [] && step > 0
            && var hi := Idx(h[|h| - 1].at + cfg.cadence, step);
               && |s.dataRing| <= c.nrSlots <= hi
               && Padded(s.dataRing, c.nrSlots) == Buckets(ops, h, hi, c.nrSlots, step)
  {
    hide SetReaches, RingAfter, After, Inv, Known, Padded, Buckets, Idx, Refreshes, Enabled, ValidRun;
    var w := BeforeFill(ops, cfg, calls, s);
    var c := calls[|calls| - 1];
    RefreshableWorld(ops, w, c.stride, c.nrSlots, cfg.cadence, s);
    ShownIsBatch(ops, w, c.stride, c.nrSlots, cfg.cadence);
  }

  // ---- Graphs of any width -------------------------------------------------------------

  // The records before index `d` are those before bucket `b`.
  ghost predicate Cut<R>(h: seq<Record<R>>, d: nat, b: nat, step: nat) {
    && d <= |h|
    && (forall i :: 0 <= i < d ==> h[i].at < Scale(b, step))
    && (forall i :: d <= i < |h| ==> h[i].at >= Scale(b, step))
  }

  lemma RefreshConfig<R, T>(ops: Ops<R, T>, w: World<R, T>, stride: nat, nrSlots: nat, cadence: nat, s: State<T>)
    requires Refreshes(ops, w, stride, nrSlots, cadence, s)
    ensures s.stride == stride && s.nrSlots == nrSlots && s.srcCadence == cadence
  {
    hide Inv, Fill, Scale, FillFrom, Idx, ZeroBucketLost;
    var src := w.history[w.dropped..];
    if src != [] {
      FillFromIdx(src, nrSlots, Scale(stride, cadence));
      FillKeepsConfig(ops, w.data, stride, nrSlots, src, cadence);
    }
  }

  // A graph that has read nothing is a cleared one.
  lemma UnreadIsCleared<R, T>(ops: Ops<R, T>, w: World<R, T>, cadence: nat)
    requires Inv(ops, w, cadence) && w.data.nextSrcAt == 0
    ensures var d := w.data; d == Cleared(ops.zero, d.stride, d.nrSlots, d.srcCadence)
  {
    hide Exact, History, Scale;
  }

  lemma ReadIsNonEmpty<R, T>(ops: Ops<R, T>, w: World<R, T>, cadence: nat)
    requires Inv(ops, w, cadence) && w.data.nextSrcAt > 0
    ensures w.history != []
  {
    hide Exact, History, Scale;
  }

  lemma FillStartsOver<R, T>(ops: Ops<R, T>, p: State<T>, stride: nat, nrSlots: nat, src: seq<Record<R>>, cadence: nat)
    requires stride > 0 && cadence > 0 && Scale(stride, cadence) > 0 && Scaled(p)
    requires src != [] ==> 0 <= FillFrom(src, nrSlots, Scale(stride, cadence))
    requires Resume(p, stride, nrSlots, cadence) == 0
    requires p.nextSrcAt == 0 ==> p == Cleared(ops.zero, p.stride, p.nrSlots, p.srcCadence)
    ensures Scaled(Cleared(ops.zero, stride, nrSlots, cadence))
    ensures Fill(ops, p, stride, nrSlots, src, cadence)
         == Fill(ops, Cleared(ops.zero, stride, nrSlots, cadence), stride, nrSlots, src, cadence)
  {
    hide FeedAll, FirstNew, FillFrom, Truncated, Scale;
  }

  lemma ClearedInv<R, T>(ops: Ops<R, T>, h: seq<Record<R>>, stride: nat, nrSlots: nat, cadence: nat)
    requires History(h, cadence)
    ensures Inv(ops, World(h, 0, Cleared(ops.zero, stride, nrSlots, cadence), 0), cadence)
  {
    hide History, Scale;
  }

  // Where the ring starts is the start of a bucket.
  lemma FromIsBucket<R(!new)>(cfg: Config, polls: seq<Poll<R>>, step: nat) returns (b: nat)
    requires cfg.Valid() && ValidRun(cfg, polls) && step > 0 && Multiple(cfg.tailCadence, step)
    ensures Scale(b, step) == From(cfg, polls)
  {
    var from := From(cfg, polls);
    b := Idx(from, step);
    if polls != [] {
      var now := cfg.Now(polls[|polls| - 1].wallClock);
      hide Idx, Multiple;
      AlignFacts(now - cfg.retention, cfg.tailCadence);
      MultipleOfMultiple(from, cfg.tailCadence, step);
    }
    MultipleIsAligned(from, step);
    AlignIsScale(from, step);
  }

  lemma AlignIsScale(x: nat, step: nat)
    requires step > 0
    ensures Align(x, step) == Scale(Idx(x, step), step)
    ensures Idx(0, step) == 0 && Align(0, step) == 0
  {
  }

  // Starting over: the world begins with what the ring holds.
  lemma StartOver<R(!new), T(!new)>(ops: Ops<R, T>, cfg: Config, polls: seq<Poll<R>>, dropped: nat, p: State<T>, stride: nat, nrSlots: nat)
    returns (w: World<R, T>)
    requires cfg.Valid() && ValidRun(cfg, polls) && Scaled(p) && CanFill(cfg, polls, p, stride, nrSlots, true)
    requires Resume(p, stride, nrSlots, cfg.cadence) == 0
    requires p.nextSrcAt == 0 ==> p == Cleared(ops.zero, p.stride, p.nrSlots, p.srcCadence)
    requires dropped <= |Known(cfg, polls)| && RingAfter(cfg, polls) == Known(cfg, polls)[dropped..]
    requires History(Known(cfg, polls), cfg.cadence)
    requires RingAfter(cfg, polls) != [] ==> 0 <= FillFrom(RingAfter(cfg, polls), nrSlots, Scale(stride, cfg.cadence))
    ensures w.history == Known(cfg, polls)[dropped..] && w.dropped == 0
    ensures Refreshes(ops, w, stride, nrSlots, cfg.cadence,
                      Fill(ops, p, stride, nrSlots, RingAfter(cfg, polls), cfg.cadence))
  {
    hide Inv, Known, RingAfter, ValidRun, Refreshes, FillFrom, Scale, Fill, Idx, ZeroBucketLost, From;
    var h := Known(cfg, polls)[dropped..];
    SuffixHistory(Known(cfg, polls), dropped, cfg.cadence);
    FillStartsOver(ops, p, stride, nrSlots, h, cfg.cadence);
    w := World(h, 0, Cleared(ops.zero, stride, nrSlots, cfg.cadence), 0);
    ClearedInv(ops, h, stride, nrSlots, cfg.cadence);
    assert h[0..] == h;
    FillRefreshes(ops, w, stride, nrSlots, cfg.cadence);
  }

  lemma CutStays<R>(h: seq<Record<R>>, more: seq<Record<R>>, d: nat, b: nat, step: nat, cadence: nat)
    requires Cut(h, d, b, step) && d < |h| && h <= more && History(more, cadence)
    ensures Cut(more, d, b, step)
  {
    hide Scale;
    LaterRecords(more, d, cadence);
  }

  // What is read is never before what the ring lacks.
  lemma CutBeforeRing<R>(h: seq<Record<R>>, d: nat, b: nat, step: nat, dropped: nat, from: nat)
    requires Cut(h, d, b, step) && Scale(b, step) <= from && dropped <= |h|
    requires forall i :: dropped <= i < |h| ==> h[i].at >= from
    ensures d <= dropped
  {
    hide Scale;
    assert dropped < |h| ==> h[dropped].at >= from;
  }

  // Going on: the world grows by what was published since.
  lemma GoOn<R(!new), T(!new)>(ops: Ops<R, T>, cfg: Config, polls: seq<Poll<R>>, dropped: nat, d: nat, before: World<R, T>, stride: nat, nrSlots: nat)
    returns (w: World<R, T>)
    requires cfg.Valid() && ValidRun(cfg, polls) && Scaled(before.data)
    requires CanFill(cfg, polls, before.data, stride, nrSlots, true)
    requires Resume(before.data, stride, nrSlots, cfg.cadence) > 0
    requires Inv(ops, before, cfg.cadence) && History(Known(cfg, polls), cfg.cadence)
    requires d <= dropped <= |Known(cfg, polls)| && RingAfter(cfg, polls) == Known(cfg, polls)[dropped..]
    requires before.history <= Known(cfg, polls)[d..]
    requires forall i :: 0 <= i < dropped ==> Known(cfg, polls)[i].at < From(cfg, polls)
    requires RingAfter(cfg, polls) != [] ==> 0 <= FillFrom(RingAfter(cfg, polls), nrSlots, Scale(stride, cfg.cadence))
    ensures w.history == Known(cfg, polls)[d..]
    ensures w.dropped <= |w.history| && w.history[w.dropped..] == RingAfter(cfg, polls)
    ensures Refreshes(ops, w, stride, nrSlots, cfg.cadence,
                      Fill(ops, before.data, stride, nrSlots, RingAfter(cfg, polls), cfg.cadence))
  {
    hide Inv, Known, RingAfter, ValidRun, Refreshes, FillFrom, Scale, Fill, Idx, From, ZeroBucketLost;
    var h := Known(cfg, polls);
    SuffixHistory(h, d, cfg.cadence);
    InvWithMore(ops, before, h[d..], dropped - d, cfg.cadence);
    w := before.(history := h[d..], dropped := dropped - d);
    assert h[d..][dropped - d..] == h[dropped..];
    FillRefreshes(ops, w, stride, nrSlots, cfg.cadence);
  }

  // Before each call's fill, the graph's invariant holds for everything published
  // from some bucket on, which is not after the ring's start.
  lemma {:induction false} BeforeWideFill<R(!new), T(!new)>(ops: Ops<R, T>, cfg: Config, calls: seq<Call<R>>, s: State<T>)
    returns (w: World<R, T>, d: nat, b: nat)
    requires cfg.Valid() && calls != [] && SetReaches(ops, cfg, true, calls, s)
    ensures var c := calls[|calls| - 1];
            && ValidRun(cfg, Polls(calls))
            && Cut(Known(cfg, Polls(calls)), d, b, Scale(c.stride, cfg.cadence))
            && Scale(b, Scale(c.stride, cfg.cadence)) <= From(cfg, Polls(calls))
            && w.history == Known(cfg, Polls(calls))[d..]
            && w.dropped <= |w.history| && w.history[w.dropped..] == RingAfter(cfg, Polls(calls))
            && Refreshes(ops, w, c.stride, c.nrSlots, cfg.cadence, s)
    decreases |calls|
  {
    hide Inv, Known, After, RingAfter, ValidRun, Refreshes, Wide, FillFrom, Scale, Polls, From, Cut, Fill;
    var n := |calls| - 1;
    var c := calls[n];
    var polls, step := Polls(calls), Scale(c.stride, cfg.cadence);
    var p: State<T> :| SetReaches(ops, cfg, true, calls[..n], p) && Filled(ops, cfg, true, calls, p, s);
    CallsGrow(cfg, calls);
    var dropped := KnownHistory(cfg, polls);
    FillFits(cfg, polls, p, c.stride, c.nrSlots, true);
    if n > 0 {
      var w0, d0, b0 := BeforeWideFill(ops, cfg, calls[..n], p);
      var last := calls[..n][n - 1];
      AfterRefresh(ops, w0, last.stride, last.nrSlots, cfg.cadence, p);
      RefreshableWorld(ops, w0, last.stride, last.nrSlots, cfg.cadence, p);
      RefreshConfig(ops, w0, last.stride, last.nrSlots, cfg.cadence, p);
      var before := After(ops, w0, Refresh(last.stride, last.nrSlots), cfg.cadence);
      if Resume(p, c.stride, c.nrSlots, cfg.cadence) > 0 {
        ReadIsNonEmpty(ops, before, cfg.cadence);
        d, b := d0, b0;
        CutBounds(Known(cfg, Polls(calls[..n])), d, b, step);
        CutStays(Known(cfg, Polls(calls[..n])), Known(cfg, polls), d, b, step, cfg.cadence);
        CutBeforeRing(Known(cfg, polls), d, b, step, dropped, From(cfg, polls));
        w := GoOn(ops, cfg, polls, dropped, d, before, c.stride, c.nrSlots);
        return;
      }
      if p.nextSrcAt == 0 {
        UnreadIsCleared(ops, before, cfg.cadence);
      }
    }
    d := dropped;
    b := FromIsBucket(cfg, polls, step);
    w := StartOver(ops, cfg, polls, dropped, p, c.stride, c.nrSlots);
    CutAtFrom(Known(cfg, polls), d, b, step, From(cfg, polls));
    assert w.history[0..] == w.history;
  }

  lemma CutAtFrom<R>(h: seq<Record<R>>, d: nat, b: nat, step: nat, from: nat)
    requires d <= |h| && Scale(b, step) == from
    requires forall i :: 0 <= i < d ==> h[i].at < from
    requires forall i :: d <= i < |h| ==> h[i].at >= from
    ensures Cut(h, d, b, step)
  {
  }

  // A bucket of what is left after a cut: the whole bucket, or nothing.
  lemma BucketAfterCut<R, T>(ops: Ops<R, T>, h: seq<Record<R>>, d: nat, b: nat, k: nat, step: nat)
    requires step > 0 && Cut(h, d, b, step)
    ensures BucketValue(ops, h[d..], k, step) == if k >= b then BucketValue(ops, h, k, step) else None
  {
    hide Idx, Scale;
    SplitByBucket(h, d, Scale(b, step), b, step);
    SuffixElements(h, d);
    if k >= b {
      SuffixBucket(h, d, k, step);
    } else {
      InBucketNone(h[d..], k, step);
    }
  }

  lemma {:induction false} SuffixBucket<R>(h: seq<Record<R>>, d: nat, k: nat, step: nat)
    requires step > 0 && d <= |h| && forall i :: 0 <= i < d ==> Idx(h[i].at, step) != k
    ensures InBucket(h[d..], k, step) == InBucket(h, k, step)
  {
    hide Idx;
    if d == |h| {
      assert h[d..] == [];
      InBucketNone(h, k, step);
    } else {
      var n := |h| - 1;
      assert h[d..][..|h[d..]| - 1] == h[..n][d..];
      SuffixBucket(h[..n], d, k, step);
    }
  }

  // A graph of any width shows, after any run of calls, exact slots from some bucket
  // on and empty ones before it.  That bucket is not after the ring's start, so
  // everything the ring still covers is exact.
  lemma SetShowsExactOrEmpty<R(!new), T(!new)>(ops: Ops<R, T>, cfg: Config, calls: seq<Call<R>>, s: State<T>) returns (b: nat)
    requires cfg.Valid() && calls != [] && SetReaches(ops, cfg, true, calls, s)
    requires ValidRun(cfg, Polls(calls)) && RingAfter(cfg, Polls(calls)) != []
    ensures var c := calls[|calls| - 1];
            var h := Known(cfg, Polls(calls));
            var n, step := c.nrSlots, Scale(c.stride, cfg.cadence);
            && h != [] && step > 0 && Scale(b, step) <= From(cfg, Polls(calls))
            && var hi := Idx(h[|h| - 1].at + cfg.cadence, step);
               && |s.dataRing| <= n <= hi
               && forall i :: 0 <= i < n ==>
                    Padded(s.dataRing, n)[i]
                    == if hi - n + i >= b then BucketValue(ops, h, hi - n + i, step) else None
  {
    hide SetReaches, RingAfter, After, Inv, Known, Padded, Idx, Refreshes, Enabled, ValidRun, Cut, BucketValue, From, Polls;
    var w, d;
    w, d, b := BeforeWideFill(ops, cfg, calls, s);
    var c := calls[|calls| - 1];
    var h := Known(cfg, Polls(calls));
    var n, step := c.nrSlots, Scale(c.stride, cfg.cadence);
    RefreshableWorld(ops, w, c.stride, n, cfg.cadence, s);
    ShownIsBatch(ops, w, c.stride, n, cfg.cadence);
    CutBounds(h, d, b, step);
    var hi := Idx(h[|h| - 1].at + cfg.cadence, step);
    forall i | 0 <= i < n
      ensures Padded(s.dataRing, n)[i] == if hi - n + i >= b then BucketValue(ops, h, hi - n + i, step) else None
    {
      BucketAfterCut(ops, h, d, b, hi - n + i, step);
    }
  }

  lemma CutBounds<R>(h: seq<Record<R>>, d: nat, b: nat, step: nat)
    requires Cut(h, d, b, step) && h[d..] != []
    ensures d < |h| && h[d..][|h[d..]| - 1] == h[|h| - 1]
  {
  }

  // Why a graph must not pause for longer than the ring lasts: what is published and
  // expires in between is missing from the bucket that was open.  Of the records 1 at
  // times 2, 3 and 4, that of time 3 came and went between two fills: the bucket of
  // times 2 and 3 shows 1 where it holds 2.
  lemma PauseLosesSamples()
    ensures var first := Fill(SumOps(), Cleared(0, 2, 1, 1), 2, 1, [Record(2, 1)], 1);
            && first.nextSrcAt == 3 && Scaled(first)
            && Fill(SumOps(), first, 2, 1, [Record(4, 1)], 1).dataRing == [Some(1)]
            && Buckets(SumOps(), [Record(2, 1), Record(3, 1), Record(4, 1)], 2, 1, 2) == [Some(2)]
  {
    FirstOfTwoFills();
    SecondOfTwoFills();
    BatchOfTwoFills();
  }

  lemma FirstOfTwoFills()
    ensures Fill(SumOps(), Cleared(0, 2, 1, 1), 2, 1, [Record(2, 1)], 1) == State(3, Tip(2, 1, 1), [], 2, 1, 1, 2)
  {
    var src := [Record(2, 1)];
    assert src[..0] == [] && src[0..] == src;
    assert FirstNew<int>([], 0) == 0;
    var c: State<int> := State(3, Tip(0, 0, 0), [], 2, 1, 1, 2);
    assert FeedAll(SumOps(), c, src) == State(3, Tip(2, 1, 1), [], 2, 1, 1, 2);
  }

  lemma SecondOfTwoFills()
    ensures Fill(SumOps(), State(3, Tip(2, 1, 1), [], 2, 1, 1, 2), 2, 1, [Record(4, 1)], 1).dataRing == [Some(1)]
  {
    var src := [Record(4, 1)];
    assert src[..0] == [] && src[0..] == src;
    assert FirstNew<int>([], 3) == 0;
    var c: State<int> := State(5, Tip(2, 1, 1), [], 2, 1, 1, 2);
    assert CloseUntil(SumOps(), c, 4) == State(5, Tip(4, 0, 0), [Some(1)], 2, 1, 1, 2);
    assert FeedAll(SumOps(), c, src) == State(5, Tip(4, 1, 1), [Some(1)], 2, 1, 1, 2);
  }

  lemma BatchOfTwoFills()
    ensures Buckets(SumOps(), [Record(2, 1), Record(3, 1), Record(4, 1)], 2, 1, 2) == [Some(2)]
  {
    var h := [Record(2, 1), Record(3, 1), Record(4, 1)];
    var two := [Record(2, 1), Record(3, 1)];
    assert h[..2] == two && two[..1] == [Record(2, 1)] && [Record(2, 1)][..0] == [];
    assert InBucket([Record(2, 1)], 1, 2) == [Record(2, 1)];
    assert InBucket(two, 1, 2) == two;
    assert InBucket(h, 1, 2) == two;
    assert Folded(SumOps(), [Record(2, 1)]) == 1;
    assert Folded(SumOps(), two) == 2;
    assert BucketValue(SumOps(), h, 1, 2) == Some(2);
  }
}
