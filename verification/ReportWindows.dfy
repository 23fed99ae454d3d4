// The agent's periodic report summaries and their retention
// (rd-agent/src/report.rs, ReportFile and clear_old_report_files).
//
// Statistics are maps from names to reals.  The report directory is the set of
// time stamps it holds files for; removing a file succeeds.
module ReportWindows {
  import opened Wrappers
  import opened Windows

  type StatMap = map<string, real>
  type SliceMap = map<string, StatMap>

  // ---- Accumulating and averaging statistics ---------------------------------

  function Get(m: StatMap, k: string): real {
    if k in m then m[k] else 0.0
  }

  function Sum(a: StatMap, b: StatMap): StatMap {
    map k | k in a.Keys + b.Keys :: Get(a, k) + Get(b, k)
  }

  function GetSlice(m: SliceMap, k: string): StatMap {
    if k in m then m[k] else map[]
  }

  function SliceSum(a: SliceMap, b: SliceMap): SliceMap {
    map k | k in a.Keys + b.Keys :: Sum(GetSlice(a, k), GetSlice(b, k))
  }

  function Divided(m: StatMap, div: real): StatMap
    requires div != 0.0
  {
    map k | k in m :: m[k] / div
  }

  function SliceDivided(m: SliceMap, div: real): SliceMap
    requires div != 0.0
  {
    map k | k in m :: Divided(m[k], div)
  }

  method AccStatMap(lhs: StatMap, rhs: StatMap) returns (acc: StatMap)
    ensures acc == Sum(lhs, rhs)
  {
    acc := lhs;
    var todo := rhs.Keys;
    while todo != {}
      invariant todo <= rhs.Keys
      invariant forall k :: k in acc <==> k in lhs || (k in rhs && k !in todo)
      invariant forall k :: k in acc ==> acc[k] == if k in rhs && k !in todo then Get(lhs, k) + rhs[k] else lhs[k]
      decreases todo
    {
      var k :| k in todo;
      if k in acc {
        acc := acc[k := acc[k] + rhs[k]];
      } else {
        acc := acc[k := rhs[k]];
      }
      todo := todo - {k};
    }
  }

  method AccSliceStatMap(lhs: SliceMap, rhs: SliceMap) returns (acc: SliceMap)
    ensures acc == SliceSum(lhs, rhs)
  {
    hide Sum;
    acc := lhs;
    var todo := rhs.Keys;
    while todo != {}
      invariant todo <= rhs.Keys
      invariant forall k :: k in acc <==> k in lhs || (k in rhs && k !in todo)
      invariant forall k :: k in acc ==>
                  acc[k] == if k in rhs && k !in todo then Sum(GetSlice(lhs, k), rhs[k]) else lhs[k]
      decreases todo
    {
      var k :| k in todo;
      if k in acc {
        var inner := AccStatMap(acc[k], rhs[k]);
        acc := acc[k := inner];
      } else {
        SumWithNothing(rhs[k]);
        acc := acc[k := rhs[k]];
      }
      todo := todo - {k};
    }
    forall k | k in acc ensures acc[k] == Sum(GetSlice(lhs, k), GetSlice(rhs, k)) {
      SumWithNothing(GetSlice(lhs, k));
    }
  }

  lemma SumWithNothing(m: StatMap)
    ensures Sum(m, map[]) == m && Sum(map[], m) == m
  {
  }

  // ---- One report file --------------------------------------------------------

  const USAGE_SLICES: set<string> := {"-.slice", "workload.slice", "system.slice"}

  // `stats` stands for the accumulated statistics of a base report, `usage` for
  // what the usage tracker answers (None when its update fails), `committed` for
  // whether the summary gets written.
  datatype TickIn = TickIn(stats: SliceMap, now: nat, usage: Option<SliceMap>, committed: bool)

  // A closed window: its file stamp, how many base reports it covers, their
  // average, and the contents written, if any.
  datatype Emission = Emission(stamp: nat, count: nat, average: SliceMap, written: Option<SliceMap>)

  datatype State = State(
    intv: nat,
    retention: Option<nat>,
    nextAt: nat,
    acc: SliceMap,
    nrSamples: nat,
    files: set<nat>)

  // The usage tracker's own numbers replace the averages of the top slices.
  function WithUsage(average: SliceMap, usage: SliceMap): SliceMap {
    average + map k | k in usage && k in USAGE_SLICES :: usage[k]
  }

  // Stamps that expired between the last window's start and now.
  predicate ExpiredSince(f: nat, wasAt: nat, now: nat, retention: nat) {
    wasAt <= f + retention < now
  }

  function Expired(wasAt: nat, now: nat, retention: nat): set<nat> {
    set f: nat | f < now && ExpiredSince(f, wasAt, now, retention)
  }

  function ClearOld(files: set<nat>, retention: Option<nat>, now: nat): set<nat> {
    if retention.None? then files else set f | f in files && f >= now - retention.value
  }

  function NewFile(intv: nat, retention: Option<nat>, files: set<nat>, now: nat): State
    requires intv > 0
  {
    State(intv, retention, (now / intv + 1) * intv, map[], 0, ClearOld(files, retention, now))
  }

  function Tick(s: State, t: TickIn): (State, Option<Emission>)
    requires s.intv > 0 && s.nextAt >= s.intv
  {
    var acc, n := SliceSum(s.acc, t.stats), s.nrSamples + 1;
    if t.now < s.nextAt then (s.(acc := acc, nrSamples := n), None)
    else
      var wasAt := s.nextAt - s.intv;
      var stamp := Align(t.now, s.intv);
      var average := SliceDivided(acc, n as real);
      var reset := s.(nextAt := (t.now / s.intv + 1) * s.intv, acc := map[], nrSamples := 0);
      if t.usage.None? then (reset, Some(Emission(stamp, n, average, None)))
      else
        var contents := WithUsage(average, t.usage.value);
        var files := if t.committed then s.files + {stamp} else s.files;
        var kept := if s.retention.None? then files else files - Expired(wasAt, t.now, s.retention.value);
        (reset.(files := kept),
         Some(Emission(stamp, n, average, if t.committed then Some(contents) else None)))
  }

  class ReportFile {
    const intv: nat
    const retention: Option<nat>
    var nextAt: nat
    var acc: SliceMap
    var nrSamples: nat
    var files: set<nat>

    ghost function View(): State
      reads this
    {
      State(intv, retention, nextAt, acc, nrSamples, files)
    }

    constructor (intv: nat, retention: Option<nat>, dir: set<nat>, now: nat)
      requires intv > 0 && (retention.Some? ==> retention.value <= now)
      ensures View() == NewFile(intv, retention, dir, now)
    {
      this.intv, this.retention := intv, retention;
      nextAt := (now / intv + 1) * intv;
      acc, nrSamples := map[], 0;
      files := dir;
      new;
      Clear(now);
    }

    // clear_old_report_files
    method Clear(now: nat)
      requires retention.Some? ==> retention.value <= now
      modifies this`files
      ensures files == ClearOld(old(files), retention, now)
    {
      if retention.None? {
        return;
      }
      var todo := files;
      while todo != {}
        invariant todo <= files <= old(files)
        invariant forall f :: f in old(files) && f !in todo ==> (f in files <==> f >= now - retention.value)
        decreases todo
      {
        var f :| f in todo;
        if f < now - retention.value {
          files := files - {f};
        }
        todo := todo - {f};
      }
    }

    method RemoveExpired(wasAt: nat, now: nat)
      requires wasAt <= now
      requires retention.Some? ==> retention.value <= wasAt
      modifies this`files
      ensures retention.None? ==> files == old(files)
      ensures retention.Some? ==> files == old(files) - Expired(wasAt, now, retention.value)
    {
      if retention.Some? {
        for i := wasAt to now
          invariant files == old(files) - Expired(wasAt, i, retention.value)
        {
          assert forall f: nat :: f in Expired(wasAt, i + 1, retention.value) <==>
                                  f in Expired(wasAt, i, retention.value) || f == i - retention.value;
          files := files - {i - retention.value};
        }
      }
    }

    method DoTick(t: TickIn) returns (emission: Option<Emission>)
      requires intv > 0 && nextAt >= intv
      requires retention.Some? ==> retention.value <= nextAt - intv
      modifies this
      ensures (View(), emission) == Tick(old(View()), t)
    {
      acc := AccSliceStatMap(acc, t.stats);
      nrSamples := nrSamples + 1;
      if t.now < nextAt {
        return None;
      }
      var wasAt := nextAt - intv;
      nextAt := (t.now / intv + 1) * intv;
      var stamp := Align(t.now, intv);
      var average := SliceDivided(acc, nrSamples as real);
      var count := nrSamples;
      acc, nrSamples := map[], 0;
      if t.usage.None? {
        return Some(Emission(stamp, count, average, None));
      }
      var contents := WithUsage(average, t.usage.value);
      var written := None;
      if t.committed {
        files := files + {stamp};
        written := Some(contents);
      }
      RemoveExpired(wasAt, t.now);
      return Some(Emission(stamp, count, average, written));
    }
  }

  // ---- Every run of ticks -----------------------------------------------------

  ghost predicate StateOk(s: State) {
    && s.intv > 0 && s.nextAt >= s.intv && Multiple(s.nextAt, s.intv)
    && (s.retention.Some? ==> s.retention.value <= s.nextAt - s.intv)
  }

  lemma NewFileOk(intv: nat, retention: Option<nat>, dir: set<nat>, now: nat)
    requires intv > 0 && (retention.Some? ==> retention.value <= Align(now, intv))
    ensures StateOk(NewFile(intv, retention, dir, now))
    ensures NewFile(intv, retention, dir, now).nextAt == Align(now, intv) + intv
  {
    AlignFacts(now, intv);
    MultipleIdx(now / intv + 1, intv);
  }

  // A tick that closes a window moves to the window after `now`.
  lemma NextWindow(s: State, now: nat)
    requires StateOk(s) && now >= s.nextAt
    ensures (now / s.intv + 1) * s.intv == Align(now, s.intv) + s.intv
    ensures Multiple(Align(now, s.intv), s.intv)
    ensures s.nextAt <= Align(now, s.intv) <= now < Align(now, s.intv) + s.intv
  {
    AlignFacts(now, s.intv);
    MultipleIsAligned(s.nextAt, s.intv);
    IdxMono(s.nextAt, now, s.intv);
  }

  lemma TickKeepsOk(s: State, t: TickIn)
    requires StateOk(s)
    ensures StateOk(Tick(s, t).0)
  {
    if t.now >= s.nextAt {
      NextWindow(s, t.now);
      NextMultiple(Align(t.now, s.intv), s.intv);
    }
  }

  datatype Run = Run(state: State, emissions: seq<Emission>)

  ghost function RunOf(init: State, ticks: seq<TickIn>): (r: Run)
    requires StateOk(init)
    ensures StateOk(r.state) && r.state.intv == init.intv && r.state.retention == init.retention
  {
    if ticks == [] then Run(init, [])
    else
      var n := |ticks| - 1;
      var p := RunOf(init, ticks[..n]);
      TickKeepsOk(p.state, ticks[n]);
      var (s, e) := Tick(p.state, ticks[n]);
      Run(s, if e.Some? then p.emissions + [e.value] else p.emissions)
  }

  // Reference: the statistics of a run of base reports, summed.
  function Total(ticks: seq<TickIn>): SliceMap {
    if ticks == [] then map[] else SliceSum(Total(ticks[..|ticks| - 1]), ticks[|ticks| - 1].stats)
  }

  // Number of base reports the first windows cover together.
  function Covered(es: seq<Emission>): nat {
    if es == [] then 0 else Covered(es[..|es| - 1]) + es[|es| - 1].count
  }

  // Window `j` covers the base reports after those of the windows before it and
  // averages exactly these.
  ghost predicate Averages(es: seq<Emission>, ticks: seq<TickIn>, j: nat)
    requires j < |es|
  {
    var from := Covered(es[..j]);
    && es[j].count > 0
    && from + es[j].count <= |ticks|
    && es[j].average == SliceDivided(Total(ticks[from..from + es[j].count]), es[j].count as real)
  }

  ghost predicate Partitioned(r: Run, ticks: seq<TickIn>) {
    && Covered(r.emissions) + r.state.nrSamples == |ticks|
    && r.state.acc == Total(ticks[Covered(r.emissions)..])
    && (forall j :: 0 <= j < |r.emissions| ==> Averages(r.emissions, ticks, j))
  }

  lemma {:induction false} TotalSnoc(ticks: seq<TickIn>, from: nat, t: TickIn)
    requires from <= |ticks|
    ensures Total((ticks + [t])[from..]) == SliceSum(Total(ticks[from..]), t.stats)
  {
    var all := (ticks + [t])[from..];
    assert all == ticks[from..] + [t];
    assert all[..|all| - 1] == ticks[from..];
  }

  lemma {:induction false} AveragesStay(es: seq<Emission>, more: seq<Emission>, ticks: seq<TickIn>, t: TickIn, j: nat)
    requires j < |es| && Averages(es, ticks, j)
    ensures Averages(es + more, ticks + [t], j)
  {
    hide SliceDivided, Total, SliceSum;
    assert (es + more)[..j] == es[..j];
    var from := Covered(es[..j]);
    assert (ticks + [t])[from..from + es[j].count] == ticks[from..from + es[j].count];
  }

  // The run after one more tick.
  ghost function Extend(p: Run, t: TickIn): Run
    requires StateOk(p.state)
  {
    var (s, e) := Tick(p.state, t);
    Run(s, if e.Some? then p.emissions + [e.value] else p.emissions)
  }

  // What a tick does to the accumulator and to the count of base reports.
  lemma TickCounts(s: State, t: TickIn)
    requires StateOk(s)
    ensures var (s', e) := Tick(s, t);
            var acc := SliceSum(s.acc, t.stats);
            && (e.None? ==> s'.acc == acc && s'.nrSamples == s.nrSamples + 1)
            && (e.Some? ==> s'.acc == map[] && s'.nrSamples == 0 && e.value.count == s.nrSamples + 1
                            && e.value.average == SliceDivided(acc, e.value.count as real))
  {
  }

  lemma {:induction false} WindowsStay(es: seq<Emission>, more: seq<Emission>, ticks: seq<TickIn>, t: TickIn)
    requires forall j :: 0 <= j < |es| ==> Averages(es, ticks, j)
    ensures forall j :: 0 <= j < |es| ==> Averages(es + more, ticks + [t], j)
  {
    forall j | 0 <= j < |es| ensures Averages(es + more, ticks + [t], j) {
      AveragesStay(es, more, ticks, t, j);
    }
  }

  lemma {:induction false} CoveredSnoc(es: seq<Emission>, e: Emission)
    ensures Covered(es + [e]) == Covered(es) + e.count
  {
    assert (es + [e])[..|es|] == es;
  }

  // Closing a window over everything not covered yet.
  lemma {:induction false} WindowCloses(es: seq<Emission>, e: Emission, ticks: seq<TickIn>)
    requires Covered(es) + e.count == |ticks| && e.count > 0
    requires e.average == SliceDivided(Total(ticks[Covered(es)..]), e.count as real)
    ensures Averages(es + [e], ticks, |es|)
    ensures Covered(es + [e]) == |ticks|
  {
    CoveredSnoc(es, e);
    assert (es + [e])[..|es|] == es;
    assert ticks[Covered(es)..Covered(es) + e.count] == ticks[Covered(es)..];
  }

  lemma {:induction false} PartitionStep(p: Run, before: seq<TickIn>, t: TickIn)
    requires StateOk(p.state) && Partitioned(p, before)
    ensures Partitioned(Extend(p, t), before + [t])
  {
    var ticks := before + [t];
    TotalSnoc(before, Covered(p.emissions), t);
    TickCounts(p.state, t);
    hide Tick, SliceSum, SliceDivided, StateOk, Averages, Covered;
    var e := Tick(p.state, t).1;
    if e.Some? {
      WindowsStay(p.emissions, [e.value], before, t);
      WindowCloses(p.emissions, e.value, ticks);
      assert ticks[|ticks|..] == [];
    } else {
      WindowsStay(p.emissions, [], before, t);
      assert p.emissions + [] == p.emissions;
    }
  }

  // Each base report is accumulated into exactly one window: the windows' reports
  // and the open window's, in order, are the reports of the run.
  lemma {:induction false} WindowsPartition(init: State, ticks: seq<TickIn>)
    requires StateOk(init) && init.nrSamples == 0 && init.acc == map[]
    ensures Partitioned(RunOf(init, ticks), ticks)
  {
    if ticks != [] {
      var n := |ticks| - 1;
      WindowsPartition(init, ticks[..n]);
      assert ticks == ticks[..n] + [ticks[n]];
      PartitionStep(RunOf(init, ticks[..n]), ticks[..n], ticks[n]);
      hide Tick, Partitioned, StateOk;
    }
  }

  // Window stamps are multiples of the interval and strictly increase.
  lemma {:induction false} StampsIncrease(init: State, ticks: seq<TickIn>)
    requires StateOk(init)
    ensures var r := RunOf(init, ticks);
            && (forall j :: 0 <= j < |r.emissions| ==>
                  Multiple(r.emissions[j].stamp, init.intv) && r.emissions[j].stamp < r.state.nextAt)
            && (forall i, j :: 0 <= i < j < |r.emissions| ==> r.emissions[i].stamp < r.emissions[j].stamp)
            && init.nextAt <= r.state.nextAt
  {
    if ticks != [] {
      var n := |ticks| - 1;
      var p := RunOf(init, ticks[..n]);
      StampsIncrease(init, ticks[..n]);
      if ticks[n].now >= p.state.nextAt {
        NextWindow(p.state, ticks[n].now);
      }
    }
  }

  // ---- Retention ---------------------------------------------------------------

  // No file is older than what the last window's start retains.
  ghost predicate NoneStale(s: State) {
    s.retention.Some? ==> forall f :: f in s.files ==> f + s.retention.value >= s.nextAt - s.intv
  }

  lemma StartupNoneStale(intv: nat, retention: Option<nat>, dir: set<nat>, now: nat)
    requires intv > 0 && (retention.Some? ==> retention.value <= Align(now, intv))
    ensures NoneStale(NewFile(intv, retention, dir, now))
  {
    NewFileOk(intv, retention, dir, now);
    AlignFacts(now, intv);
  }

  // A reporting tick whose usage update succeeds leaves no file older than the
  // retention period and deletes no unexpired one.
  lemma TickRetention(s: State, t: TickIn)
    requires StateOk(s) && NoneStale(s) && s.retention.Some?
    requires t.now >= s.nextAt ==> t.usage.Some?
    ensures var s' := Tick(s, t).0;
            && NoneStale(s')
            && (forall f :: f in s.files && f + s.retention.value >= t.now ==> f in s'.files)
            && (t.now >= s.nextAt ==> forall f :: f in s'.files ==> f + s.retention.value >= t.now)
            && (t.now < s.nextAt ==> s'.files == s.files)
            && (t.now >= s.nextAt ==> forall f :: f in s'.files ==> f in s.files || f == Align(t.now, s.intv))
  {
    if t.now >= s.nextAt {
      NextWindow(s, t.now);
      hide Align;
      var s' := Tick(s, t).0;
      var ret := s.retention.value;
      forall f | f in s'.files ensures f + ret >= t.now {
        assert f !in Expired(s.nextAt - s.intv, t.now, ret);
        assert f in s.files || f == Align(t.now, s.intv);
      }
    }
  }

  // From startup on, as long as usage updates succeed, no window's deletions
  // leave a gap.
  lemma {:induction false} RetentionHolds(intv: nat, retention: nat, dir: set<nat>, now: nat, ticks: seq<TickIn>)
    requires intv > 0 && retention <= Align(now, intv)
    requires forall i :: 0 <= i < |ticks| ==> ticks[i].usage.Some?
    ensures StateOk(NewFile(intv, Some(retention), dir, now))
    ensures var s := RunOf(NewFile(intv, Some(retention), dir, now), ticks).state;
            && NoneStale(s)
            && (forall f :: f in s.files ==> f + retention >= s.nextAt - intv)
  {
    NewFileOk(intv, Some(retention), dir, now);
    if ticks == [] {
      StartupNoneStale(intv, Some(retention), dir, now);
    } else {
      var n := |ticks| - 1;
      RetentionHolds(intv, retention, dir, now, ticks[..n]);
      TickRetention(RunOf(NewFile(intv, Some(retention), dir, now), ticks[..n]).state, ticks[n]);
    }
  }

  // In every run, a reporting tick leaves no file older than the retention period
  // and no tick deletes an unexpired one.
  lemma EveryReportRetains(intv: nat, retention: nat, dir: set<nat>, now: nat, ticks: seq<TickIn>, t: TickIn)
    requires intv > 0 && retention <= Align(now, intv)
    requires t.usage.Some? && forall i :: 0 <= i < |ticks| ==> ticks[i].usage.Some?
    ensures StateOk(NewFile(intv, Some(retention), dir, now))
    ensures var s := RunOf(NewFile(intv, Some(retention), dir, now), ticks).state;
            var s' := Tick(s, t).0;
            && (t.now >= s.nextAt ==> forall f :: f in s'.files ==> f + retention >= t.now)
            && (forall f :: f in s.files && f + retention >= t.now ==> f in s'.files)
            && (forall f :: f in s'.files ==> f in s.files || (t.now >= s.nextAt && f == Align(t.now, intv)))
  {
    hide Tick, NoneStale, Align;
    NewFileOk(intv, Some(retention), dir, now);
    RetentionHolds(intv, retention, dir, now, ticks);
    TickRetention(RunOf(NewFile(intv, Some(retention), dir, now), ticks).state, t);
  }

  // A window whose usage update fails skips its deletions for good: of the files
  // there were, the next reporting tick leaves exactly those stale ones behind
  // that had expired before the failed window ended.
  lemma FailedUsageLeaksFiles(s: State, failed: TickIn, next: TickIn, f: nat)
    requires StateOk(s) && s.retention.Some? && f in s.files
    requires failed.now >= s.nextAt && failed.usage.None?
    requires next.usage.Some? && next.now >= Tick(s, failed).0.nextAt
    requires !(next.committed && f == Align(next.now, s.intv))
    ensures var s' := Tick(Tick(s, failed).0, next).0;
            f in s'.files && f + s.retention.value < next.now <==> f + s.retention.value < Align(failed.now, s.intv)
  {
    NextWindow(s, failed.now);
    TickKeepsOk(s, failed);
    NextWindow(Tick(s, failed).0, next.now);
  }

  // Ticks whose usage updates fail delete and write nothing.
  lemma {:induction false} FailuresKeepFiles(s: State, fails: seq<TickIn>)
    requires StateOk(s) && forall i :: 0 <= i < |fails| ==> fails[i].usage.None?
    ensures RunOf(s, fails).state.files == s.files
  {
    if fails != [] {
      FailuresKeepFiles(s, fails[..|fails| - 1]);
    }
  }

  // After any number of failed windows, the next reporting tick leaves exactly
  // those stale files behind that had expired before the last of them ended.
  lemma FailedWindowsLeakFiles(s: State, fails: seq<TickIn>, next: TickIn, f: nat)
    requires StateOk(s) && s.retention.Some? && f in s.files
    requires forall i :: 0 <= i < |fails| ==> fails[i].usage.None?
    requires next.usage.Some? && next.now >= RunOf(s, fails).state.nextAt
    requires !(next.committed && f == Align(next.now, s.intv))
    ensures var m := RunOf(s, fails).state;
            var s' := Tick(m, next).0;
            f in s'.files && f + s.retention.value < next.now <==> f + s.retention.value < m.nextAt - m.intv
  {
    FailuresKeepFiles(s, fails);
    NextWindow(RunOf(s, fails).state, next.now);
  }

  // It happens from startup on: with windows of 10 and a retention of 20, the
  // file of time 16 outlives the reports at 40 (failed) and 50.
  lemma LeakFromStartup()
    ensures var s := NewFile(10, Some(20), {16}, 35);
            var failed := TickIn(map[], 40, None, true);
            var next := TickIn(map[], 50, Some(map[]), true);
            && StateOk(s) && s.files == {16} && failed.now >= s.nextAt
            && var m := Tick(s, failed).0;
               next.now >= m.nextAt && 16 in Tick(m, next).0.files && 16 + 20 < next.now
  {
    var s := NewFile(10, Some(20), {16}, 35);
    assert s.nextAt == 40 && s.files == {16};
    var failed := TickIn(map[], 40, None, true);
    var m := Tick(s, failed).0;
    assert m.nextAt == 50 && m.files == {16};
    assert 16 !in Expired(40, 50, 20);
  }

  // ---- What the summaries say ----------------------------------------------------

  // One statistic, zero where it is missing.
  function Stat(m: SliceMap, slice: string, key: string): real {
    if slice in m && key in m[slice] then m[slice][key] else 0.0
  }

  predicate Occurs(m: SliceMap, slice: string, key: string) {
    slice in m && key in m[slice]
  }

  // A statistic added up over base reports.
  function SumOver(ticks: seq<TickIn>, slice: string, key: string): real {
    if ticks == [] then 0.0 else Stat(ticks[0].stats, slice, key) + SumOver(ticks[1..], slice, key)
  }

  ghost predicate OccursIn(ticks: seq<TickIn>, slice: string, key: string) {
    exists i :: 0 <= i < |ticks| && Occurs(ticks[i].stats, slice, key)
  }

  lemma {:induction false} SumOverSnoc(ticks: seq<TickIn>, t: TickIn, slice: string, key: string)
    ensures SumOver(ticks + [t], slice, key) == SumOver(ticks, slice, key) + Stat(t.stats, slice, key)
  {
    if ticks == [] {
      assert ticks + [t] == [t] && [t][1..] == [];
    } else {
      assert (ticks + [t])[0] == ticks[0] && (ticks + [t])[1..] == ticks[1..] + [t];
      SumOverSnoc(ticks[1..], t, slice, key);
    }
  }

  lemma SliceSumStat(a: SliceMap, b: SliceMap, slice: string, key: string)
    ensures Stat(SliceSum(a, b), slice, key) == Stat(a, slice, key) + Stat(b, slice, key)
    ensures Occurs(SliceSum(a, b), slice, key) <==> Occurs(a, slice, key) || Occurs(b, slice, key)
    ensures slice in SliceSum(a, b) <==> slice in a || slice in b
  {
  }

  lemma DividedStat(m: SliceMap, n: nat, slice: string, key: string)
    requires n > 0
    ensures Stat(SliceDivided(m, n as real), slice, key) * n as real == Stat(m, slice, key)
    ensures Occurs(SliceDivided(m, n as real), slice, key) <==> Occurs(m, slice, key)
    ensures slice in SliceDivided(m, n as real) <==> slice in m
  {
    if Occurs(m, slice, key) {
      Undivided(m[slice][key], n);
    }
  }

  lemma Undivided(x: real, n: nat)
    requires n > 0
    ensures x / n as real * n as real == x
  {
  }

  lemma {:induction false} TotalStat(ticks: seq<TickIn>, slice: string, key: string)
    ensures Stat(Total(ticks), slice, key) == SumOver(ticks, slice, key)
    ensures Occurs(Total(ticks), slice, key) <==> OccursIn(ticks, slice, key)
    ensures slice in Total(ticks) <==> exists i :: 0 <= i < |ticks| && slice in ticks[i].stats
  {
    hide SliceSum;
    if ticks != [] {
      var n := |ticks| - 1;
      assert ticks == ticks[..n] + [ticks[n]];
      TotalStat(ticks[..n], slice, key);
      SumOverSnoc(ticks[..n], ticks[n], slice, key);
      SliceSumStat(Total(ticks[..n]), ticks[n].stats, slice, key);
      OccursSnoc(ticks[..n], ticks[n], slice, key);
    }
  }

  lemma OccursSnoc(ticks: seq<TickIn>, t: TickIn, slice: string, key: string)
    ensures OccursIn(ticks + [t], slice, key) <==> OccursIn(ticks, slice, key) || Occurs(t.stats, slice, key)
    ensures (exists i :: 0 <= i < |ticks + [t]| && slice in (ticks + [t])[i].stats)
            <==> slice in t.stats || exists i :: 0 <= i < |ticks| && slice in ticks[i].stats
  {
    var all := ticks + [t];
    assert all[|ticks|] == t;
    assert forall i :: 0 <= i < |ticks| ==> all[i] == ticks[i];
  }

  // The base reports of window `j`.
  ghost function WindowOf(es: seq<Emission>, ticks: seq<TickIn>, j: nat): seq<TickIn>
    requires j < |es| && Covered(es[..j]) + es[j].count <= |ticks|
  {
    ticks[Covered(es[..j])..Covered(es[..j]) + es[j].count]
  }

  // Every summary's average is, statistic by statistic, the sum over the base
  // reports of its own window divided by their number, and covers exactly the
  // statistics that occur there.
  lemma SummariesAverage(init: State, ticks: seq<TickIn>, j: nat, slice: string, key: string)
    requires StateOk(init) && init.nrSamples == 0 && init.acc == map[]
    requires j < |RunOf(init, ticks).emissions|
    ensures var es := RunOf(init, ticks).emissions;
            && es[j].count > 0 && Covered(es[..j]) + es[j].count <= |ticks|
            && var w := WindowOf(es, ticks, j);
               && |w| == es[j].count
               && Stat(es[j].average, slice, key) * es[j].count as real == SumOver(w, slice, key)
               && (Occurs(es[j].average, slice, key) <==> OccursIn(w, slice, key))
               && (slice in es[j].average <==> exists i :: 0 <= i < |w| && slice in w[i].stats)
  {
    hide RunOf, StateOk, Total, SliceDivided, Stat, SumOver, Occurs, OccursIn;
    WindowsPartition(init, ticks);
    var es := RunOf(init, ticks).emissions;
    assert Averages(es, ticks, j);
    var w := WindowOf(es, ticks, j);
    TotalStat(w, slice, key);
    DividedStat(Total(w), es[j].count, slice, key);
  }

  // The windows tile the run: each starts where the one before it ends, and what is
  // left over is still open.
  lemma {:induction false} WindowsTile(es: seq<Emission>, j: nat)
    requires j < |es|
    ensures Covered(es[..j + 1]) == Covered(es[..j]) + es[j].count
  {
    assert es[..j + 1] == es[..j] + [es[j]];
    CoveredSnoc(es[..j], es[j]);
  }

  // What a window writes: nothing unless the usage update and the commit succeed,
  // else its average with the tracker's numbers for the three top slices.
  ghost predicate WrittenFrom(e: Emission, t: TickIn, intv: nat)
    requires intv > 0
  {
    && e.stamp == t.now / intv * intv
    && (e.written.Some? <==> t.usage.Some? && t.committed)
    && (e.written.Some? ==> forall slice ::
          var tracked := slice in t.usage.value && slice in ["-.slice", "workload.slice", "system.slice"];
          && (slice in e.written.value <==> tracked || slice in e.average)
          && (tracked ==> e.written.value[slice] == t.usage.value[slice])
          && (!tracked && slice in e.average ==> e.written.value[slice] == e.average[slice]))
  }

  lemma TickWrites(s: State, t: TickIn)
    requires StateOk(s)
    ensures Tick(s, t).1.Some? <==> t.now >= s.nextAt
    ensures Tick(s, t).1.Some? ==> WrittenFrom(Tick(s, t).1.value, t, s.intv)
  {
    hide SliceSum, SliceDivided, Expired;
  }

  // Window `j` is written as of the base report that closes it.
  ghost predicate ClosedBy(es: seq<Emission>, ticks: seq<TickIn>, j: nat, intv: nat)
    requires j < |es| && intv > 0
  {
    && 0 < Covered(es[..j + 1]) <= |ticks|
    && WrittenFrom(es[j], ticks[Covered(es[..j + 1]) - 1], intv)
  }

  lemma ClosedByStays(es: seq<Emission>, more: seq<Emission>, ticks: seq<TickIn>, t: TickIn, j: nat, intv: nat)
    requires intv > 0 && j < |es| && ClosedBy(es, ticks, j, intv)
    ensures ClosedBy(es + more, ticks + [t], j, intv)
  {
    hide WrittenFrom, Covered;
    assert (es + more)[..j + 1] == es[..j + 1];
  }

  lemma ClosedByStep(p: Run, before: seq<TickIn>, t: TickIn)
    requires StateOk(p.state) && Partitioned(p, before)
    requires forall j :: 0 <= j < |p.emissions| ==> ClosedBy(p.emissions, before, j, p.state.intv)
    ensures var r := Extend(p, t);
            forall j :: 0 <= j < |r.emissions| ==> ClosedBy(r.emissions, before + [t], j, p.state.intv)
  {
    hide Tick, WrittenFrom, SliceSum, SliceDivided, Total, Covered, Averages, ClosedBy;
    TickWrites(p.state, t);
    TickCounts(p.state, t);
    var e := Tick(p.state, t).1;
    var more := if e.Some? then [e.value] else [];
    assert Extend(p, t).emissions == p.emissions + more;
    forall j | 0 <= j < |p.emissions| ensures ClosedBy(p.emissions + more, before + [t], j, p.state.intv) {
      ClosedByStays(p.emissions, more, before, t, j, p.state.intv);
    }
    if e.Some? {
      LastClosedBy(p.emissions, e.value, before, t, p.state.intv);
    }
  }

  lemma LastClosedBy(es: seq<Emission>, e: Emission, before: seq<TickIn>, t: TickIn, intv: nat)
    requires intv > 0 && WrittenFrom(e, t, intv) && Covered(es) + e.count == |before| + 1
    ensures ClosedBy(es + [e], before + [t], |es|, intv)
  {
    hide WrittenFrom, Covered;
    assert (es + [e])[..|es| + 1] == es + [e];
    CoveredSnoc(es, e);
  }

  // Every summary is stamped and written as of the base report that closes its
  // window.
  lemma {:induction false} SummariesWritten(init: State, ticks: seq<TickIn>)
    requires StateOk(init) && init.nrSamples == 0 && init.acc == map[]
    ensures var es := RunOf(init, ticks).emissions;
            forall j :: 0 <= j < |es| ==> ClosedBy(es, ticks, j, init.intv)
  {
    hide ClosedBy, Partitioned, SliceSum, SliceDivided, Expired;
    if ticks != [] {
      var n := |ticks| - 1;
      SummariesWritten(init, ticks[..n]);
      WindowsPartition(init, ticks[..n]);
      assert ticks == ticks[..n] + [ticks[n]];
      ClosedByStep(RunOf(init, ticks[..n]), ticks[..n], ticks[n]);
      assert RunOf(init, ticks) == Extend(RunOf(init, ticks[..n]), ticks[n]);
    }
  }

  // The boundary after a tick: the first multiple of the interval behind the report
  // that closed a window, and otherwise the one before.
  lemma TickBoundary(s: State, t: TickIn)
    requires StateOk(s)
    ensures var next := Tick(s, t).0.nextAt;
            && next % s.intv == 0
            && (if t.now >= s.nextAt then next - s.intv <= t.now < next else next == s.nextAt)
  {
    TickKeepsOk(s, t);
    if t.now >= s.nextAt {
      NextWindow(s, t.now);
    }
  }

  // ---- Exactly which files there are --------------------------------------------------

  // The sweep at startup keeps exactly what has not expired.
  lemma StartupFiles(intv: nat, retention: Option<nat>, dir: set<nat>, now: nat, f: nat)
    requires intv > 0 && (retention.Some? ==> retention.value <= now)
    ensures f in NewFile(intv, retention, dir, now).files
            <==> f in dir && (retention.Some? ==> f + retention.value >= now)
    ensures var s := NewFile(intv, retention, dir, now);
            s.nextAt % intv == 0 && s.nextAt - intv <= now < s.nextAt && s.nrSamples == 0 && s.acc == map[]
  {
    AlignFacts(now, intv);
    MultipleIdx(now / intv + 1, intv);
  }

  // A reporting tick adds its own file, if written, and deletes exactly what expired
  // since the window's start.
  lemma TickFiles(s: State, t: TickIn, f: nat)
    requires StateOk(s)
    ensures var reports := t.now >= s.nextAt && t.usage.Some?;
            f in Tick(s, t).0.files <==>
              && (f in s.files || (reports && t.committed && f == t.now / s.intv * s.intv))
              && !(reports && s.retention.Some? && s.nextAt - s.intv <= f + s.retention.value < t.now)
  {
    hide SliceSum, SliceDivided;
  }
}
