// The agent's command runner (rd-agent/src/cmd.rs) with the sequence updates of
// rd-agent/src/bench.rs: a four-state machine driven by benchmark sequence
// numbers, and the main loop around it.
//
// Services are present or absent; what systemd, sysctl and the file system
// answer are inputs.  Failures the source turns into a panic are not runs.
module Runner {
  import opened Wrappers

  const U64_MAX: nat := 0xFFFF_FFFF_FFFF_FFFF

  type Seq = x: nat | x <= U64_MAX

  datatype RunState = Idle | Running | BenchHashd | BenchIoCost

  // The parts of the command file the runner acts on.
  datatype Cmd = Cmd(cmdSeq: Seq, hashdSeq: Seq, iocostSeq: Seq, hashdA: bool, hashdB: bool)

  // The recorded benchmark sequences.
  datatype Bench = Bench(hashdSeq: Seq, iocostSeq: Seq)

  datatype Data = Data(
    state: RunState,
    forceApply: bool,
    benchHashd: bool,
    benchIocost: bool,
    hashdA: bool,
    hashdB: bool,
    sysloads: set<string>,
    cmd: Cmd,
    bench: Bench,
    ackSeq: Seq,
    forceRunning: bool)

  // What one apply_cmd meets: whether the sysctl writes succeed, whether a
  // benchmark service starts, and the sysloads running afterwards.
  datatype ApplyEnv = ApplyEnv(sysctlOk: bool, startOk: bool, sysloads: set<string>)

  datatype Applied = Again | Finished | Failed

  datatype UnitState = UnitRunning | UnitExited | UnitOther

  // What one check_completions meets.  `loadOk`: the results parse; `copyOk`:
  // update_hashd's copies succeed; `saveOk`: the bench file is saved;
  // `iocostOk`: the new iocost configuration is applied.
  datatype CheckEnv = CheckEnv(refreshOk: bool, unit: UnitState, loadOk: bool, copyOk: bool, saveOk: bool, iocostOk: bool)

  // ---- The operations on values ----------------------------------------------

  function BecomeIdle(r: Data): Data {
    r.(state := Idle, benchHashd := false, benchIocost := false, hashdA := false, hashdB := false, sysloads := {})
  }

  function ApplyCmd(r0: Data, env: ApplyEnv): (Data, Applied) {
    var r := r0.(ackSeq := r0.cmd.cmdSeq);
    if !env.sysctlOk then (r, Failed)
    else
      match r.state
      case Idle =>
        if r.cmd.iocostSeq > r.bench.iocostSeq then
          if env.startOk then (r.(benchIocost := true, state := BenchIoCost, forceApply := true), Finished)
          else (r, Failed)
        else if r.cmd.hashdSeq > r.bench.hashdSeq then
          if r.bench.iocostSeq > 0 || r.forceRunning then
            if env.startOk then (r.(benchHashd := true, state := BenchHashd, forceApply := true), Finished)
            else (r, Failed)
          else (r, Finished)
        else if r.bench.hashdSeq > 0 || r.forceRunning then (r.(state := Running), Again)
        else (r, Finished)
      case Running =>
        if r.cmd.hashdSeq > r.bench.hashdSeq || r.cmd.iocostSeq > r.bench.iocostSeq then (BecomeIdle(r), Finished)
        else (r.(hashdA := r.cmd.hashdA, hashdB := r.cmd.hashdB, sysloads := env.sysloads), Finished)
      case BenchHashd =>
        if r.cmd.hashdSeq <= r.bench.hashdSeq then (BecomeIdle(r), Finished) else (r, Finished)
      case BenchIoCost =>
        if r.cmd.iocostSeq <= r.bench.iocostSeq then (BecomeIdle(r), Finished) else (r, Finished)
  }

  // An unsigned increment without overflow checks.
  function Incremented(x: Seq): Seq {
    if x == U64_MAX then 0 else x + 1
  }

  // update_hashd's sequence number
  function NextHashdSeq(r: Data): Seq {
    if r.cmd.hashdSeq == U64_MAX then Incremented(r.bench.hashdSeq) else r.cmd.hashdSeq
  }

  function CheckCompletions(r: Data, env: CheckEnv): Data
  {
    if r.state.Idle? || r.state.Running? || !env.refreshOk || env.unit.UnitRunning? then r
    else if env.unit.UnitOther? then BecomeIdle(r)
    else if !env.loadOk then r
    else if r.state.BenchHashd? then
      var done := r.(bench := r.bench.(hashdSeq := NextHashdSeq(r)));
      if env.copyOk && env.saveOk then BecomeIdle(done) else done
    else
      var done := r.(bench := r.bench.(iocostSeq := r.cmd.iocostSeq));
      if env.saveOk && env.iocostOk then BecomeIdle(done) else done
  }

  // Files that changed since the last look, if any; `sliceChanged` stands for the
  // slice configuration.
  function MaybeReload(r: Data, newBench: Option<Bench>, newCmd: Option<Cmd>, sliceChanged: bool): (Data, bool) {
    var frozen := r.state.BenchHashd? || r.state.BenchIoCost?;
    var reBench := !frozen && (newBench.Some? || r.forceApply);
    var reSlice := !frozen && (sliceChanged || r.forceApply);
    var bench := if !frozen && newBench.Some? then newBench.value else r.bench;
    var cmd := if newCmd.Some? then newCmd.value else r.cmd;
    (r.(bench := bench, cmd := cmd, forceApply := frozen && r.forceApply),
     reBench || newCmd.Some? || reSlice)
  }

  // The loop around apply_cmd; `envs` are consecutive calls' environments.
  function ApplyAll(r: Data, envs: nat -> ApplyEnv, n: nat): Data
    decreases r.state.Idle?, ApplyCmd(r, envs(n)).1.Again?
  {
    var (r', applied) := ApplyCmd(r, envs(n));
    if applied.Again? then ApplyAll(r', envs, n + 1) else r'
  }

  // ---- The class ---------------------------------------------------------------

  class RunnerData {
    var state: RunState
    var forceApply: bool
    var benchHashd: bool
    var benchIocost: bool
    var hashdA: bool
    var hashdB: bool
    var sysloads: set<string>
    var cmd: Cmd
    var bench: Bench
    var ackSeq: Seq
    const forceRunning: bool

    ghost function View(): Data
      reads this
    {
      Data(state, forceApply, benchHashd, benchIocost, hashdA, hashdB, sysloads, cmd, bench, ackSeq, forceRunning)
    }

    constructor (cmd: Cmd, bench: Bench, forceRunning: bool)
      ensures View() == InitData(cmd, bench, forceRunning)
    {
      state, forceApply, benchHashd, benchIocost := Idle, false, false, false;
      hashdA, hashdB, sysloads, ackSeq := false, false, {}, 0;
      this.cmd, this.bench, this.forceRunning := cmd, bench, forceRunning;
    }

    method DoBecomeIdle()
      modifies this
      ensures View() == BecomeIdle(old(View()))
    {
      benchHashd, benchIocost := false, false;
      hashdA, hashdB, sysloads := false, false, {};
      state := Idle;
    }

    method DoApplyCmd(env: ApplyEnv) returns (applied: Applied)
      modifies this
      ensures (View(), applied) == ApplyCmd(old(View()), env)
    {
      var repeat := false;
      ackSeq := cmd.cmdSeq;
      if !env.sysctlOk {
        return Failed;
      }
      match state {
      case Idle =>
        if cmd.iocostSeq > bench.iocostSeq {
          if !env.startOk {
            return Failed;
          }
          benchIocost := true;
          state := BenchIoCost;
          forceApply := true;
        } else if cmd.hashdSeq > bench.hashdSeq {
          if bench.iocostSeq > 0 || forceRunning {
            if !env.startOk {
              return Failed;
            }
            benchHashd := true;
            state := BenchHashd;
            forceApply := true;
          }
        } else if bench.hashdSeq > 0 || forceRunning {
          state := Running;
          repeat := true;
        }
      case Running =>
        if cmd.hashdSeq > bench.hashdSeq || cmd.iocostSeq > bench.iocostSeq {
          DoBecomeIdle();
        } else {
          hashdA, hashdB, sysloads := cmd.hashdA, cmd.hashdB, env.sysloads;
        }
      case BenchHashd =>
        if cmd.hashdSeq <= bench.hashdSeq {
          DoBecomeIdle();
        }
      case BenchIoCost =>
        if cmd.iocostSeq <= bench.iocostSeq {
          DoBecomeIdle();
        }
      }
      return if repeat then Again else Finished;
    }

    method DoApplyAll(envs: nat -> ApplyEnv)
      modifies this
      ensures View() == ApplyAll(old(View()), envs, 0)
    {
      var n := 0;
      while true
        invariant ApplyAll(View(), envs, n) == ApplyAll(old(View()), envs, 0)
        decreases state.Idle?, ApplyCmd(View(), envs(n)).1.Again?
      {
        var applied := DoApplyCmd(envs(n));
        if !applied.Again? {
          break;
        }
        n := n + 1;
      }
    }

    // The two unwraps of the source are the `Exclusive` precondition.
    method DoCheckCompletions(env: CheckEnv)
      requires Exclusive(View())
      modifies this
      ensures View() == CheckCompletions(old(View()), env)
    {
      if state.BenchHashd? || state.BenchIoCost? {
        assert if state.BenchHashd? then benchHashd else benchIocost;
        if !env.refreshOk {
          return;
        }
        match env.unit
        case UnitRunning =>
          return;
        case UnitExited =>
          if !env.loadOk {
            return;
          }
          if state.BenchHashd? {
            if cmd.hashdSeq == U64_MAX {
              bench := bench.(hashdSeq := Incremented(bench.hashdSeq));
            } else {
              bench := bench.(hashdSeq := cmd.hashdSeq);
            }
            if !env.copyOk || !env.saveOk {
              return;
            }
          } else {
            bench := bench.(iocostSeq := cmd.iocostSeq);
            if !env.saveOk || !env.iocostOk {
              return;
            }
          }
          DoBecomeIdle();
        case UnitOther =>
          DoBecomeIdle();
      }
    }

    method DoMaybeReload(newBench: Option<Bench>, newCmd: Option<Cmd>, sliceChanged: bool) returns (reloaded: bool)
      modifies this
      ensures (View(), reloaded) == MaybeReload(old(View()), newBench, newCmd, sliceChanged)
    {
      var reBench, reSlice := false, false;
      if !state.BenchHashd? && !state.BenchIoCost? {
        var force := forceApply;
        forceApply := false;
        reBench := newBench.Some? || force;
        reSlice := sliceChanged || force;
        if newBench.Some? {
          bench := newBench.value;
        }
      }
      if newCmd.Some? {
        cmd := newCmd.value;
      }
      reloaded := reBench || newCmd.Some? || reSlice;
    }

    // One turn of the main loop.
    method Turn(cmdPending: bool, t: TurnEnv) returns (pending: bool)
      requires Exclusive(View())
      modifies this
      ensures Loop(View(), pending) == Turned(Loop(old(View()), cmdPending), t)
    {
      hide ApplyAll, CheckCompletions, MaybeReload, Exclusive;
      pending := cmdPending;
      AppliedIsExclusive(Loop(View(), cmdPending), t);
      if pending || state.Idle? {
        pending := false;
        DoApplyAll(t.apply);
      }
      DoCheckCompletions(t.check);
      var reloaded := DoMaybeReload(t.newBench, t.newCmd, t.sliceChanged);
      if reloaded {
        pending := true;
      }
    }
  }

  // ---- The main loop -----------------------------------------------------------

  datatype TurnEnv = TurnEnv(
    apply: nat -> ApplyEnv,
    check: CheckEnv,
    newBench: Option<Bench>,
    newCmd: Option<Cmd>,
    sliceChanged: bool)

  datatype Loop = Loop(data: Data, cmdPending: bool)

  function InitData(cmd: Cmd, bench: Bench, forceRunning: bool): Data {
    Data(Idle, false, false, false, false, false, {}, cmd, bench, 0, forceRunning)
  }

  // Applying commands at the top of a turn.
  function AfterApply(l: Loop, t: TurnEnv): Data {
    if l.cmdPending || l.data.state.Idle? then ApplyAll(l.data, t.apply, 0) else l.data
  }

  function Turned(l: Loop, t: TurnEnv): Loop {
    var r := CheckCompletions(AfterApply(l, t), t.check);
    var (r', reloaded) := MaybeReload(r, t.newBench, t.newCmd, t.sliceChanged);
    Loop(r', reloaded)
  }

  // ---- Exclusion ---------------------------------------------------------------

  // A benchmark service is held exactly in its state, workloads only while
  // running.
  ghost predicate Exclusive(r: Data) {
    && (r.benchHashd <==> r.state.BenchHashd?)
    && (r.benchIocost <==> r.state.BenchIoCost?)
    && (r.hashdA || r.hashdB || r.sysloads != {} ==> r.state.Running?)
  }

  // The hashd benchmark runs on a recorded iocost result, unless forced.
  ghost predicate Entitled(r: Data) {
    r.state.BenchHashd? ==> r.bench.iocostSeq > 0 || r.forceRunning
  }

  // Whenever no reload is waiting to be looked at, the loaded command is
  // acknowledged.
  ghost predicate Acked(l: Loop) {
    !l.cmdPending ==> l.data.ackSeq == l.data.cmd.cmdSeq
  }

  // Whenever no reload is waiting to be looked at, the running benchmark's
  // request is ahead of its record.
  ghost predicate Ahead(r: Data) {
    && (r.state.BenchHashd? ==> r.cmd.hashdSeq > r.bench.hashdSeq)
    && (r.state.BenchIoCost? ==> r.cmd.iocostSeq > r.bench.iocostSeq)
  }

  ghost predicate Fresh(l: Loop) {
    !l.cmdPending ==> Ahead(l.data)
  }

  lemma {:induction false} ApplyAllKeeps(r: Data, envs: nat -> ApplyEnv, n: nat)
    requires Exclusive(r)
    ensures Exclusive(ApplyAll(r, envs, n))
    ensures (forall i :: envs(i).sysctlOk) ==> Ahead(ApplyAll(r, envs, n))
    ensures ApplyAll(r, envs, n).cmd == r.cmd && ApplyAll(r, envs, n).bench == r.bench
    decreases r.state.Idle?, ApplyCmd(r, envs(n)).1.Again?
  {
    var (r', applied) := ApplyCmd(r, envs(n));
    if applied.Again? {
      ApplyAllKeeps(r', envs, n + 1);
    }
  }

  lemma AppliedIsExclusive(l: Loop, t: TurnEnv)
    requires Exclusive(l.data)
    ensures Exclusive(AfterApply(l, t))
  {
    ApplyAllKeeps(l.data, t.apply, 0);
  }

  lemma AppliedIsAhead(l: Loop, t: TurnEnv)
    requires Exclusive(l.data) && Fresh(l) && forall n :: t.apply(n).sysctlOk
    ensures Ahead(AfterApply(l, t))
  {
    ApplyAllKeeps(l.data, t.apply, 0);
  }

  // ---- Every run ---------------------------------------------------------------

  // Sysctl writes and writes of results succeed.
  ghost predicate Healthy(t: TurnEnv) {
    && (forall n :: t.apply(n).sysctlOk)
    && t.check.copyOk && t.check.saveOk && t.check.iocostOk
  }

  ghost predicate LoopOk(l: Loop) {
    Exclusive(l.data) && Fresh(l)
  }

  lemma CheckKeeps(r: Data, env: CheckEnv)
    requires Exclusive(r) && Entitled(r)
    ensures Exclusive(CheckCompletions(r, env)) && Entitled(CheckCompletions(r, env))
    ensures CheckCompletions(r, env).cmd == r.cmd && CheckCompletions(r, env).ackSeq == r.ackSeq
  {
  }

  lemma ReloadKeeps(r: Data, newBench: Option<Bench>, newCmd: Option<Cmd>, sliceChanged: bool)
    requires Exclusive(r) && Entitled(r)
    ensures var (r', reloaded) := MaybeReload(r, newBench, newCmd, sliceChanged);
            && Exclusive(r') && Entitled(r')
            && r'.ackSeq == r.ackSeq && (!reloaded ==> r'.cmd == r.cmd)
  {
  }

  lemma TurnKeepsOrder(l: Loop, t: TurnEnv)
    requires Exclusive(l.data) && Entitled(l.data) && Acked(l)
    ensures Exclusive(AfterApply(l, t)) && Entitled(AfterApply(l, t))
    ensures AfterApply(l, t).ackSeq == AfterApply(l, t).cmd.cmdSeq
    ensures Exclusive(Turned(l, t).data) && Entitled(Turned(l, t).data) && Acked(Turned(l, t))
  {
    hide Exclusive, Entitled, ApplyAll, CheckCompletions, MaybeReload;
    ApplyAllKeeps(l.data, t.apply, 0);
    ApplyAllAcks(l.data, t.apply, 0);
    var r := CheckCompletions(AfterApply(l, t), t.check);
    CheckKeeps(AfterApply(l, t), t.check);
    ReloadKeeps(r, t.newBench, t.newCmd, t.sliceChanged);
  }

  lemma {:induction false} ApplyAllAcks(r: Data, envs: nat -> ApplyEnv, n: nat)
    requires Exclusive(r) && Entitled(r)
    ensures ApplyAll(r, envs, n).ackSeq == r.cmd.cmdSeq
    ensures Entitled(ApplyAll(r, envs, n))
    decreases r.state.Idle?, ApplyCmd(r, envs(n)).1.Again?
  {
    var (r', applied) := ApplyCmd(r, envs(n));
    if applied.Again? {
      ApplyAllAcks(r', envs, n + 1);
    }
  }

  lemma TurnKeepsOk(l: Loop, t: TurnEnv)
    requires LoopOk(l) && Healthy(t)
    ensures LoopOk(Turned(l, t))
  {
    hide ApplyAll;
    AppliedIsExclusive(l, t);
    AppliedIsAhead(l, t);
  }

  ghost predicate Reaches(cmd: Cmd, bench: Bench, forceRunning: bool, turns: seq<TurnEnv>, l: Loop) {
    if turns == [] then l == Loop(InitData(cmd, bench, forceRunning), true)
    else
      var n := |turns| - 1;
      exists p :: Reaches(cmd, bench, forceRunning, turns[..n], p) && l == Turned(p, turns[n])
  }

  // Over every run, whatever fails: a benchmark never overlaps the other
  // benchmark, the workloads or the sysloads, check_completions' unwraps are safe
  // whatever the next apply_cmd meets, and a loaded command is acknowledged once
  // it has been applied.
  lemma {:induction false} ReachableExclusive(cmd: Cmd, bench: Bench, forceRunning: bool, turns: seq<TurnEnv>, l: Loop, t: TurnEnv)
    requires Reaches(cmd, bench, forceRunning, turns, l)
    ensures Exclusive(l.data) && Exclusive(AfterApply(l, t))
    ensures !(l.data.benchHashd && l.data.benchIocost)
    ensures l.data.benchHashd || l.data.benchIocost ==>
              !l.data.hashdA && !l.data.hashdB && l.data.sysloads == {}
    ensures Entitled(l.data) && Acked(l)
    ensures AfterApply(l, t).ackSeq == AfterApply(l, t).cmd.cmdSeq
  {
    hide Turned, AfterApply;
    if turns != [] {
      var n := |turns| - 1;
      var p :| Reaches(cmd, bench, forceRunning, turns[..n], p) && l == Turned(p, turns[n]);
      ReachableExclusive(cmd, bench, forceRunning, turns[..n], p, turns[n]);
      TurnKeepsOrder(p, turns[n]);
    }
    TurnKeepsOrder(l, t);
  }

  // While writes succeed, no running benchmark's request falls behind unnoticed.
  lemma {:induction false} ReachableOk(cmd: Cmd, bench: Bench, forceRunning: bool, turns: seq<TurnEnv>, l: Loop)
    requires Reaches(cmd, bench, forceRunning, turns, l)
    requires forall i :: 0 <= i < |turns| ==> Healthy(turns[i])
    ensures LoopOk(l)
  {
    hide Turned, Healthy, Ahead;
    if turns != [] {
      var n := |turns| - 1;
      var p :| Reaches(cmd, bench, forceRunning, turns[..n], p) && l == Turned(p, turns[n]);
      ReachableOk(cmd, bench, forceRunning, turns[..n], p);
      TurnKeepsOk(p, turns[n]);
    }
  }

  // What is asked of a benchmark, and what its record says.
  function Requested(r: Data, hashd: bool): Seq {
    if hashd then r.cmd.hashdSeq else r.cmd.iocostSeq
  }

  function Recorded(r: Data, hashd: bool): Seq {
    if hashd then r.bench.hashdSeq else r.bench.iocostSeq
  }

  function BenchState(hashd: bool): RunState {
    if hashd then BenchHashd else BenchIoCost
  }

  // The benchmark that is running when the turn checks for completion finishes.
  ghost predicate Completes(l: Loop, t: TurnEnv, hashd: bool) {
    && AfterApply(l, t).state == BenchState(hashd)
    && t.check.refreshOk && t.check.unit.UnitExited? && t.check.loadOk
  }

  // The writes that follow a completion succeed.
  predicate ResultsWritten(env: CheckEnv, hashd: bool) {
    env.saveOk && if hashd then env.copyOk else env.iocostOk
  }

  // Exactly when a completion does what it should, over every run and whatever
  // fails: the record advances if and only if the request is ahead of it, the
  // runner becomes idle if and only if the results get written, and the other
  // benchmark's record is left alone.
  lemma CompletionIff(cmd: Cmd, bench: Bench, forceRunning: bool, turns: seq<TurnEnv>, l: Loop, t: TurnEnv, hashd: bool)
    requires Reaches(cmd, bench, forceRunning, turns, l) && Completes(l, t, hashd)
    ensures var before, after := AfterApply(l, t), CheckCompletions(AfterApply(l, t), t.check);
            && (Recorded(after, hashd) > Recorded(before, hashd) <==> Requested(before, hashd) > Recorded(before, hashd))
            && (after.state.Idle? <==> ResultsWritten(t.check, hashd))
            && (!after.state.Idle? ==> after == before.(bench := after.bench))
            && Recorded(after, !hashd) == Recorded(before, !hashd)
            && Exclusive(before) && Exclusive(after)
  {
    hide AfterApply, Reaches;
    ReachableExclusive(cmd, bench, forceRunning, turns, l, t);
  }

  // Every completion of a healthy run strictly increases its own benchmark's
  // recorded sequence and leaves the other's alone; the runner is idle again.
  lemma CompletionAdvances(cmd: Cmd, bench: Bench, forceRunning: bool, turns: seq<TurnEnv>, l: Loop, t: TurnEnv, hashd: bool)
    requires Reaches(cmd, bench, forceRunning, turns, l)
    requires forall i :: 0 <= i < |turns| ==> Healthy(turns[i])
    requires Healthy(t) && Completes(l, t, hashd)
    ensures var before, after := AfterApply(l, t), CheckCompletions(AfterApply(l, t), t.check);
            && before.bench == l.data.bench
            && Recorded(after, hashd) > Recorded(before, hashd)
            && Recorded(after, !hashd) == Recorded(before, !hashd)
            && after.state.Idle? && Exclusive(after)
            && ((hashd && before.cmd.hashdSeq == U64_MAX) || Recorded(after, hashd) == Requested(before, hashd))
  {
    hide ApplyAll;
    ReachableOk(cmd, bench, forceRunning, turns, l);
    AppliedIsAhead(l, t);
    AppliedIsExclusive(l, t);
    ApplyAllKeeps(l.data, t.apply, 0);
  }

  // ---- No restart ----------------------------------------------------------------

  // The request is served and nothing is measuring it.
  ghost predicate Served(r: Data, hashd: bool) {
    Requested(r, hashd) <= Recorded(r, hashd) && r.state != BenchState(hashd)
  }

  // Nobody asks for another run or rewinds the record.
  ghost predicate NoNewRequest(r: Data, t: TurnEnv, hashd: bool) {
    && (t.newCmd.Some? ==> Requested(r.(cmd := t.newCmd.value), hashd) <= Recorded(r, hashd))
    && (t.newBench.Some? ==> Recorded(r.(bench := t.newBench.value), hashd) >= Recorded(r, hashd))
  }

  lemma ServedStaysThroughCmd(r: Data, env: ApplyEnv, hashd: bool)
    requires Served(r, hashd)
    ensures var (r', applied) := ApplyCmd(r, env);
            && Served(r', hashd) && r'.bench == r.bench
            && (applied.Again? ==> r.state.Idle? && !r'.state.Idle?)
  {
  }

  lemma {:induction false} ServedStaysThroughApply(r: Data, envs: nat -> ApplyEnv, n: nat, hashd: bool)
    requires Served(r, hashd)
    ensures Served(ApplyAll(r, envs, n), hashd) && ApplyAll(r, envs, n).bench == r.bench
    decreases r.state.Idle?, ApplyCmd(r, envs(n)).1.Again?
  {
    hide ApplyCmd, Served;
    var (r', applied) := ApplyCmd(r, envs(n));
    ServedStaysThroughCmd(r, envs(n), hashd);
    if applied.Again? {
      ServedStaysThroughApply(r', envs, n + 1, hashd);
    }
  }

  lemma ServedStaysThroughCheck(r: Data, t: TurnEnv, hashd: bool)
    requires Served(r, hashd) && Ahead(r)
    ensures Served(CheckCompletions(r, t.check), hashd)
    ensures Recorded(CheckCompletions(r, t.check), hashd) == Recorded(r, hashd)
  {
  }

  lemma ServedStaysThroughReload(r: Data, t: TurnEnv, hashd: bool)
    requires Served(r, hashd) && NoNewRequest(r, t, hashd)
    ensures var (r', _) := MaybeReload(r, t.newBench, t.newCmd, t.sliceChanged);
            Served(r', hashd) && Recorded(r', hashd) >= Recorded(r, hashd)
  {
  }

  // A completed request does not restart by itself: no turn without a new
  // request leaves the served state.
  lemma CompletedStaysServed(l: Loop, t: TurnEnv, hashd: bool)
    requires LoopOk(l) && Healthy(t) && Served(l.data, hashd)
    requires NoNewRequest(l.data, t, hashd)
    ensures Served(Turned(l, t).data, hashd)
    ensures AfterApply(l, t).state != BenchState(hashd)
    ensures Recorded(Turned(l, t).data, hashd) >= Recorded(l.data, hashd)
  {
    hide ApplyAll, CheckCompletions, MaybeReload;
    ServedStaysThroughApply(l.data, t.apply, 0, hashd);
    AppliedIsAhead(l, t);
    ServedStaysThroughCheck(AfterApply(l, t), t, hashd);
    ServedStaysThroughReload(CheckCompletions(AfterApply(l, t), t.check), t, hashd);
  }

  ghost predicate QuietRun(l: Loop, turns: seq<TurnEnv>, end: Loop, hashd: bool)
    decreases |turns|
  {
    if turns == [] then end == l
    else
      && Healthy(turns[0]) && NoNewRequest(l.data, turns[0], hashd)
      && QuietRun(Turned(l, turns[0]), turns[1..], end, hashd)
  }

  lemma {:induction false} QuietRunStaysServed(l: Loop, turns: seq<TurnEnv>, end: Loop, hashd: bool)
    requires LoopOk(l) && Served(l.data, hashd) && QuietRun(l, turns, end, hashd)
    ensures Served(end.data, hashd)
    decreases |turns|
  {
    hide Turned, AfterApply, LoopOk, Served, Healthy, NoNewRequest;
    if turns != [] {
      CompletedStaysServed(l, turns[0], hashd);
      TurnKeepsOk(l, turns[0]);
      QuietRunStaysServed(Turned(l, turns[0]), turns[1..], end, hashd);
    }
  }

  lemma ServedDoesNotRun(l: Loop, next: TurnEnv, hashd: bool)
    requires Served(l.data, hashd)
    ensures AfterApply(l, next).state != BenchState(hashd)
  {
    hide ApplyAll;
    ServedStaysThroughApply(l.data, next.apply, 0, hashd);
  }

  // From a completion of either benchmark on, however long nothing new is
  // requested of it, it does not run again, neither between turns nor inside the
  // next one, unless the request is hashd's loop mode.
  lemma NoRestart(cmd: Cmd, bench: Bench, forceRunning: bool, turns: seq<TurnEnv>, l: Loop, t: TurnEnv,
                  quiet: seq<TurnEnv>, end: Loop, next: TurnEnv, hashd: bool)
    requires Reaches(cmd, bench, forceRunning, turns, l)
    requires forall i :: 0 <= i < |turns| ==> Healthy(turns[i])
    requires Healthy(t) && Completes(l, t, hashd)
    requires hashd ==> AfterApply(l, t).cmd.hashdSeq != U64_MAX
    requires NoNewRequest(CheckCompletions(AfterApply(l, t), t.check), t, hashd)
    requires QuietRun(Turned(l, t), quiet, end, hashd)
    ensures Served(end.data, hashd)
    ensures AfterApply(end, next).state != BenchState(hashd)
  {
    hide AfterApply, ApplyAll, MaybeReload, LoopOk, Reaches, QuietRun, NoNewRequest;
    var done := CheckCompletions(AfterApply(l, t), t.check);
    ReachableOk(cmd, bench, forceRunning, turns, l);
    CompletionAdvances(cmd, bench, forceRunning, turns, l, t, hashd);
    assert Served(done, hashd);
    ServedStaysThroughReload(done, t, hashd);
    TurnKeepsOk(l, t);
    QuietRunStaysServed(Turned(l, t), quiet, end, hashd);
    ServedDoesNotRun(end, next, hashd);
  }

  // In loop mode the finished benchmark starts again at once.
  lemma LoopModeRestarts(r: Data, env: CheckEnv, next: ApplyEnv)
    requires r.state.BenchHashd? && r.cmd.hashdSeq == U64_MAX && r.bench.hashdSeq < U64_MAX - 1
    requires env == CheckEnv(true, UnitExited, true, true, true, env.iocostOk)
    requires r.cmd.iocostSeq <= r.bench.iocostSeq && (r.bench.iocostSeq > 0 || r.forceRunning)
    requires next.sysctlOk && next.startOk
    ensures ApplyCmd(CheckCompletions(r, env), next).0.state.BenchHashd?
    ensures CheckCompletions(r, env).bench.hashdSeq == r.bench.hashdSeq + 1
  {
  }

  // ---- What is due gets started ------------------------------------------------------

  // A request ahead of its record, that nothing takes precedence over: iocost goes
  // first, and hashd needs an iocost result on record unless forced.
  predicate Due(r: Data, hashd: bool) {
    if hashd then
      && r.cmd.hashdSeq > r.bench.hashdSeq && r.cmd.iocostSeq <= r.bench.iocostSeq
      && (r.bench.iocostSeq > 0 || r.forceRunning)
    else r.cmd.iocostSeq > r.bench.iocostSeq
  }

  predicate NothingAhead(r: Data) {
    r.cmd.hashdSeq <= r.bench.hashdSeq && r.cmd.iocostSeq <= r.bench.iocostSeq
  }

  ghost predicate Starts(envs: nat -> ApplyEnv) {
    forall n :: envs(n).sysctlOk && envs(n).startOk
  }

  // Where applying a command from Idle leads, when writes and starts succeed.
  lemma FromIdle(r: Data, envs: nat -> ApplyEnv)
    requires r.state.Idle? && Exclusive(r) && Starts(envs)
    ensures var a := ApplyAll(r, envs, 0);
            && (a.state.BenchIoCost? <==> Due(r, false))
            && (a.state.BenchHashd? <==> Due(r, true))
            && (a.state.Running? <==> NothingAhead(r) && (r.bench.hashdSeq > 0 || r.forceRunning))
            && (a.benchIocost <==> Due(r, false)) && (a.benchHashd <==> Due(r, true))
            && (a.state.Running? ==>
                  a.hashdA == r.cmd.hashdA && a.hashdB == r.cmd.hashdB && a.sysloads == envs(1).sysloads)
            && (a.state.Idle? ==> a == r.(ackSeq := r.cmd.cmdSeq))
            && a.cmd == r.cmd && a.bench == r.bench && a.ackSeq == r.cmd.cmdSeq
  {
    assert envs(0).sysctlOk && envs(0).startOk && envs(1).sysctlOk;
    ApplyOnce(r, envs, 0);
    var (a, applied) := ApplyCmd(r, envs(0));
    if applied.Again? {
      ApplyOnce(a, envs, 1);
    }
  }

  lemma ApplyOnce(r: Data, envs: nat -> ApplyEnv, n: nat)
    ensures var (a, applied) := ApplyCmd(r, envs(n));
            ApplyAll(r, envs, n) == if applied.Again? then ApplyAll(a, envs, n + 1) else a
  {
  }

  // Where it leads from the other states: a running workload follows the command,
  // or gives way to a request; a benchmark goes on exactly while it is asked for.
  lemma FromElsewhere(r: Data, envs: nat -> ApplyEnv)
    requires !r.state.Idle? && envs(0).sysctlOk
    ensures var a := ApplyAll(r, envs, 0);
            && (r.state.Running? && NothingAhead(r) ==>
                  a == r.(hashdA := r.cmd.hashdA, hashdB := r.cmd.hashdB, sysloads := envs(0).sysloads,
                          ackSeq := r.cmd.cmdSeq))
            && (r.state.Running? && !NothingAhead(r) ==> a.state.Idle?)
            && (r.state.BenchHashd? && r.cmd.hashdSeq > r.bench.hashdSeq ==> a == r.(ackSeq := r.cmd.cmdSeq))
            && (r.state.BenchHashd? && r.cmd.hashdSeq <= r.bench.hashdSeq ==> a.state.Idle?)
            && (r.state.BenchIoCost? && r.cmd.iocostSeq > r.bench.iocostSeq ==> a == r.(ackSeq := r.cmd.cmdSeq))
            && (r.state.BenchIoCost? && r.cmd.iocostSeq <= r.bench.iocostSeq ==> a.state.Idle?)
            && (a.state.Idle? ==> !a.benchHashd && !a.benchIocost && !a.hashdA && !a.hashdB && a.sysloads == {})
            && a.cmd == r.cmd && a.bench == r.bench && a.ackSeq == r.cmd.cmdSeq
  {
    ApplyOnce(r, envs, 0);
  }

  // No running workload overlooks a request.
  ghost predicate Attentive(l: Loop) {
    !l.cmdPending && l.data.state.Running? ==> NothingAhead(l.data)
  }

  lemma {:induction false} AppliedIsAttentive(r: Data, envs: nat -> ApplyEnv, n: nat)
    requires forall i :: envs(i).sysctlOk
    ensures ApplyAll(r, envs, n).state.Running? ==> NothingAhead(ApplyAll(r, envs, n))
    decreases r.state.Idle?, ApplyCmd(r, envs(n)).1.Again?
  {
    assert envs(n).sysctlOk;
    ApplyOnce(r, envs, n);
    var (a, applied) := ApplyCmd(r, envs(n));
    if applied.Again? {
      AppliedIsAttentive(a, envs, n + 1);
    }
  }

  // What a check and a reload do to a state that no benchmark is in.
  lemma ReloadNoticed(r: Data, t: TurnEnv)
    requires !r.state.BenchHashd? && !r.state.BenchIoCost?
    ensures CheckCompletions(r, t.check) == r
    ensures var (r', reloaded) := MaybeReload(r, t.newBench, t.newCmd, t.sliceChanged);
            && r'.state == r.state
            && (!reloaded ==> r'.cmd == r.cmd && r'.bench == r.bench)
  {
  }

  lemma CheckLeavesRunning(r: Data, t: TurnEnv)
    ensures CheckCompletions(r, t.check).state.Running? ==> CheckCompletions(r, t.check) == r
    ensures MaybeReload(r, t.newBench, t.newCmd, t.sliceChanged).0.state == r.state
  {
  }

  lemma TurnKeepsAttentive(l: Loop, t: TurnEnv)
    requires Attentive(l) && Healthy(t)
    ensures Attentive(Turned(l, t))
  {
    hide ApplyAll, CheckCompletions, MaybeReload;
    AppliedIsAttentive(l.data, t.apply, 0);
    var a := AfterApply(l, t);
    CheckLeavesRunning(a, t);
    CheckLeavesRunning(CheckCompletions(a, t.check), t);
    if a.state.Running? {
      ReloadNoticed(a, t);
    }
  }

  lemma {:induction false} ReachableAttentive(cmd: Cmd, bench: Bench, forceRunning: bool, turns: seq<TurnEnv>, l: Loop)
    requires Reaches(cmd, bench, forceRunning, turns, l)
    requires forall i :: 0 <= i < |turns| ==> Healthy(turns[i])
    ensures Attentive(l)
  {
    hide Turned, Healthy;
    if turns != [] {
      var n := |turns| - 1;
      var p :| Reaches(cmd, bench, forceRunning, turns[..n], p) && l == Turned(p, turns[n]);
      ReachableAttentive(cmd, bench, forceRunning, turns[..n], p);
      TurnKeepsAttentive(p, turns[n]);
    }
  }

  // The service of a benchmark that runs is held.
  ghost predicate Runs(r: Data, hashd: bool) {
    r.state == BenchState(hashd) && if hashd then r.benchHashd else r.benchIocost
  }

  lemma StartsFromIdle(l: Loop, t: TurnEnv, hashd: bool)
    requires l.data.state.Idle? && Exclusive(l.data) && Starts(t.apply) && Due(l.data, hashd)
    ensures Runs(AfterApply(l, t), hashd)
  {
    hide ApplyAll;
    FromIdle(l.data, t.apply);
  }

  lemma YieldsToRequest(l: Loop, t: TurnEnv, hashd: bool)
    requires l.data.state.Running? && Attentive(l) && Starts(t.apply) && Due(l.data, hashd)
    ensures Turned(l, t).data.state.Idle?
  {
    hide ApplyAll;
    assert t.apply(0).sysctlOk;
    FromElsewhere(l.data, t.apply);
  }

  lemma CompletionIdles(l: Loop, t: TurnEnv, hashd: bool)
    requires Completes(l, t, hashd) && ResultsWritten(t.check, hashd)
    ensures Turned(l, t).data.state.Idle?
  {
    hide AfterApply;
  }

  lemma GoesOn(l: Loop, t: TurnEnv, hashd: bool)
    requires l.data.state == BenchState(hashd) && Exclusive(l.data) && Starts(t.apply) && Due(l.data, hashd)
    ensures Runs(AfterApply(l, t), hashd)
  {
    hide ApplyAll;
    assert t.apply(0).sysctlOk;
    FromElsewhere(l.data, t.apply);
  }

  // In every healthy run, a benchmark that is due is running within two turns in
  // which starts succeed, unless the other one is still measuring or the request is
  // withdrawn in between.
  lemma DueRunsWithinTwoTurns(cmd: Cmd, bench: Bench, forceRunning: bool, turns: seq<TurnEnv>, l: Loop,
                              t: TurnEnv, next: TurnEnv, hashd: bool)
    requires Reaches(cmd, bench, forceRunning, turns, l)
    requires forall i :: 0 <= i < |turns| ==> Healthy(turns[i])
    requires Healthy(t) && Starts(t.apply) && Starts(next.apply)
    requires Due(l.data, hashd) && Due(Turned(l, t).data, hashd)
    requires l.data.state == BenchState(!hashd) ==> Completes(l, t, !hashd)
    ensures Runs(AfterApply(l, t), hashd) || Runs(AfterApply(Turned(l, t), next), hashd)
  {
    hide ApplyAll, AfterApply, Turned, Exclusive, Due, Healthy, Completes, Starts, Reaches, Runs;
    ReachableAttentive(cmd, bench, forceRunning, turns, l);
    ReachableExclusive(cmd, bench, forceRunning, turns, l, t);
    ReachesTurned(cmd, bench, forceRunning, turns, l, t);
    ReachableExclusive(cmd, bench, forceRunning, turns + [t], Turned(l, t), next);
    if l.data.state.Idle? {
      StartsFromIdle(l, t, hashd);
    } else if l.data.state == BenchState(hashd) {
      GoesOn(l, t, hashd);
    } else {
      if l.data.state.Running? {
        YieldsToRequest(l, t, hashd);
      } else {
        WrittenWhenHealthy(t, !hashd);
        CompletionIdles(l, t, !hashd);
      }
      StartsFromIdle(Turned(l, t), next, hashd);
    }
  }

  lemma ReachesTurned(cmd: Cmd, bench: Bench, forceRunning: bool, turns: seq<TurnEnv>, l: Loop, t: TurnEnv)
    requires Reaches(cmd, bench, forceRunning, turns, l)
    ensures Reaches(cmd, bench, forceRunning, turns + [t], Turned(l, t))
  {
    hide Turned;
    assert (turns + [t])[..|turns|] == turns;
  }

  lemma WrittenWhenHealthy(t: TurnEnv, hashd: bool)
    requires Healthy(t)
    ensures ResultsWritten(t.check, hashd)
  {
  }

  // ---- What a check and a reload change ------------------------------------------------

  // A check changes something only when a benchmark's service has left the running
  // state; a service in any unexpected state ends its benchmark without a record.
  lemma CheckOutcomes(r: Data, env: CheckEnv)
    ensures (r.state.Idle? || r.state.Running? || !env.refreshOk || env.unit.UnitRunning?) ==> CheckCompletions(r, env) == r
    ensures env.unit.UnitExited? && !env.loadOk ==> CheckCompletions(r, env) == r
    ensures (r.state.BenchHashd? || r.state.BenchIoCost?) && env.refreshOk && env.unit.UnitOther? ==>
              var c := CheckCompletions(r, env);
              c.state.Idle? && c.bench == r.bench && !c.benchHashd && !c.benchIocost
  {
  }

  // A changed command is always loaded; the record changes by reloading exactly
  // when the file changed and no benchmark runs; a change of either, of the slices,
  // or a forced reload gets the command applied again.
  lemma ReloadOutcomes(r: Data, newBench: Option<Bench>, newCmd: Option<Cmd>, sliceChanged: bool)
    ensures var (r', reloaded) := MaybeReload(r, newBench, newCmd, sliceChanged);
            var benchRuns := r.state == BenchHashd || r.state == BenchIoCost;
            && r'.cmd == (if newCmd.Some? then newCmd.value else r.cmd)
            && r'.bench == (if newBench.Some? && !benchRuns then newBench.value else r.bench)
            && (reloaded <==> newCmd.Some? || (!benchRuns && (newBench.Some? || sliceChanged || r.forceApply)))
            && r'.state == r.state && r'.ackSeq == r.ackSeq
  {
  }

  // A benchmark is held together with a pending forced reload.
  ghost predicate Forced(r: Data) {
    r.state.BenchHashd? || r.state.BenchIoCost? ==> r.forceApply
  }

  lemma CmdKeepsForced(r: Data, env: ApplyEnv)
    requires Forced(r)
    ensures var (a, applied) := ApplyCmd(r, env);
            && Forced(a) && (r.forceApply ==> a.forceApply)
            && (applied.Again? ==> r.state.Idle? && !a.state.Idle?)
  {
  }

  lemma {:induction false} AppliedIsForced(r: Data, envs: nat -> ApplyEnv, n: nat)
    requires Forced(r)
    ensures Forced(ApplyAll(r, envs, n))
    ensures r.forceApply ==> ApplyAll(r, envs, n).forceApply
    decreases r.state.Idle?, ApplyCmd(r, envs(n)).1.Again?
  {
    hide ApplyCmd, Forced;
    CmdKeepsForced(r, envs(n));
    var (a, applied) := ApplyCmd(r, envs(n));
    if applied.Again? {
      AppliedIsForced(a, envs, n + 1);
    }
  }

  lemma TurnKeepsForced(l: Loop, t: TurnEnv)
    requires Forced(l.data)
    ensures Forced(Turned(l, t).data)
  {
    hide ApplyAll, CheckCompletions, MaybeReload;
    AppliedIsForced(l.data, t.apply, 0);
    CheckKeepsForced(AfterApply(l, t), t);
  }

  lemma CheckKeepsForced(r: Data, t: TurnEnv)
    requires Forced(r)
    ensures Forced(MaybeReload(CheckCompletions(r, t.check), t.newBench, t.newCmd, t.sliceChanged).0)
  {
  }

  // In every run, whatever fails: the turn that ends a benchmark gets everything
  // applied again, configuration files that changed meanwhile included.
  lemma {:induction false} EndOfBenchReapplies(cmd: Cmd, bench: Bench, forceRunning: bool, turns: seq<TurnEnv>, l: Loop, t: TurnEnv)
    requires Reaches(cmd, bench, forceRunning, turns, l)
    ensures Forced(l.data)
    ensures var before, after := AfterApply(l, t), Turned(l, t);
            before.state.BenchHashd? || before.state.BenchIoCost? ==>
              after.data.state == before.state || after.cmdPending
  {
    if turns != [] {
      var n := |turns| - 1;
      var p :| Reaches(cmd, bench, forceRunning, turns[..n], p) && l == Turned(p, turns[n]);
      EndOfBenchReapplies(cmd, bench, forceRunning, turns[..n], p, turns[n]);
      TurnKeepsForced(p, turns[n]);
    }
    EndsForced(l, t);
  }

  lemma EndsForced(l: Loop, t: TurnEnv)
    requires Forced(l.data)
    ensures var before, after := AfterApply(l, t), Turned(l, t);
            before.state.BenchHashd? || before.state.BenchIoCost? ==>
              after.data.state == before.state || after.cmdPending
  {
    hide ApplyAll, CheckCompletions, MaybeReload;
    AppliedIsForced(l.data, t.apply, 0);
    var before := AfterApply(l, t);
    if before.state.BenchHashd? || before.state.BenchIoCost? {
      CheckEndsForced(before, t);
    }
  }

  lemma CheckEndsForced(r: Data, t: TurnEnv)
    requires r.state.BenchHashd? || r.state.BenchIoCost?
    requires r.forceApply
    ensures var (r', reloaded) := MaybeReload(CheckCompletions(r, t.check), t.newBench, t.newCmd, t.sliceChanged);
            r'.state == r.state || reloaded
  {
  }

  // ---- A failing run ---------------------------------------------------------------

  // A turn in which applying succeeds, nothing is reloaded, and the benchmark
  // service is in a given state.
  function PlainTurn(unit: UnitState, copyOk: bool): TurnEnv {
    TurnEnv(n => ApplyEnv(true, true, {}), CheckEnv(true, unit, true, copyOk, true, true), None, None, false)
  }

  // Why the copies must succeed.  A run from startup: the benchmark starts, then
  // finishes with a failed copy, then finishes again; the second completion
  // advances nothing although all its writes succeed.
  lemma FailedCopyRepeatsCompletion() returns (turns: seq<TurnEnv>, l: Loop)
    ensures Reaches(Cmd(1, 1, 1, false, false), Bench(0, 1), false, turns, l)
    ensures var t := PlainTurn(UnitExited, true);
            var before, after := AfterApply(l, t), CheckCompletions(AfterApply(l, t), t.check);
            && Healthy(t) && Completes(l, t, true)
            && Recorded(after, true) == Recorded(before, true) == 1
            && after.state.Idle?
  {
    var cmd, bench := Cmd(1, 1, 1, false, false), Bench(0, 1);
    var start, fail := PlainTurn(UnitRunning, true), PlainTurn(UnitExited, false);
    var l0 := Loop(InitData(cmd, bench, false), true);
    var l1, l2 := Turned(l0, start), Turned(Turned(l0, start), fail);
    assert l1.data.state.BenchHashd? && !l1.cmdPending && l1.data.bench == bench;
    assert l2.data.state.BenchHashd? && !l2.cmdPending && l2.data.bench == Bench(1, 1);
    turns, l := [start, fail], l2;
    assert [start][..0] == [] && [start, fail][..1] == [start];
    assert Reaches(cmd, bench, false, [], l0);
    assert Reaches(cmd, bench, false, [start], l1);
  }
}
