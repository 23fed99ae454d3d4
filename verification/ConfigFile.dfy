// Reloading a configuration file that another process replaces by rename
// (rd-util/src/json_file.rs), and the command barrier built on two such files
// (resctl-bench/src/run.rs, cmd_barrier; rd-agent/src/cmd.rs).
module ConfigFile {
  import opened Wrappers

  // Every version a file ever had, the current one last.  A save replaces the
  // whole file at once and gives it a later modification time.
  datatype Version<T> = Version(mtime: nat, data: T)

  ghost predicate ValidFile<T>(f: seq<Version<T>>) {
    f != [] && forall i, j :: 0 <= i < j < |f| ==> f[i].mtime < f[j].mtime
  }

  function Current<T>(f: seq<Version<T>>): Version<T>
    requires f != []
  {
    f[|f| - 1]
  }

  function Saved<T>(f: seq<Version<T>>, mtime: nat, data: T): seq<Version<T>> {
    f + [Version(mtime, data)]
  }

  const SETTLE_MSECS: nat := 10

  // Changed less than 10ms ago; a modification time in the future is not recent.
  predicate TooRecent(mtime: nat, now: nat) {
    mtime <= now && now - mtime < SETTLE_MSECS
  }

  class JsonConfigFile<T> {
    var loadedMod: nat
    var data: T

    // `load`: the file may be replaced between the stat and the read.
    constructor (ghost atStat: seq<Version<T>>, atRead: seq<Version<T>>, mtime: nat)
      requires atStat != [] && atStat <= atRead && mtime == Current(atStat).mtime
      ensures View() == Reader(Current(atStat).mtime, Current(atRead).data, |atRead| - 1, Rest)
    {
      loadedMod, data := mtime, Current(atRead).data;
      ver := |atRead| - 1;
    }

    // Which version `data` came from.
    ghost var ver: nat

    ghost function View(): Reader<T>
      reads this
    {
      Reader(loadedMod, data, ver, Rest)
    }

    method MaybeReload(atStat: seq<Version<T>>, atRead: seq<Version<T>>, now: nat) returns (reloaded: bool)
      requires atStat != [] && atStat <= atRead
      modifies this
      ensures View() == Reload(old(View()), atStat, atRead, now)
      ensures reloaded <==> Current(atStat).mtime != old(loadedMod)
                            && !(Current(atStat).mtime <= now < Current(atStat).mtime + 10)
      ensures reloaded ==> loadedMod == Current(atStat).mtime && data == Current(atRead).data
      ensures !reloaded ==> loadedMod == old(loadedMod) && data == old(data)
    {
      var modified := Current(atStat).mtime;
      if TooRecent(modified, now) {
        return false;
      }
      if loadedMod == modified {
        return false;
      }
      loadedMod := modified;
      data := Current(atRead).data;
      ver := |atRead| - 1;
      return true;
    }
  }

  // ---- The same reload as two steps ------------------------------------------

  datatype ReaderPc = Rest | Marked

  // `ver` is the version `data` came from.
  datatype Reader<T> = Reader(loadedMod: nat, data: T, ver: nat, pc: ReaderPc)

  function Stat<T>(r: Reader<T>, f: seq<Version<T>>, now: nat): Reader<T>
    requires f != []
  {
    var modified := Current(f).mtime;
    if TooRecent(modified, now) || r.loadedMod == modified then r
    else r.(loadedMod := modified, pc := Marked)
  }

  function Read<T>(r: Reader<T>, f: seq<Version<T>>): Reader<T>
    requires f != []
  {
    r.(data := Current(f).data, ver := |f| - 1, pc := Rest)
  }

  function Reload<T>(r: Reader<T>, atStat: seq<Version<T>>, atRead: seq<Version<T>>, now: nat): Reader<T>
    requires atStat != [] && atStat <= atRead
  {
    var s := Stat(r, atStat, now);
    if s.pc.Marked? then Read(s, atRead) else s
  }

  // `loadedMod` names a version; at rest what is loaded is no older than that.
  ghost predicate Named<T>(r: Reader<T>, f: seq<Version<T>>, i: nat) {
    i < |f| && f[i].mtime == r.loadedMod && (r.pc.Rest? ==> i <= r.ver)
  }

  ghost predicate ReaderOk<T>(r: Reader<T>, f: seq<Version<T>>) {
    && ValidFile(f)
    && r.ver < |f| && r.data == f[r.ver].data
    && exists i: nat :: Named(r, f, i)
  }

  datatype ReloadStep<T> =
    | DoSave(mtime: nat, data: T)
    | DoStat(now: nat)
    | DoRead
    | ReadFails

  datatype Reloading<T> = Reloading(file: seq<Version<T>>, reader: Reader<T>)

  // Saves come at later times; a read follows the stat that asked for it, and may
  // fail.
  ghost predicate CanReload<T>(w: Reloading<T>, s: ReloadStep<T>) {
    w.file != [] &&
    match s
    case DoSave(mtime, _) => Current(w.file).mtime < mtime
    case DoStat(_) => w.reader.pc.Rest?
    case DoRead => w.reader.pc.Marked?
    case ReadFails => w.reader.pc.Marked?
  }

  function AfterReload<T>(w: Reloading<T>, s: ReloadStep<T>): Reloading<T>
    requires w.file != []
  {
    match s
    case DoSave(mtime, data) => w.(file := Saved(w.file, mtime, data))
    case DoStat(now) => w.(reader := Stat(w.reader, w.file, now))
    case DoRead => w.(reader := Read(w.reader, w.file))
    // loaded_mod stays advanced, the data stays old
    case ReadFails => w.(reader := w.reader.(pc := Rest))
  }

  lemma ReloadStepOk<T>(w: Reloading<T>, s: ReloadStep<T>)
    requires ReaderOk(w.reader, w.file) && CanReload(w, s) && !s.ReadFails?
    ensures ReaderOk(AfterReload(w, s).reader, AfterReload(w, s).file)
    ensures w.reader.ver <= AfterReload(w, s).reader.ver
    ensures w.file <= AfterReload(w, s).file
  {
    var i: nat :| Named(w.reader, w.file, i);
    var x := AfterReload(w, s);
    if s.DoStat? && x.reader.pc.Marked? {
      assert Named(x.reader, x.file, |x.file| - 1);
    } else {
      assert Named(x.reader, x.file, i);
    }
  }

  ghost predicate Reloads<T>(w: Reloading<T>, steps: seq<ReloadStep<T>>, x: Reloading<T>)
    decreases |steps|
  {
    if steps == [] then x == w
    else CanReload(w, steps[0]) && Reloads(AfterReload(w, steps[0]), steps[1..], x)
  }

  // Over every interleaving of saves and reloads that parse: what is loaded is no
  // older than the version loaded_mod names, versions never go back, and a
  // reader at rest whose loaded_mod matches the file has the file's content.
  lemma {:induction false} ReloadsAreCurrent<T>(w: Reloading<T>, steps: seq<ReloadStep<T>>, x: Reloading<T>)
    requires ReaderOk(w.reader, w.file) && Reloads(w, steps, x)
    requires forall i :: 0 <= i < |steps| ==> !steps[i].ReadFails?
    ensures ReaderOk(x.reader, x.file) && w.reader.ver <= x.reader.ver && w.file <= x.file
    ensures x.reader.pc.Rest? && x.reader.loadedMod == Current(x.file).mtime ==>
              x.reader.ver == |x.file| - 1 && x.reader.data == Current(x.file).data
    decreases |steps|
  {
    if steps == [] {
      CurrentWhenMatching(x.reader, x.file);
    } else {
      assert !steps[0].ReadFails?;
      ReloadStepOk(w, steps[0]);
      ReloadsAreCurrent(AfterReload(w, steps[0]), steps[1..], x);
    }
  }

  lemma CurrentWhenMatching<T>(r: Reader<T>, f: seq<Version<T>>)
    requires ReaderOk(r, f)
    ensures r.pc.Rest? && r.loadedMod == Current(f).mtime ==> r.ver == |f| - 1
  {
    var i: nat :| Named(r, f, i);
    assert i < |f| - 1 ==> f[i].mtime < f[|f| - 1].mtime;
  }

  // An undisturbed reload of a settled file loads the current version.
  lemma SettledReloadIsCurrent<T>(r: Reader<T>, f: seq<Version<T>>, now: nat)
    requires ReaderOk(r, f) && r.pc.Rest? && !TooRecent(Current(f).mtime, now)
    ensures Reload(r, f, f, now).data == Current(f).data
    ensures Reload(r, f, f, now).ver == |f| - 1 && Reload(r, f, f, now).loadedMod == Current(f).mtime
  {
    CurrentWhenMatching(r, f);
  }

  // Exactly when a reload loads the file: it changed, and not within the last 10ms.
  lemma ReloadIff<T>(r: Reader<T>, f: seq<Version<T>>, now: nat)
    requires f != [] && r.pc.Rest?
    ensures var changed, recent := r.loadedMod != f[|f| - 1].mtime, f[|f| - 1].mtime <= now < f[|f| - 1].mtime + 10;
            && (changed && !recent ==> Reload(r, f, f, now) == Reader(f[|f| - 1].mtime, f[|f| - 1].data, |f| - 1, Rest))
            && (!changed || recent ==> Reload(r, f, f, now) == r)
  {
  }

  // ---- Failed reads --------------------------------------------------------------

  ghost predicate IsCurrent<T>(w: Reloading<T>) {
    w.reader.ver == |w.file| - 1
  }

  // The order matters when a read fails: the new modification time is recorded
  // although the data was not read.  The reader is left stale exactly when it was
  // stale before, which its own fields no longer show.
  lemma FailedReadSticks<T>(w: Reloading<T>, now: nat)
    requires ReaderOk(w.reader, w.file) && w.reader.pc.Rest?
    requires w.reader.loadedMod != Current(w.file).mtime && !TooRecent(Current(w.file).mtime, now)
    ensures var x := AfterReload(AfterReload(w, DoStat(now)), ReadFails);
            && x.reader.loadedMod == Current(x.file).mtime && x.reader.pc.Rest?
            && x.reader.data == w.reader.data
            && (IsCurrent(x) <==> IsCurrent(w))
  {
  }

  // However often the file is then looked at, nothing changes until the next save.
  lemma {:induction false} StuckUntilSave<T>(x: Reloading<T>, steps: seq<ReloadStep<T>>, y: Reloading<T>)
    requires x.file != [] && x.reader.pc.Rest? && x.reader.loadedMod == Current(x.file).mtime
    requires Reloads(x, steps, y) && forall i :: 0 <= i < |steps| ==> !steps[i].DoSave?
    ensures y == x
    decreases |steps|
  {
    if steps != [] {
      assert !steps[0].DoSave?;
      StuckUntilSave(AfterReload(x, steps[0]), steps[1..], y);
    }
  }

  ghost predicate NoSave<T>(steps: seq<ReloadStep<T>>) {
    forall i :: 0 <= i < |steps| ==> !steps[i].DoSave?
  }

  // A read succeeded after the last save.
  ghost predicate ReadSinceSave<T>(steps: seq<ReloadStep<T>>) {
    exists i :: 0 <= i < |steps| && steps[i].DoRead? && NoSave(steps[i..])
  }

  // Over every run, failed reads included: the loaded data is the current version
  // if and only if a read succeeded after the last save, or there was no save and
  // it was current to begin with.
  lemma {:induction false} CurrentIff<T>(w: Reloading<T>, steps: seq<ReloadStep<T>>, x: Reloading<T>)
    requires w.reader.ver < |w.file| && Reloads(w, steps, x)
    ensures x.reader.ver < |x.file|
    ensures IsCurrent(x) <==> ReadSinceSave(steps) || (NoSave(steps) && IsCurrent(w))
    decreases |steps|
  {
    if steps != [] {
      var first, rest := steps[0], steps[1..];
      var m := AfterReload(w, first);
      CurrentIff(m, rest, x);
      SaveShift(steps);
      ReadShift(steps);
    }
  }

  lemma SaveShift<T>(steps: seq<ReloadStep<T>>)
    requires steps != []
    ensures NoSave(steps) <==> !steps[0].DoSave? && NoSave(steps[1..])
  {
    if NoSave(steps[1..]) && !steps[0].DoSave? {
      forall i | 0 <= i < |steps| ensures !steps[i].DoSave? {
        assert i > 0 ==> steps[i] == steps[1..][i - 1];
      }
    }
  }

  lemma ReadShift<T>(steps: seq<ReloadStep<T>>)
    requires steps != []
    ensures ReadSinceSave(steps) <==> ReadSinceSave(steps[1..]) || (steps[0].DoRead? && NoSave(steps))
  {
    var rest := steps[1..];
    if i :| 0 <= i < |rest| && rest[i].DoRead? && NoSave(rest[i..]) {
      assert steps[i + 1] == rest[i] && steps[i + 1..] == rest[i..];
    }
    if i :| 0 <= i < |steps| && steps[i].DoRead? && NoSave(steps[i..]) {
      if i > 0 {
        assert rest[i - 1] == steps[i] && rest[i - 1..] == steps[i..];
      } else {
        assert steps[0..] == steps;
      }
    }
    if steps[0].DoRead? && NoSave(steps) {
      assert steps[0..] == steps;
    }
  }

  // It happens: one save, one failed read, and the reader at rest holds 7 under
  // the modification time of 8.
  lemma StaleFromStart() returns (steps: seq<ReloadStep<int>>, x: Reloading<int>)
    ensures var w := Reloading([Version(1, 7)], Reader(1, 7, 0, Rest));
            ReaderOk(w.reader, w.file) && IsCurrent(w) && Reloads(w, steps, x)
    ensures x.file != [] && x.reader.pc.Rest? && x.reader.loadedMod == Current(x.file).mtime
    ensures x.reader.data == 7 && Current(x.file).data == 8
  {
    var w: Reloading<int> := Reloading([Version(1, 7)], Reader(1, 7, 0, Rest));
    assert Named(w.reader, w.file, 0);
    var w1 := AfterReload(w, DoSave(2, 8));
    var w2 := AfterReload(w1, DoStat(100));
    x := AfterReload(w2, ReadFails);
    steps := [DoSave(2, 8), DoStat(100), ReadFails];
    assert steps[1..][1..] == steps[2..] && steps[2..][1..] == [];
    assert Reloads(x, [], x);
    assert Reloads(w2, steps[2..], x);
    assert Reloads(w1, steps[1..], x);
  }

  // ---- The command barrier ---------------------------------------------------

  datatype Cmd = Cmd(cmdSeq: nat, payload: int)

  // A barrier in progress: the sequence it waits for and the command version
  // that carried it.
  datatype Barrier = Barrier(nextSeq: nat, ver: nat)

  // The command file with its one writer and the agent that loads it; the ack
  // file with the agent that writes it and the client that loads it.
  datatype System = System(
    cmd: seq<Version<Cmd>>,
    agent: Reader<Cmd>,
    ack: seq<Version<nat>>,
    client: Reader<nat>,
    barrier: Option<Barrier>)

  datatype Action =
    | SaveCmd(mtime: nat, payload: int, bump: bool)
    | StartBarrier(mtime: nat)
    | AgentStat(now: nat)
    | AgentRead
    | AgentReadFails
    | AgentAck(mtime: nat)
    | ClientStat(now: nat)
    | ClientRead
    | ClientReadFails
    | BarrierReturns

  ghost predicate Can(s: System, a: Action) {
    s.cmd != [] && s.ack != [] &&
    match a
    case SaveCmd(mtime, _, _) => Current(s.cmd).mtime < mtime
    case StartBarrier(mtime) => s.barrier.None? && Current(s.cmd).mtime < mtime
    case AgentStat(_) => s.agent.pc.Rest?
    case AgentRead => s.agent.pc.Marked?
    case AgentReadFails => s.agent.pc.Marked?
    case AgentAck(mtime) => s.agent.pc.Rest? && Current(s.ack).mtime < mtime
    case ClientStat(_) => s.client.pc.Rest?
    case ClientRead => s.client.pc.Marked?
    case ClientReadFails => s.client.pc.Marked?
    case BarrierReturns => s.barrier.Some? && s.client.pc.Rest? && s.client.data >= s.barrier.value.nextSeq
  }

  function Do(s: System, a: Action): System
    requires s.cmd != [] && s.ack != []
  {
    var last := Current(s.cmd).data;
    match a
    case SaveCmd(mtime, payload, bump) =>
      s.(cmd := Saved(s.cmd, mtime, Cmd(if bump then last.cmdSeq + 1 else last.cmdSeq, payload)))
    case StartBarrier(mtime) =>
      s.(cmd := Saved(s.cmd, mtime, last.(cmdSeq := last.cmdSeq + 1)),
         barrier := Some(Barrier(last.cmdSeq + 1, |s.cmd|)))
    case AgentStat(now) => s.(agent := Stat(s.agent, s.cmd, now))
    case AgentRead => s.(agent := Read(s.agent, s.cmd))
    case AgentReadFails => s.(agent := s.agent.(pc := Rest))
    case AgentAck(mtime) => s.(ack := Saved(s.ack, mtime, s.agent.data.cmdSeq))
    case ClientStat(now) => s.(client := Stat(s.client, s.ack, now))
    case ClientRead => s.(client := Read(s.client, s.ack))
    case ClientReadFails => s.(client := s.client.(pc := Rest))
    case BarrierReturns => s.(barrier := None)
  }

  // The agent has committed a zero ack on startup and loaded some command.
  ghost predicate InitSystem(s: System) {
    && |s.cmd| == 1 && |s.ack| == 1 && s.ack[0].data == 0
    && s.agent == Reader(s.cmd[0].mtime, s.cmd[0].data, 0, Rest)
    && s.client == Reader(s.ack[0].mtime, 0, 0, Rest)
    && s.barrier.None?
  }

  ghost predicate Reachable(actions: seq<Action>, s: System) {
    if actions == [] then InitSystem(s)
    else
      var n := |actions| - 1;
      exists p :: Reachable(actions[..n], p) && Can(p, actions[n]) && s == Do(p, actions[n])
  }

  ghost predicate SeqsGrow(cmd: seq<Version<Cmd>>) {
    forall i, j :: 0 <= i < j < |cmd| ==> cmd[i].data.cmdSeq <= cmd[j].data.cmdSeq
  }

  // No ack runs ahead of the commands up to version `ver`.
  ghost predicate AcksBacked(ack: seq<Version<nat>>, cmdSeq: nat) {
    forall k :: 0 <= k < |ack| ==> ack[k].data <= cmdSeq
  }

  // The barrier's version is the first to carry its sequence.
  ghost predicate BarrierOk(b: Barrier, cmd: seq<Version<Cmd>>) {
    && b.ver < |cmd| && cmd[b.ver].data.cmdSeq == b.nextSeq
    && (forall j :: 0 <= j < b.ver ==> cmd[j].data.cmdSeq < b.nextSeq)
  }

  // What is loaded is some version of the file, whichever reads failed.
  ghost predicate HasVersion<T>(r: Reader<T>, f: seq<Version<T>>) {
    r.ver < |f| && r.data == f[r.ver].data
  }

  ghost predicate SystemOk(s: System) {
    && HasVersion(s.agent, s.cmd) && HasVersion(s.client, s.ack)
    && SeqsGrow(s.cmd)
    && AcksBacked(s.ack, s.agent.data.cmdSeq)
    && (s.barrier.Some? ==> BarrierOk(s.barrier.value, s.cmd))
  }

  lemma SaveKeepsSeqs(cmd: seq<Version<Cmd>>, mtime: nat, data: Cmd, b: Barrier)
    requires cmd != [] && SeqsGrow(cmd) && data.cmdSeq >= Current(cmd).data.cmdSeq
    ensures SeqsGrow(Saved(cmd, mtime, data))
    ensures BarrierOk(b, cmd) ==> BarrierOk(b, Saved(cmd, mtime, data))
    ensures data.cmdSeq > Current(cmd).data.cmdSeq ==>
              BarrierOk(Barrier(data.cmdSeq, |cmd|), Saved(cmd, mtime, data))
  {
  }

  lemma LoadsForward(r: Reader<Cmd>, q: Reader<Cmd>, cmd: seq<Version<Cmd>>)
    requires HasVersion(r, cmd) && HasVersion(q, cmd) && SeqsGrow(cmd) && r.ver <= q.ver
    ensures r.data.cmdSeq <= q.data.cmdSeq
  {
  }

  // A reload step, failed or not, keeps the loaded version and never goes back.
  lemma StepHasVersion<T>(w: Reloading<T>, s: ReloadStep<T>)
    requires HasVersion(w.reader, w.file) && CanReload(w, s)
    ensures HasVersion(AfterReload(w, s).reader, AfterReload(w, s).file)
    ensures w.reader.ver <= AfterReload(w, s).reader.ver
  {
  }

  lemma SaveKeepsOk(s: System, a: Action)
    requires SystemOk(s) && Can(s, a) && (a.SaveCmd? || a.StartBarrier?)
    ensures SystemOk(Do(s, a))
  {
    hide SeqsGrow, AcksBacked, BarrierOk, HasVersion;
    var b := if s.barrier.Some? then s.barrier.value else Barrier(0, 0);
    var data := Current(Do(s, a).cmd).data;
    StepHasVersion(Reloading(s.cmd, s.agent), DoSave(a.mtime, data));
    SaveKeepsSeqs(s.cmd, a.mtime, data, b);
  }

  lemma AckKeepsBacked(ack: seq<Version<nat>>, mtime: nat, cmdSeq: nat, later: nat)
    requires AcksBacked(ack, cmdSeq) && cmdSeq <= later
    ensures AcksBacked(ack, later) && AcksBacked(Saved(ack, mtime, cmdSeq), cmdSeq)
  {
  }

  lemma AgentKeepsOk(s: System, a: Action)
    requires SystemOk(s) && Can(s, a) && (a.AgentStat? || a.AgentRead? || a.AgentReadFails? || a.AgentAck?)
    ensures SystemOk(Do(s, a)) && s.agent.ver <= Do(s, a).agent.ver
  {
    hide SeqsGrow, BarrierOk, HasVersion, AcksBacked;
    match a
    case AgentStat(now) =>
      StepHasVersion(Reloading(s.cmd, s.agent), DoStat(now));
    case AgentRead =>
      StepHasVersion(Reloading(s.cmd, s.agent), DoRead);
      LoadsForward(s.agent, Do(s, a).agent, s.cmd);
      AckKeepsBacked(s.ack, 0, s.agent.data.cmdSeq, Do(s, a).agent.data.cmdSeq);
    case AgentReadFails =>
      StepHasVersion(Reloading(s.cmd, s.agent), ReadFails);
    case AgentAck(mtime) =>
      StepHasVersion(Reloading(s.ack, s.client), DoSave(mtime, s.agent.data.cmdSeq));
      AckKeepsBacked(s.ack, mtime, s.agent.data.cmdSeq, s.agent.data.cmdSeq);
  }

  lemma ClientKeepsOk(s: System, a: Action)
    requires SystemOk(s) && Can(s, a) && (a.ClientStat? || a.ClientRead? || a.ClientReadFails? || a.BarrierReturns?)
    ensures SystemOk(Do(s, a))
  {
    hide SeqsGrow, BarrierOk, HasVersion, AcksBacked;
    match a
    case ClientStat(now) => StepHasVersion(Reloading(s.ack, s.client), DoStat(now));
    case ClientRead => StepHasVersion(Reloading(s.ack, s.client), DoRead);
    case ClientReadFails => StepHasVersion(Reloading(s.ack, s.client), ReadFails);
    case BarrierReturns =>
  }

  lemma ActionKeepsOk(s: System, a: Action)
    requires SystemOk(s) && Can(s, a)
    ensures SystemOk(Do(s, a))
    ensures s.agent.ver <= Do(s, a).agent.ver
  {
    hide SystemOk;
    if a.SaveCmd? || a.StartBarrier? {
      SaveKeepsOk(s, a);
    } else if a.AgentStat? || a.AgentRead? || a.AgentReadFails? || a.AgentAck? {
      AgentKeepsOk(s, a);
    } else {
      ClientKeepsOk(s, a);
    }
  }

  lemma {:induction false} ReachableOk(actions: seq<Action>, s: System)
    requires Reachable(actions, s)
    ensures SystemOk(s)
  {
    if actions != [] {
      var n := |actions| - 1;
      var p :| Reachable(actions[..n], p) && Can(p, actions[n]) && s == Do(p, actions[n]);
      ReachableOk(actions[..n], p);
      ActionKeepsOk(p, actions[n]);
    }
  }

  // When the barrier returns, whichever reads failed, the agent has loaded a command at least as new as
  // the one the barrier wrote.
  lemma BarrierMeansLoaded(actions: seq<Action>, s: System)
    requires Reachable(actions, s) && Can(s, BarrierReturns)
    ensures s.barrier.value.ver <= s.agent.ver < |s.cmd|
    ensures s.agent.data == s.cmd[s.agent.ver].data
    ensures s.cmd[s.barrier.value.ver].data.cmdSeq == s.barrier.value.nextSeq
  {
    ReachableOk(actions, s);
    assert s.client.data == s.ack[s.client.ver].data;
  }

  // ---- When a barrier can return ---------------------------------------------------

  // The agent holds an older command, but takes the file for loaded.
  ghost predicate Stuck(s: System)
    requires s.cmd != []
  {
    && s.barrier.Some? && s.agent.pc.Rest?
    && s.agent.loadedMod == Current(s.cmd).mtime
    && s.agent.data.cmdSeq < s.barrier.value.nextSeq
  }

  // Steps of the agent and of the waiting client, without another command.
  ghost predicate Waits(s: System, actions: seq<Action>, x: System)
    decreases |actions|
  {
    if actions == [] then x == s
    else
      && Can(s, actions[0])
      && !actions[0].SaveCmd? && !actions[0].StartBarrier? && !actions[0].BarrierReturns?
      && Waits(Do(s, actions[0]), actions[1..], x)
  }

  lemma {:induction false} StuckStays(s: System, actions: seq<Action>, x: System)
    requires SystemOk(s) && s.cmd != [] && Stuck(s) && Waits(s, actions, x)
    ensures SystemOk(x) && x.cmd == s.cmd && Stuck(x) && x.barrier == s.barrier
    decreases |actions|
  {
    hide SystemOk;
    if actions != [] {
      ActionKeepsOk(s, actions[0]);
      StuckStays(Do(s, actions[0]), actions[1..], x);
    }
  }

  lemma StuckCannotReturn(s: System)
    requires SystemOk(s) && s.cmd != [] && Stuck(s)
    ensures !Can(s, BarrierReturns)
  {
    assert s.client.data == s.ack[s.client.ver].data;
  }

  lemma {:induction false} WaitsMore(s: System, actions: seq<Action>, x: System, a: Action)
    requires Waits(s, actions, x) && Can(x, a) && !a.SaveCmd? && !a.StartBarrier? && !a.BarrierReturns?
    ensures Waits(s, actions + [a], Do(x, a))
    decreases |actions|
  {
    hide Do;
    if actions == [] {
      assert actions + [a] == [a] && [a][1..] == [];
    } else {
      assert (actions + [a])[0] == actions[0] && (actions + [a])[1..] == actions[1..] + [a];
      WaitsMore(Do(s, actions[0]), actions[1..], x, a);
    }
  }

  lemma {:induction false} WaitsKeeps(s: System, actions: seq<Action>, x: System)
    requires SystemOk(s) && Waits(s, actions, x)
    ensures SystemOk(x) && x.cmd == s.cmd && x.barrier == s.barrier
    decreases |actions|
  {
    hide SystemOk;
    if actions != [] {
      ActionKeepsOk(s, actions[0]);
      WaitsKeeps(Do(s, actions[0]), actions[1..], x);
    }
  }

  // The current command is at least as new as any barrier's.
  lemma CurrentIsEnough(s: System)
    requires SystemOk(s) && s.barrier.Some?
    ensures s.cmd != [] && s.ack != [] && Current(s.cmd).data.cmdSeq >= s.barrier.value.nextSeq
  {
    assert s.barrier.value.ver < |s.cmd|;
  }

  // The agent gets to a command that is new enough.
  lemma AgentCatchesUp(s: System) returns (actions: seq<Action>, x: System)
    requires SystemOk(s) && s.barrier.Some? && s.cmd != [] && !Stuck(s)
    ensures Waits(s, actions, x) && x.agent.pc.Rest? && x.agent.data.cmdSeq >= s.barrier.value.nextSeq
  {
    hide SystemOk;
    CurrentIsEnough(s);
    actions, x := [], s;
    if s.agent.pc.Rest? && s.agent.data.cmdSeq < s.barrier.value.nextSeq {
      var a := AgentStat(Current(s.cmd).mtime + SETTLE_MSECS);
      WaitsMore(s, actions, x, a);
      actions, x := actions + [a], Do(x, a);
    }
    if x.agent.pc.Marked? {
      WaitsMore(s, actions, x, AgentRead);
      actions, x := actions + [AgentRead], Do(x, AgentRead);
    }
  }

  // Acknowledging makes a version of the ack file that the client has not seen.
  lemma AgentAcks(s: System, actions: seq<Action>, x: System) returns (more: seq<Action>, y: System)
    requires Waits(s, actions, x) && x.cmd != [] && x.ack != [] && x.agent.pc.Rest?
    ensures Waits(s, more, y) && y.ack != [] && y.cmd == x.cmd && y.barrier == x.barrier && y.client == x.client
    ensures Current(y.ack).data == x.agent.data.cmdSeq && y.client.loadedMod != Current(y.ack).mtime
  {
    var a := AgentAck(Max(Current(x.ack).mtime, x.client.loadedMod) + 1);
    WaitsMore(s, actions, x, a);
    more, y := actions + [a], Do(x, a);
  }

  // The client loads the current ack.
  lemma ClientCatchesUp(s: System, actions: seq<Action>, x: System) returns (more: seq<Action>, y: System)
    requires Waits(s, actions, x) && x.cmd != [] && x.ack != []
    requires x.client.loadedMod != Current(x.ack).mtime
    ensures Waits(s, more, y) && y.client.pc.Rest? && y.client.data == Current(x.ack).data
    ensures y.cmd == x.cmd && y.ack == x.ack && y.barrier == x.barrier
  {
    more, y := actions, x;
    if x.client.pc.Rest? {
      var a := ClientStat(Current(x.ack).mtime + SETTLE_MSECS);
      WaitsMore(s, more, y, a);
      more, y := more + [a], Do(y, a);
    }
    WaitsMore(s, more, y, ClientRead);
    more, y := more + [ClientRead], Do(y, ClientRead);
  }

  // From every reachable state with a barrier, the agent and the client can go on to
  // where it returns, unless the agent takes an older command for the current one.
  lemma BarrierCanReturn(actions: seq<Action>, s: System) returns (more: seq<Action>, x: System)
    requires Reachable(actions, s) && s.barrier.Some? && s.cmd != [] && !Stuck(s)
    ensures Waits(s, more, x) && Can(x, BarrierReturns)
  {
    hide SystemOk, Waits, Do;
    ReachableOk(actions, s);
    CurrentIsEnough(s);
    more, x := AgentCatchesUp(s);
    WaitsKeeps(s, more, x);
    CurrentIsEnough(x);
    more, x := AgentAcks(s, more, x);
    more, x := ClientCatchesUp(s, more, x);
  }

  // In that case it cannot, whatever the agent and the client do: only another
  // command helps.  A failed read leads there.
  lemma BarrierReturnsIff(actions: seq<Action>, s: System)
    requires Reachable(actions, s) && s.barrier.Some? && s.cmd != []
    ensures (exists more: seq<Action>, x: System :: Waits(s, more, x) && Can(x, BarrierReturns)) <==> !Stuck(s)
  {
    hide SystemOk, Waits, Can, Do, Stuck;
    ReachableOk(actions, s);
    if Stuck(s) {
      forall more: seq<Action>, x: System | Waits(s, more, x) ensures !Can(x, BarrierReturns) {
        StuckStays(s, more, x);
        StuckCannotReturn(x);
      }
    } else {
      var more, x := BarrierCanReturn(actions, s);
    }
  }
}
