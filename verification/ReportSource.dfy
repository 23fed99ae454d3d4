// The cache of timestamped report files behind the demo's graphs
// (resctl-demo/src/report_ring.rs, ReportRing and ReportRingSet).
//
// The report directory is a map from timestamps to parsed reports; a file that
// is missing or does not parse is a timestamp outside the map.
module ReportSource {
  import opened Wrappers
  import opened Windows

  datatype Record<R> = Record(at: nat, rep: R)

  // The reports a directory holds at `from`, `from + cadence`, ... up to `to`.
  function Scan<R>(files: map<nat, R>, from: nat, to: nat, cadence: nat): seq<Record<R>>
    requires cadence > 0
    decreases if from <= to then to - from + 1 else 0
  {
    if from > to then []
    else (if from in files then [Record(from, files[from])] else [])
         + Scan(files, from + cadence, to, cadence)
  }

  ghost predicate Increasing<R>(ring: seq<Record<R>>) {
    forall i, j :: 0 <= i < j < |ring| ==> ring[i].at < ring[j].at
  }

  function DropOlder<R>(ring: seq<Record<R>>, start: nat): seq<Record<R>> {
    if ring == [] || ring[0].at >= start then ring else DropOlder(ring[1..], start)
  }

  function LoadFrom<R>(ring: seq<Record<R>>, start: nat, cadence: nat): nat {
    if ring == [] then start else ring[|ring| - 1].at + cadence
  }

  // What one refresh makes of the ring.
  function Updated<R>(ring: seq<Record<R>>, files: map<nat, R>, start: nat, now: nat, cadence: nat): seq<Record<R>>
    requires cadence > 0
  {
    var kept := DropOlder(ring, start);
    kept + Scan(files, LoadFrom(kept, start, cadence), now, cadence)
  }

  // First timestamp of the window that a refresh at the aligned time `now` keeps.
  function StartAt(now: nat, retention: nat, tailCadence: nat): nat
    requires tailCadence > 0 && retention <= now
  {
    Align(now - retention, tailCadence)
  }

  class ReportRing<R> {
    var ring: seq<Record<R>>
    const cadence: nat
    const tailCadence: nat
    const retention: nat

    constructor (cadence: nat, tailCadence: nat, retention: nat)
      ensures ring == [] && this.cadence == cadence
      ensures this.tailCadence == tailCadence && this.retention == retention
    {
      ring := [];
      this.cadence, this.tailCadence, this.retention := cadence, tailCadence, retention;
    }

    // `dir` is None while the agent has not published its index yet.
    method Update(dir: Option<map<nat, R>>, wallClock: nat)
      requires cadence > 0 && tailCadence > 0
      requires retention <= Align(wallClock, cadence)
      modifies this
      ensures dir.None? ==> ring == old(ring)
      ensures dir.Some? ==>
                var now := Align(wallClock, cadence);
                ring == Updated(old(ring), dir.value, StartAt(now, retention, tailCadence), now, cadence)
    {
      if dir.None? {
        return;
      }
      var files := dir.value;
      var now := Align(wallClock, cadence);
      var start := StartAt(now, retention, tailCadence);

      while ring != [] && ring[0].at < start
        invariant DropOlder(ring, start) == DropOlder(old(ring), start)
        decreases |ring|
      {
        ring := ring[1..];
      }
      ghost var kept := ring;
      var at := LoadFrom(ring, start, cadence);
      ghost var loadFrom := at;
      while at <= now
        invariant ring + Scan(files, at, now, cadence) == kept + Scan(files, loadFrom, now, cadence)
        decreases now + cadence - at
      {
        ghost var rest := Scan(files, at + cadence, now, cadence);
        ghost var before := ring;
        if at in files {
          ring := ring + [Record(at, files[at])];
          assert before + ([Record(at, files[at])] + rest) == ring + rest;
        } else {
          assert [] + rest == rest;
        }
        at := at + cadence;
      }
      assert ring + [] == ring;
    }
  }

  // ---- What a scan holds ----------------------------------------------------

  lemma {:induction false} ScanIncreasing<R>(files: map<nat, R>, from: nat, to: nat, cadence: nat)
    requires cadence > 0
    ensures Increasing(Scan(files, from, to, cadence))
    ensures forall i :: 0 <= i < |Scan(files, from, to, cadence)| ==>
                          from <= Scan(files, from, to, cadence)[i].at <= to
    decreases if from <= to then to - from + 1 else 0
  {
    if from <= to {
      ScanIncreasing(files, from + cadence, to, cadence);
    }
  }

  // A scan holds exactly the published, cadence-aligned records of its range.
  lemma {:induction false} ScanExact<R>(files: map<nat, R>, from: nat, to: nat, cadence: nat, r: Record<R>)
    requires cadence > 0 && Multiple(from, cadence)
    ensures r in Scan(files, from, to, cadence) <==>
            from <= r.at <= to && Multiple(r.at, cadence) && r.at in files && files[r.at] == r.rep
    decreases if from <= to then to - from + 1 else 0
  {
    if from <= to {
      MultiplesAdd(from, cadence, cadence);
      ScanExact(files, from + cadence, to, cadence, r);
      if Multiple(r.at, cadence) && from < r.at {
        MultiplesApart(from, r.at, cadence);
      }
      var here := if from in files then [Record(from, files[from])] else [];
      assert r in here + Scan(files, from + cadence, to, cadence) <==>
             r in here || r in Scan(files, from + cadence, to, cadence);
    }
  }

  lemma {:induction false} ScanAgrees<R>(a: map<nat, R>, b: map<nat, R>, from: nat, to: nat, cadence: nat)
    requires cadence > 0
    requires forall k :: from <= k <= to ==> (k in a <==> k in b) && (k in a ==> a[k] == b[k])
    ensures Scan(a, from, to, cadence) == Scan(b, from, to, cadence)
    decreases if from <= to then to - from + 1 else 0
  {
    if from <= to {
      ScanAgrees(a, b, from + cadence, to, cadence);
    }
  }

  lemma NextOnTheWay(from: nat, mid: nat, cadence: nat)
    requires cadence > 0 && from < mid && Multiple(from, cadence) && Multiple(mid, cadence)
    ensures from + cadence <= mid && Multiple(from + cadence, cadence)
  {
    MultiplesApart(from, mid, cadence);
    NextMultiple(from, cadence);
  }

  function At<R>(files: map<nat, R>, at: nat): seq<Record<R>> {
    if at in files then [Record(at, files[at])] else []
  }

  lemma ScanFirst<R>(files: map<nat, R>, from: nat, to: nat, cadence: nat)
    requires cadence > 0 && from <= to
    ensures Scan(files, from, to, cadence) == At(files, from) + Scan(files, from + cadence, to, cadence)
  {
  }

  lemma ScanPast<R>(files: map<nat, R>, from: nat, to: nat, cadence: nat)
    requires cadence > 0 && from > to
    ensures Scan(files, from, to, cadence) == []
  {
  }

  lemma {:induction false} ScanSplit<R>(files: map<nat, R>, from: nat, mid: nat, to: nat, cadence: nat)
    requires cadence > 0 && from <= mid <= to
    requires Multiple(from, cadence) && Multiple(mid, cadence)
    ensures Scan(files, from, to, cadence)
         == Scan(files, from, mid, cadence) + Scan(files, mid + cadence, to, cadence)
    decreases mid - from
  {
    hide Multiple, Scan, At;
    ScanFirst(files, from, to, cadence);
    ScanFirst(files, from, mid, cadence);
    if from == mid {
      ScanPast(files, from + cadence, mid, cadence);
    } else {
      NextOnTheWay(from, mid, cadence);
      ScanSplit(files, from + cadence, mid, to, cadence);
    }
  }

  lemma NoTail<R>(front: seq<Record<R>>, rest: seq<Record<R>>, at: nat)
    requires front + rest != [] && (front + rest)[|front + rest| - 1].at == at
    requires forall i :: 0 <= i < |rest| ==> rest[i].at > at
    ensures rest == []
  {
  }

  // Nothing lies between the last record of a scan and the end of its range.
  lemma ScanEndsAtLast<R>(files: map<nat, R>, from: nat, to: nat, cadence: nat)
    requires cadence > 0 && Multiple(from, cadence)
    requires Scan(files, from, to, cadence) != []
    ensures var s := Scan(files, from, to, cadence);
            var last := s[|s| - 1].at;
            from <= last <= to && Multiple(last, cadence) && last in files
            && s == Scan(files, from, last, cadence)
  {
    hide Scan;
    var s := Scan(files, from, to, cadence);
    var last := s[|s| - 1];
    ScanIncreasing(files, from, to, cadence);
    ScanExact(files, from, to, cadence, last);
    ScanSplit(files, from, last.at, to, cadence);
    ScanIncreasing(files, last.at + cadence, to, cadence);
    NoTail(Scan(files, from, last.at, cadence), Scan(files, last.at + cadence, to, cadence), last.at);
  }

  lemma {:induction false} DropOlderOfScan<R>(files: map<nat, R>, from: nat, to: nat, cadence: nat, start: nat)
    requires cadence > 0 && from <= start
    requires Multiple(from, cadence) && Multiple(start, cadence)
    ensures DropOlder(Scan(files, from, to, cadence), start) == Scan(files, start, to, cadence)
    decreases start - from
  {
    var s := Scan(files, from, to, cadence);
    if from == start {
      ScanIncreasing(files, from, to, cadence);
    } else {
      MultiplesApart(from, start, cadence);
      MultiplesAdd(from, cadence, cadence);
      DropOlderOfScan(files, from + cadence, to, cadence, start);
      if from <= to {
        var rest := Scan(files, from + cadence, to, cadence);
        if from in files {
          assert s[1..] == rest;
        } else {
          assert s == rest;
        }
      }
    }
  }

  // ---- The ring over a whole run of refreshes -------------------------------

  // One refresh: the wall clock, every report published so far, and what the
  // directory still holds.
  datatype Poll<R> = Poll(wallClock: nat, published: map<nat, R>, files: map<nat, R>)

  datatype Config = Config(cadence: nat, tailCadence: nat, retention: nat) {
    ghost predicate Valid() {
      cadence > 0 && tailCadence > 0 && Multiple(tailCadence, cadence)
    }
    function Now(wallClock: nat): nat
      requires cadence > 0
    {
      Align(wallClock, cadence)
    }
    function Start(wallClock: nat): nat
      requires cadence > 0 && tailCadence > 0 && retention <= Now(wallClock)
    {
      StartAt(Now(wallClock), retention, tailCadence)
    }
  }

  // Reports appear in timestamp order, and everything published inside the
  // window that this refresh wants is still on disk.
  ghost predicate ValidPoll<R>(cfg: Config, p: Poll<R>)
    requires cfg.Valid()
  {
    && cfg.retention <= cfg.Now(p.wallClock)
    && (forall k {:trigger k in p.files} :: cfg.Start(p.wallClock) <= k ==>
          (k in p.files <==> k in p.published) && (k in p.files ==> p.files[k] == p.published[k]))
  }

  ghost predicate Follows<R>(p: Poll<R>, q: Poll<R>) {
    && p.wallClock <= q.wallClock
    && (forall k :: k in p.published ==> k in q.published && q.published[k] == p.published[k])
    && (forall k, j :: k in q.published && k !in p.published && j in p.published ==> j < k)
  }

  ghost predicate ValidRun<R(!new)>(cfg: Config, polls: seq<Poll<R>>)
    requires cfg.Valid()
  {
    polls != [] ==>
      var n := |polls|;
      && ValidPoll(cfg, polls[n - 1])
      && ValidRun(cfg, polls[..n - 1])
      && (n > 1 ==> Follows(polls[n - 2], polls[n - 1]))
  }

  ghost function RingAfter<R(!new)>(cfg: Config, polls: seq<Poll<R>>): seq<Record<R>>
    requires cfg.Valid() && ValidRun(cfg, polls)
  {
    if polls == [] then []
    else
      var p := polls[|polls| - 1];
      Updated(RingAfter(cfg, polls[..|polls| - 1]), p.files, cfg.Start(p.wallClock), cfg.Now(p.wallClock), cfg.cadence)
  }

  ghost function Window<R>(cfg: Config, p: Poll<R>): seq<Record<R>>
    requires cfg.Valid() && ValidPoll(cfg, p)
  {
    Scan(p.published, cfg.Start(p.wallClock), cfg.Now(p.wallClock), cfg.cadence)
  }

  lemma StartAligned(cfg: Config, p: nat, q: nat)
    requires cfg.Valid() && p <= q
    requires cfg.retention <= cfg.Now(p)
    ensures cfg.Now(p) <= cfg.Now(q)
    ensures cfg.Start(p) <= cfg.Start(q) && Multiple(cfg.Start(p), cfg.cadence)
  {
    hide Align, Multiple;
    IdxMono(p, q, cfg.cadence);
    IdxMono(cfg.Now(p) - cfg.retention, cfg.Now(q) - cfg.retention, cfg.tailCadence);
    AlignFacts(cfg.Now(p) - cfg.retention, cfg.tailCadence);
    MultipleOfMultiple(cfg.Start(p), cfg.tailCadence, cfg.cadence);
  }

  // One incremental refresh yields the same ring as reading the whole window.
  lemma UpdateIsWindow<R>(cfg: Config, p: Poll<R>, q: Poll<R>)
    requires cfg.Valid() && ValidPoll(cfg, p) && ValidPoll(cfg, q) && Follows(p, q)
    ensures Updated(Window(cfg, p), q.files, cfg.Start(q.wallClock), cfg.Now(q.wallClock), cfg.cadence)
         == Window(cfg, q)
  {
    hide Scan, Multiple;
    var c := cfg.cadence;
    var start, now := cfg.Start(q.wallClock), cfg.Now(q.wallClock);
    StartAligned(cfg, p.wallClock, q.wallClock);
    StartAligned(cfg, q.wallClock, q.wallClock);
    DropOlderOfScan(p.published, cfg.Start(p.wallClock), cfg.Now(p.wallClock), c, start);
    var kept := Scan(p.published, start, cfg.Now(p.wallClock), c);
    if kept == [] {
      ScanAgrees(q.files, q.published, start, now, c);
      assert [] + Scan(q.files, start, now, c) == Scan(q.files, start, now, c);
    } else {
      ScanEndsAtLast(p.published, start, cfg.Now(p.wallClock), c);
      var last := kept[|kept| - 1].at;
      ScanSplit(q.published, start, last, now, c);
      forall k | start <= k <= last
        ensures (k in p.published <==> k in q.published)
        ensures k in p.published ==> p.published[k] == q.published[k]
      {
      }
      ScanAgrees(p.published, q.published, start, last, c);
      ScanAgrees(q.files, q.published, last + c, now, c);
    }
  }

  lemma FirstUpdateIsWindow<R>(cfg: Config, q: Poll<R>)
    requires cfg.Valid() && ValidPoll(cfg, q)
    ensures Updated([], q.files, cfg.Start(q.wallClock), cfg.Now(q.wallClock), cfg.cadence) == Window(cfg, q)
  {
    var start, now := cfg.Start(q.wallClock), cfg.Now(q.wallClock);
    ScanAgrees(q.files, q.published, start, now, cfg.cadence);
    assert [] + Scan(q.files, start, now, cfg.cadence) == Scan(q.files, start, now, cfg.cadence);
  }

  // After any run of refreshes the ring is the whole published window.
  lemma {:induction false} RingIsWindow<R(!new)>(cfg: Config, polls: seq<Poll<R>>)
    requires cfg.Valid() && ValidRun(cfg, polls) && polls != []
    ensures RingAfter(cfg, polls) == Window(cfg, polls[|polls| - 1])
  {
    var n := |polls|;
    var init := polls[..n - 1];
    if n == 1 {
      assert init == [];
      FirstUpdateIsWindow(cfg, polls[0]);
    } else {
      RingIsWindow(cfg, init);
      UpdateIsWindow(cfg, polls[n - 2], polls[n - 1]);
    }
  }

  // Stated for a reader of the ring: it is strictly increasing and holds
  // exactly the cadence-aligned reports published in [start, now].
  lemma RingHoldsExactlyTheWindow<R(!new)>(cfg: Config, polls: seq<Poll<R>>, r: Record<R>)
    requires cfg.Valid() && ValidRun(cfg, polls) && polls != []
    ensures var p := polls[|polls| - 1];
            Increasing(RingAfter(cfg, polls)) &&
            (r in RingAfter(cfg, polls) <==>
             && cfg.Start(p.wallClock) <= r.at <= cfg.Now(p.wallClock)
             && Multiple(r.at, cfg.cadence)
             && r.at in p.published && p.published[r.at] == r.rep)
  {
    var p := polls[|polls| - 1];
    RingIsWindow(cfg, polls);
    StartAligned(cfg, p.wallClock, p.wallClock);
    ScanIncreasing(p.published, cfg.Start(p.wallClock), cfg.Now(p.wallClock), cfg.cadence);
    ScanExact(p.published, cfg.Start(p.wallClock), cfg.Now(p.wallClock), cfg.cadence, r);
  }

  // ---- The per-second and per-minute rings together -------------------------

  const MINUTE: nat := 60

  function SecConfig(retention: nat): Config { Config(1, MINUTE, retention) }
  function MinConfig(retention: nat): Config { Config(MINUTE, MINUTE, retention) }

  class ReportRingSet<R> {
    const secRing: ReportRing<R>
    const minRing: ReportRing<R>

    constructor (secRetention: nat, minRetention: nat)
      ensures secRing.cadence == 1 && secRing.tailCadence == MINUTE && secRing.retention == secRetention
      ensures minRing.cadence == MINUTE && minRing.tailCadence == MINUTE && minRing.retention == minRetention
      ensures secRing != minRing && secRing.ring == minRing.ring == []
    {
      secRing := new ReportRing(1, MINUTE, secRetention);
      minRing := new ReportRing(MINUTE, MINUTE, minRetention);
    }

    method Update(secDir: Option<map<nat, R>>, minDir: Option<map<nat, R>>, now: nat)
      requires secRing != minRing
      requires secRing.cadence == 1 && secRing.tailCadence == MINUTE
      requires minRing.cadence == MINUTE && minRing.tailCadence == MINUTE
      requires secRing.retention + MINUTE <= now
      requires minRing.retention <= Align(now - secRing.retention - MINUTE, MINUTE)
      modifies secRing, minRing
      ensures secDir.None? ==> secRing.ring == old(secRing.ring)
      ensures minDir.None? ==> minRing.ring == old(minRing.ring)
      ensures secDir.Some? ==>
                var cfg := SecConfig(secRing.retention);
                secRing.ring == Updated(old(secRing.ring), secDir.value, cfg.Start(now), cfg.Now(now), 1)
      ensures minDir.Some? ==>
                var cfg := MinConfig(minRing.retention);
                var minNow := now - secRing.retention - MINUTE;
                minRing.ring == Updated(old(minRing.ring), minDir.value, cfg.Start(minNow), cfg.Now(minNow), MINUTE)
    {
      assert Align(now, 1) == now;
      secRing.Update(secDir, now);
      minRing.Update(minDir, now - secRing.retention - MINUTE);
    }
  }

  // The per-minute window ends exactly one minute before the per-second window
  // starts: the minutes and the seconds tile the timeline.
  lemma RingsAbut(secRetention: nat, minRetention: nat, now: nat)
    requires secRetention + MINUTE <= now
    requires minRetention <= Align(now - secRetention - MINUTE, MINUTE)
    ensures MinConfig(minRetention).Now(now - secRetention - 60) + 60 == SecConfig(secRetention).Start(now)
    ensures SecConfig(secRetention).Start(now) <= SecConfig(secRetention).Now(now)
  {
    assert Align(now, 1) == now;
    var x := now - secRetention;
    var k := x / MINUTE;
    assert (k - 1) * MINUTE == k * MINUTE - MINUTE;
    DivUnique(x - MINUTE, MINUTE, k - 1);
  }

  // Where a ring starts and ends: at the last multiple of the tail cadence that is
  // not after the retention period, and at the last multiple of the cadence.
  lemma WindowBounds(cfg: Config, wallClock: nat)
    requires cfg.Valid() && cfg.retention <= cfg.Now(wallClock)
    ensures cfg.Now(wallClock) % cfg.cadence == 0 && cfg.Now(wallClock) <= wallClock < cfg.Now(wallClock) + cfg.cadence
    ensures var start, limit := cfg.Start(wallClock), cfg.Now(wallClock) - cfg.retention;
            start % cfg.tailCadence == 0 && start <= limit < start + cfg.tailCadence
  {
    AlignFacts(wallClock, cfg.cadence);
    AlignFacts(cfg.Now(wallClock) - cfg.retention, cfg.tailCadence);
  }
}
