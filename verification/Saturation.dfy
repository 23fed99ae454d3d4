// The memory saturation search of rd-hashd's benchmark (rd-hashd/src/bench.rs):
// a coarse up-scan, a bisection with re-verification of the opposite bound, and
// a refine walk.  Positions are reals; a measurement is an oracle's answer.
module Saturation {
  import opened Wrappers

  // ---- Coarse scan up --------------------------------------------------------

  // closure next_up_pos
  function NextUpPos(pos: Option<real>): Option<real> {
    match pos
    case None => Some(0.2)
    case Some(v) => if v < 0.99 then Some(if v + 0.2 < 1.0 then v + 0.2 else 1.0) else None
  }

  // Scans up until a position saturates or none is left; `hit` tells which.
  method UpScan(up: real -> bool) returns (pos: real, hit: bool)
    ensures 0.2 <= pos <= 1.0
    ensures pos in [0.2, 0.4, 0.6, 0.8, 1.0]
    ensures hit ==> up(pos)
    ensures forall x :: x in [0.2, 0.4, 0.6, 0.8, 1.0] && x < pos ==> !up(x)
    ensures !hit ==> pos == 1.0 && !up(1.0)
    ensures (pos, hit) == ScanUp(up, None)
  {
    var nextPos := None;
    pos, hit := 0.0, false;
    while true
      invariant nextPos.None? || (nextPos == Some(pos) && !up(pos) && pos in [0.2, 0.4, 0.6, 0.8, 1.0])
      invariant forall x :: x in [0.2, 0.4, 0.6, 0.8, 1.0] && nextPos.Some? && x <= pos ==> !up(x)
      invariant ScanUp(up, nextPos) == ScanUp(up, None)
      decreases ScanRank(nextPos)
    {
      nextPos := NextUpPos(nextPos);
      if nextPos.None? {
        break;
      }
      pos := nextPos.value;
      if up(pos) {
        hit := true;
        break;
      }
    }
  }

  function ScanRank(pos: Option<real>): int {
    match pos
    case None => 1000
    case Some(v) => if v < 0.0 then 999 else ((1.0 - v) * 100.0).Floor
  }

  function ScanUp(up: real -> bool, pos: Option<real>): (real, bool)
    requires pos.Some? ==> 0.0 <= pos.value
    decreases ScanRank(pos)
  {
    match NextUpPos(pos)
    case None => (pos.value, false)
    case Some(v) => if up(v) then (v, true) else ScanUp(up, Some(v))
  }

  // ---- Bisection -------------------------------------------------------------

  datatype Phase =
    | Bisecting
    | Verifying(wasRight: bool)
    | Done

  // Both deques front first, and the latest answer at each measured position.
  datatype Search = Search(left: seq<real>, right: seq<real>, phase: Phase, latest: map<real, bool>)

  function Start(top: real): Search {
    Search([0.0], [top], Bisecting, map[])
  }

  // closure bisect_done
  predicate CloseEnough(left: real, right: real, grain: real) {
    right - left < 0.05 * grain
  }

  // The position the search measures next.
  function Probe(s: Search): real
    requires s.left != [] && s.right != []
  {
    match s.phase
    case Bisecting => (s.left[0] + s.right[0]) / 2.0
    case Verifying(wasRight) => if wasRight then s.left[0] else s.right[0]
    case Done => s.right[0]
  }

  // A bound that was just moved is final if the other side has nothing left to
  // bisect, otherwise the opposite bound is measured again.
  function PhaseAfterProbe(left: seq<real>, right: seq<real>, grain: real, saturated: bool): Phase
    requires left != [] && right != []
  {
    if !CloseEnough(left[0], right[0], grain) then Bisecting
    else if (if saturated then |left| else |right|) == 1 then Done
    else Verifying(saturated)
  }

  function Step(s: Search, grain: real, saturated: bool): Search
    requires s.left != [] && s.right != []
  {
    var latest := s.latest[Probe(s) := saturated];
    match s.phase
    case Bisecting =>
      var pos := Probe(s);
      var left := if saturated then s.left else [pos] + s.left;
      var right := if saturated then [pos] + s.right else s.right;
      Search(left, right, PhaseAfterProbe(left, right, grain, saturated), latest)
    case Verifying(wasRight) =>
      if saturated && wasRight then
        Search(s.left[1..], [s.left[0]] + s.right[..|s.right| - 1], Bisecting, latest)
      else if !saturated && !wasRight then
        Search([s.right[0]] + s.left[..|s.left| - 1], s.right[1..], Bisecting, latest)
      else s.(phase := Done, latest := latest)
    case Done => s
  }

  ghost predicate Decreasing(s: seq<real>) {
    forall i, j :: 0 <= i < j < |s| ==> s[j] < s[i]
  }

  ghost predicate Increasing(s: seq<real>) {
    forall i, j :: 0 <= i < j < |s| ==> s[i] < s[j]
  }

  // The bounds are ordered and straddle.
  ghost predicate Straddles(left: seq<real>, right: seq<real>, top: real) {
    && left != [] && right != []
    && Decreasing(left) && Increasing(right) && left[0] < right[0]
    && 0.0 <= left[|left| - 1] && right[|right| - 1] <= top
  }

  // Each bound sits on the side of its latest measurement, except for the
  // initial zero and the position the up-scan ended at.
  ghost predicate Sided(left: seq<real>, right: seq<real>, latest: map<real, bool>, top: real) {
    && (forall x :: x in left ==> x == 0.0 || (x in latest && !latest[x]))
    && (forall x :: x in right ==> x == top || (x in latest && latest[x]))
  }

  // What holds for every oracle, however inconsistent.
  ghost predicate Ok(s: Search, top: real, grain: real) {
    && Straddles(s.left, s.right, top)
    && Sided(s.left, s.right, s.latest, top)
    && (!s.phase.Bisecting? ==> CloseEnough(s.left[0], s.right[0], grain))
    && (s.phase.Verifying? ==> |if s.phase.wasRight then s.left else s.right| > 1)
  }

  ghost predicate Within(left: seq<real>, right: seq<real>, left': seq<real>, right': seq<real>)
    requires left != [] && right != [] && left' != [] && right' != []
  {
    left[|left| - 1] <= left'[|left'| - 1] && right'[|right'| - 1] <= right[|right| - 1]
  }

  lemma StraddleProbe(left: seq<real>, right: seq<real>, top: real, pos: real)
    requires Straddles(left, right, top) && left[0] < pos < right[0]
    ensures pos !in left && pos !in right
    ensures Straddles([pos] + left, right, top) && Straddles(left, [pos] + right, top)
    ensures Within(left, right, [pos] + left, right) && Within(left, right, left, [pos] + right)
  {
  }

  lemma SidedProbe(left: seq<real>, right: seq<real>, latest: map<real, bool>, top: real, pos: real, saturated: bool)
    requires Sided(left, right, latest, top) && pos !in left && pos !in right
    ensures saturated ==> Sided(left, [pos] + right, latest[pos := saturated], top)
    ensures !saturated ==> Sided([pos] + left, right, latest[pos := saturated], top)
  {
  }

  // A shift moves a bound to the other side and drops that side's outermost one.
  lemma StraddleShift(left: seq<real>, right: seq<real>, top: real)
    requires Straddles(left, right, top)
    ensures |left| > 1 ==>
              var (l, r) := (left[1..], [left[0]] + right[..|right| - 1]);
              Straddles(l, r, top) && Within(left, right, l, r)
    ensures |right| > 1 ==>
              var (l, r) := ([right[0]] + left[..|left| - 1], right[1..]);
              Straddles(l, r, top) && Within(left, right, l, r)
    ensures left[0] !in right && left[0] !in left[1..]
    ensures right[0] !in left && right[0] !in right[1..]
  {
  }

  lemma SidedShift(left: seq<real>, right: seq<real>, latest: map<real, bool>, top: real)
    requires left != [] && right != [] && Sided(left, right, latest, top)
    requires left[0] !in right && left[0] !in left[1..]
    requires right[0] !in left && right[0] !in right[1..]
    ensures Sided(left[1..], [left[0]] + right[..|right| - 1], latest[left[0] := true], top)
    ensures Sided([right[0]] + left[..|left| - 1], right[1..], latest[right[0] := false], top)
    ensures Sided(left, right, latest[left[0] := false], top)
    ensures Sided(left, right, latest[right[0] := true], top)
  {
  }

  // Every step keeps the bounds, and the outer window only shrinks.
  lemma StepKeepsOk(s: Search, top: real, grain: real, saturated: bool)
    requires Ok(s, top, grain)
    ensures Ok(Step(s, grain, saturated), top, grain)
    ensures Within(s.left, s.right, Step(s, grain, saturated).left, Step(s, grain, saturated).right)
  {
    hide Decreasing, Increasing;
    var pos := Probe(s);
    match s.phase
    case Bisecting =>
      StraddleProbe(s.left, s.right, top, pos);
      SidedProbe(s.left, s.right, s.latest, top, pos, saturated);
      hide Sided;
    case Verifying(_) =>
      StraddleShift(s.left, s.right, top);
      SidedShift(s.left, s.right, s.latest, top);
      hide Sided;
    case Done =>
  }

  // The search after a list of answers, whatever they are.
  function Run(top: real, grain: real, answers: seq<bool>): (s: Search)
    requires 0.0 < top
    ensures Ok(s, top, grain)
    ensures s.left != [] && s.right != [] && s.left[0] < s.right[0]
  {
    if answers == [] then Start(top)
    else
      var n := |answers| - 1;
      var s := Run(top, grain, answers[..n]);
      StepKeepsOk(s, top, grain, answers[n]);
      Step(s, grain, answers[n])
  }

  lemma RunNone(top: real, grain: real, answers: seq<bool>)
    requires 0.0 < top
    ensures Run(top, grain, answers[..0]) == Start(top)
  {
  }

  lemma RunOneMore(top: real, grain: real, answers: seq<bool>, n: nat)
    requires 0.0 < top && n < |answers|
    ensures Run(top, grain, answers[..n + 1]) == Step(Run(top, grain, answers[..n]), grain, answers[n])
  {
    assert answers[..n + 1][..n] == answers[..n];
  }

  // The source's nested loops, fed with the answers its measurements give.  The
  // method stops early if the answers run out.
  method Bisect(top: real, grain: real, answers: seq<bool>)
    returns (result: real, finished: bool, used: nat)
    requires 0.0 < top
    ensures used <= |answers| && (!finished ==> used == |answers|)
    ensures finished <==> Run(top, grain, answers[..used]).phase.Done?
    ensures result == Run(top, grain, answers[..used]).right[0]
  {
    hide Ok, Run;
    var left, right := [0.0], [top];
    ghost var s := Start(top);
    finished, used := false, 0;
    RunNone(top, grain, answers);
    while true
      invariant used <= |answers| && !finished
      invariant s == Run(top, grain, answers[..used]) && s.phase.Bisecting?
      invariant left == s.left && right == s.right
      decreases |answers| - used
    {
      var pos, saturated;
      ghost var entry := used;
      while true
        invariant entry <= used <= |answers|
        invariant s == Run(top, grain, answers[..used]) && s.phase.Bisecting?
        invariant left == s.left && right == s.right
        decreases |answers| - used
      {
        if used == |answers| {
          return right[0], false, used;
        }
        pos := (left[0] + right[0]) / 2.0;
        saturated := answers[used];
        RunOneMore(top, grain, answers, used);
        used := used + 1;
        s := Step(s, grain, saturated);
        if saturated {
          right := [pos] + right;
        } else {
          left := [pos] + left;
        }
        if right[0] - left[0] < 0.05 * grain {
          break;
        }
      }

      var wasRight := pos == right[0];
      if wasRight {
        if |left| == 1 {
          return right[0], true, used;
        }
        pos := left[0];
      } else {
        if |right| == 1 {
          return right[0], true, used;
        }
        pos := right[0];
      }
      if used == |answers| {
        return right[0], false, used;
      }
      assert pos == Probe(s);
      saturated := answers[used];
      RunOneMore(top, grain, answers, used);
      used := used + 1;
      s := Step(s, grain, saturated);
      if saturated {
        if wasRight {
          right := right[..|right| - 1];
          right := [left[0]] + right;
          left := left[1..];
        } else {
          return right[0], true, used;
        }
      } else {
        if !wasRight {
          left := left[..|left| - 1];
          left := [right[0]] + left;
          right := right[1..];
        } else {
          return right[0], true, used;
        }
      }
    }
  }

  // For every oracle, a search that ends has its answer within the window.
  lemma AnyRun(top: real, grain: real, answers: seq<bool>, n: nat)
    requires 0.0 < top && n <= |answers|
    ensures var s, t := Run(top, grain, answers[..n]), Run(top, grain, answers);
            && Ok(t, top, grain)
            && Within(s.left, s.right, t.left, t.right)
            && (t.phase.Done? ==> 0.0 <= t.left[0] < t.right[0] < t.left[0] + 0.05 * grain && t.right[0] <= top)
    decreases |answers| - n
  {
    hide Step, Ok;
    if n == |answers| {
      assert answers[..n] == answers;
      DoneIsClose(Run(top, grain, answers), top, grain);
    } else {
      assert answers[..n + 1][..n] == answers[..n];
      StepKeepsOk(Run(top, grain, answers[..n]), top, grain, answers[n]);
      AnyRun(top, grain, answers, n + 1);
    }
  }

  lemma DoneIsClose(s: Search, top: real, grain: real)
    requires Ok(s, top, grain)
    ensures s.left != [] && s.right != []
    ensures s.phase.Done? ==> 0.0 <= s.left[0] < s.right[0] < s.left[0] + 0.05 * grain && s.right[0] <= top
  {
  }

  // One probe halves the window towards the answer, and the bisection goes on
  // exactly while the bounds are at least 0.05 grains apart.
  lemma ProbeOutcome(s: Search, grain: real, saturated: bool)
    requires s.left != [] && s.right != [] && s.phase.Bisecting?
    ensures var t := Step(s, grain, saturated);
            var mid := (s.left[0] + s.right[0]) / 2.0;
            && t.left == (if saturated then s.left else [mid] + s.left)
            && t.right == (if saturated then [mid] + s.right else s.right)
            && (t.phase.Bisecting? <==> t.right[0] - t.left[0] >= 0.05 * grain)
            && (t.phase.Done? <==> t.right[0] - t.left[0] < 0.05 * grain && |if saturated then s.left else s.right| == 1)
            && (t.phase.Verifying? ==> t.phase.wasRight == saturated)
  {
  }

  // Measuring the opposite bound again: if it is still on its side the search is
  // done, otherwise the bound changes sides, that side's outermost bound goes, and
  // the bisection resumes.
  lemma VerifyOutcome(s: Search, grain: real, saturated: bool)
    requires s.left != [] && s.right != [] && s.phase.Verifying?
    ensures Probe(s) == if s.phase.wasRight then s.left[0] else s.right[0]
    ensures var t := Step(s, grain, saturated);
            && (saturated != s.phase.wasRight ==> t.phase.Done? && t.left == s.left && t.right == s.right)
            && (saturated && s.phase.wasRight ==>
                  t.phase.Bisecting? && t.left == s.left[1..] && t.right == [s.left[0]] + s.right[..|s.right| - 1])
            && (!saturated && !s.phase.wasRight ==>
                  t.phase.Bisecting? && t.right == s.right[1..] && t.left == [s.right[0]] + s.left[..|s.left| - 1])
  {
  }

  // Whatever the oracle says, a search ends only after its opposite bound has been
  // measured again and confirmed, or while that bound is the one it started with.
  lemma DoneIsVerified(top: real, grain: real, answers: seq<bool>)
    requires 0.0 < top && answers != []
    requires Run(top, grain, answers).phase.Done? && !Run(top, grain, answers[..|answers| - 1]).phase.Done?
    ensures var s, last := Run(top, grain, answers[..|answers| - 1]), answers[|answers| - 1];
            var t := Run(top, grain, answers);
            if s.phase.Bisecting? then |if last then t.left else t.right| == 1
            else
              && t.left == s.left && t.right == s.right
              && (s.phase.wasRight ==> Probe(s) == t.left[0] && !last)
              && (!s.phase.wasRight ==> Probe(s) == t.right[0] && last)
  {
    hide Ok;
    var s := Run(top, grain, answers[..|answers| - 1]);
    if s.phase.Bisecting? {
      ProbeOutcome(s, grain, answers[|answers| - 1]);
    } else {
      VerifyOutcome(s, grain, answers[|answers| - 1]);
    }
  }

  // ---- A well-behaved oracle -------------------------------------------------

  // The answers are those of one fixed oracle.
  ghost predicate FromOracle(top: real, grain: real, answers: seq<bool>, sat: real -> bool)
    requires 0.0 < top
  {
    forall i :: 0 <= i < |answers| ==> answers[i] == sat(Probe(Run(top, grain, answers[..i])))
  }

  // Every bound is on its true side.
  ghost predicate Truthful(s: Search, sat: real -> bool) {
    && (forall x :: x in s.left ==> x == 0.0 || !sat(x))
    && (forall x :: x in s.right ==> sat(x))
  }

  // How many grains wide the window is.
  function Grains(s: Search, grain: real): int
    requires s.left != [] && s.right != [] && grain > 0.0
  {
    ((s.right[0] - s.left[0]) / (0.05 * grain)).Floor
  }

  lemma HalvingCounts(x: real, y: real, unit: real)
    requires unit > 0.0 && x >= unit && y == x / 2.0
    ensures 0 <= (y / unit).Floor < (x / unit).Floor
  {
    assert x / unit == 2.0 * (y / unit);
    assert x / unit >= 1.0;
  }

  lemma HonestProbe(s: Search, top: real, grain: real, sat: real -> bool)
    requires Ok(s, top, grain) && Truthful(s, sat) && s.phase.Bisecting? && grain > 0.0
    ensures var t := Step(s, grain, sat(Probe(s)));
            && Truthful(t, sat)
            && (!CloseEnough(s.left[0], s.right[0], grain) ==> 0 <= Grains(t, grain) < Grains(s, grain))
            && (CloseEnough(s.left[0], s.right[0], grain) ==> !t.phase.Bisecting?)
  {
    var t := Step(s, grain, sat(Probe(s)));
    if !CloseEnough(s.left[0], s.right[0], grain) {
      HalvingCounts(s.right[0] - s.left[0], t.right[0] - t.left[0], 0.05 * grain);
    }
  }

  // Re-measuring a bound on its true side ends the search.
  lemma HonestVerify(s: Search, top: real, grain: real, sat: real -> bool)
    requires Ok(s, top, grain) && Truthful(s, sat) && s.phase.Verifying?
    ensures var t := Step(s, grain, sat(Probe(s)));
            t.phase.Done? && t.left == s.left && t.right == s.right
  {
    if s.phase.wasRight {
      assert s.left[|s.left| - 1] < s.left[0];
      assert s.left[0] in s.left;
    } else {
      assert s.right[0] in s.right;
    }
  }

  lemma OneMoreAnswer(top: real, grain: real, answers: seq<bool>, sat: real -> bool) returns (more: seq<bool>)
    requires 0.0 < top && FromOracle(top, grain, answers, sat)
    ensures more == answers + [sat(Probe(Run(top, grain, answers)))]
    ensures FromOracle(top, grain, more, sat)
    ensures Run(top, grain, more) == Step(Run(top, grain, answers), grain, sat(Probe(Run(top, grain, answers))))
  {
    more := answers + [sat(Probe(Run(top, grain, answers)))];
    assert more[..|answers|] == answers;
    RunOneMore(top, grain, more, |answers|);
    assert more[..|more|] == more;
    forall i | 0 <= i < |more| ensures more[i] == sat(Probe(Run(top, grain, more[..i]))) {
      if i < |answers| {
        assert more[..i] == answers[..i];
      }
    }
  }

  // From any honest state the search ends; `room` bounds the probes left.
  lemma {:induction false} SearchSettles(top: real, grain: real, answers: seq<bool>, sat: real -> bool, room: nat)
    returns (all: seq<bool>)
    requires 0.0 < top && grain > 0.0 && FromOracle(top, grain, answers, sat)
    requires var s := Run(top, grain, answers);
             Truthful(s, sat) && Grains(s, grain) <= room && s.phase.Bisecting?
    ensures answers <= all && |all| <= |answers| + room + 2
    ensures FromOracle(top, grain, all, sat)
    ensures Run(top, grain, all).phase.Done? && Truthful(Run(top, grain, all), sat)
    decreases room
  {
    hide Ok, FromOracle, Run, Step, Probe, CloseEnough;
    var s := Run(top, grain, answers);
    var more := OneMoreAnswer(top, grain, answers, sat);
    HonestProbe(s, top, grain, sat);
    var t := Run(top, grain, more);
    if t.phase.Bisecting? {
      all := SearchSettles(top, grain, more, sat, room - 1);
    } else if t.phase.Verifying? {
      HonestVerify(t, top, grain, sat);
      all := OneMoreAnswer(top, grain, more, sat);
    } else {
      all := more;
    }
  }

  // For a fixed oracle that saturates at `top`, the bisection ends after finitely
  // many measurements, on a saturated position less than 0.05 grains above one
  // that is zero or does not saturate.
  lemma BisectSettles(top: real, grain: real, sat: real -> bool) returns (answers: seq<bool>)
    requires 0.0 < top && grain > 0.0 && sat(top)
    ensures FromOracle(top, grain, answers, sat)
    ensures |answers| <= (top / (0.05 * grain)).Floor + 2
    ensures var s := Run(top, grain, answers);
            && s.phase.Done? && sat(s.right[0])
            && (s.left[0] == 0.0 || !sat(s.left[0]))
            && 0.0 <= s.left[0] < s.right[0] < s.left[0] + 0.05 * grain
  {
    assert Run(top, grain, []) == Start(top);
    assert top / (0.05 * grain) >= 0.0;
    answers := SearchSettles(top, grain, [], sat, (top / (0.05 * grain)).Floor);
    var s := Run(top, grain, answers);
    assert s.left[0] in s.left && s.right[0] in s.right;
  }

  ghost predicate UpwardClosed(sat: real -> bool) {
    forall x: real, y: real :: x <= y && sat(x) ==> sat(y)
  }

  // Up-scan and bisection together: either nothing up to the maximum saturates,
  // or the position found is less than 0.05 grains above the threshold.
  lemma SaturationPoint(up: real -> bool, sat: real -> bool, grain: real) returns (pos: real, answers: seq<bool>)
    requires grain > 0.0 && UpwardClosed(sat)
    requires forall x :: up(x) ==> sat(x)
    ensures !ScanUp(up, None).1 ==> pos == 1.0 && !up(1.0)
    ensures ScanUp(up, None).1 ==>
              var top := ScanUp(up, None).0;
              && 0.0 < top <= 1.0
              && FromOracle(top, grain, answers, sat) && Run(top, grain, answers).phase.Done?
              && pos == Run(top, grain, answers).right[0]
              && (forall x :: x >= pos ==> sat(x))
              && (forall x :: 0.0 < x <= pos - 0.05 * grain ==> !sat(x))
  {
    ScanUpEnds(up, None);
    var (top, hit) := ScanUp(up, None);
    if hit {
      answers := BisectSettles(top, grain, sat);
      var s := Run(top, grain, answers);
      pos := s.right[0];
      forall x | 0.0 < x <= pos - 0.05 * grain ensures !sat(x) {
        assert x <= s.left[0];
      }
    } else {
      pos, answers := top, [];
    }
  }

  // The scan visits five positions and stops at the first that saturates.
  lemma ScanUpIsFirst(up: real -> bool)
    ensures var (top, hit) := ScanUp(up, None);
            && top in [0.2, 0.4, 0.6, 0.8, 1.0]
            && (hit <==> up(0.2) || up(0.4) || up(0.6) || up(0.8) || up(1.0))
            && (hit ==> up(top))
            && (!hit ==> top == 1.0)
            && (forall x :: x in [0.2, 0.4, 0.6, 0.8, 1.0] && x < top ==> !up(x))
  {
    assert NextUpPos(None) == Some(0.2) && NextUpPos(Some(0.2)) == Some(0.4) && NextUpPos(Some(0.4)) == Some(0.6);
    assert NextUpPos(Some(0.6)) == Some(0.8) && NextUpPos(Some(0.8)) == Some(1.0) && NextUpPos(Some(1.0)) == None;
    ScanUpOnce(up, None);
    ScanUpOnce(up, Some(0.2));
    ScanUpOnce(up, Some(0.4));
    ScanUpOnce(up, Some(0.6));
    ScanUpOnce(up, Some(0.8));
    ScanUpOnce(up, Some(1.0));
  }

  lemma ScanUpOnce(up: real -> bool, pos: Option<real>)
    requires pos.Some? ==> 0.0 <= pos.value
    ensures NextUpPos(pos).None? ==> pos.Some? && ScanUp(up, pos) == (pos.value, false)
    ensures NextUpPos(pos).Some? ==>
              var v := NextUpPos(pos).value;
              v >= 0.0 && ScanUp(up, pos) == if up(v) then (v, true) else ScanUp(up, Some(v))
  {
  }

  lemma {:induction false} ScanUpEnds(up: real -> bool, pos: Option<real>)
    requires pos.Some? ==> 0.0 <= pos.value <= 1.0 && !up(pos.value)
    ensures var (top, hit) := ScanUp(up, pos);
            && 0.0 < top <= 1.0 && (hit ==> up(top)) && (!hit ==> top >= 0.99 && !up(top))
    decreases ScanRank(pos)
  {
    match NextUpPos(pos)
    case None =>
    case Some(v) =>
      if !up(v) {
        ScanUpEnds(up, Some(v));
      }
  }

  // ---- Refine walk -----------------------------------------------------------

  // closure next_refine_pos; `memFrac` is params.mem_frac, which set_pos
  // overwrites with every position visited.
  function NextRefinePos(memFrac: real, grain: real, pos: Option<real>): Option<real> {
    var step := memFrac * 0.025 * grain;
    var min := if memFrac / 2.0 > 0.001 then memFrac / 2.0 else 0.001;
    match pos
    case None => Some(memFrac)
    case Some(v) => if v >= min + step then Some(v - step) else None
  }

  // A step would go below half of the position or below 0.001.
  predicate StepTooFar(pos: real, step: real) {
    pos - step < pos / 2.0 || pos - step < 0.001
  }

  // The next step down is a fortieth of the position times the grain.
  predicate NoStepLeft(pos: real, grain: real) {
    StepTooFar(pos, pos * 0.025 * grain)
  }

  lemma StepOutcome(pos: real, grain: real)
    ensures var step := pos * 0.025 * grain;
            && NextRefinePos(pos, grain, Some(pos)) == (if StepTooFar(pos, step) then None else Some(pos - step))
            && NextRefinePos(pos, grain, None) == Some(pos)
  {
    StepFits(pos, pos * 0.025 * grain);
  }

  lemma StepFits(pos: real, step: real)
    ensures StepTooFar(pos, step) <==> pos < (if pos / 2.0 > 0.001 then pos / 2.0 else 0.001) + step
  {
  }

  // The walk stops exactly where no step is left.
  lemma WalkStops(pos: real, grain: real)
    ensures NextRefinePos(pos, grain, Some(pos)).None? <==> NoStepLeft(pos, grain)
    ensures NextRefinePos(pos, grain, None) == Some(pos)
  {
    hide NextRefinePos, StepTooFar;
    StepOutcome(pos, grain);
  }

  // A round goes strictly down, by a fixed factor, to no less than half of where
  // it was and no less than 0.001.
  predicate RefineStep(prev: real, next: real, grain: real) {
    && next < prev
    && next >= prev / 2.0
    && next >= 0.001
    && next == prev * (1.0 - 0.025 * grain)
  }

  // Walks down from the bisected position until `goodEnough` accepts a round;
  // rounds are numbered from zero.
  method Refine(memFrac0: real, grain: real, goodEnough: nat -> bool) returns (pos: real, visited: seq<real>)
    requires grain > 0.0 && memFrac0 >= 0.0
    ensures visited != [] && visited[0] == memFrac0 && pos == visited[|visited| - 1]
    ensures forall i :: 0 < i < |visited| ==> RefineStep(visited[i - 1], visited[i], grain)
    ensures forall i :: 0 <= i < |visited| - 1 ==> !goodEnough(i)
    ensures goodEnough(|visited| - 1) || NoStepLeft(pos, grain)
  {
    hide RefineStep, RefineRoom, NextRefinePos, NoStepLeft;
    var memFrac := memFrac0;
    var nextPos := None;
    pos, visited := 0.0, [];
    while true
      invariant nextPos.None? <==> visited == []
      invariant visited == [] ==> memFrac == memFrac0
      invariant visited != [] ==>
                  nextPos == Some(pos) && memFrac == pos && pos == visited[|visited| - 1] && visited[0] == memFrac0
                  && !goodEnough(|visited| - 1)
      invariant memFrac >= 0.0
      invariant forall i :: 0 < i < |visited| ==> RefineStep(visited[i - 1], visited[i], grain)
      invariant forall i :: 0 <= i < |visited| - 1 ==> !goodEnough(i)
      decreases visited == [], RefineRoom(memFrac, grain)
    {
      WalkStops(memFrac, grain);
      nextPos := NextRefinePos(memFrac, grain, nextPos);
      if nextPos.None? {
        break;
      }
      if visited != [] {
        RefineDescends(memFrac, grain);
        RefineStaysPositive(memFrac, nextPos.value, grain);
      }
      pos := nextPos.value;
      visited := visited + [pos];
      memFrac := pos;
      if goodEnough(|visited| - 1) {
        break;
      }
    }
  }

  // Number of smallest possible steps that fit below a position.
  function RefineRoom(pos: real, grain: real): int
    requires grain > 0.0
  {
    (pos / (0.001 * 0.025 * grain)).Floor
  }

  lemma RefineDescends(pos: real, grain: real)
    requires grain > 0.0 && NextRefinePos(pos, grain, Some(pos)).Some?
    requires pos >= 0.0
    ensures var next := NextRefinePos(pos, grain, Some(pos)).value;
            && RefineStep(pos, next, grain)
            && 0 <= RefineRoom(next, grain) < RefineRoom(pos, grain)
  {
    var unit := 0.001 * 0.025 * grain;
    var next := NextRefinePos(pos, grain, Some(pos)).value;
    assert pos * 0.025 * grain > 0.0;
    assert pos >= 0.001;
    assert pos * (0.025 * grain) >= 0.001 * (0.025 * grain);
    assert next <= pos - unit;
    StepsCount(next, pos, unit);
  }

  lemma RefineStaysPositive(prev: real, next: real, grain: real)
    requires RefineStep(prev, next, grain)
    ensures next > 0.0
  {
  }

  lemma StepsCount(next: real, pos: real, unit: real)
    requires unit > 0.0 && 0.0 <= next <= pos - unit
    ensures 0 <= (next / unit).Floor < (pos / unit).Floor
  {
    DivisionScales(next, unit);
    DivisionScales(pos, unit);
    ProductsOrder(next / unit, pos / unit - 1.0, unit);
    ProductsOrder(0.0, next / unit, unit);
  }

  lemma DivisionScales(x: real, unit: real)
    requires unit > 0.0
    ensures x / unit * unit == x && (x / unit - 1.0) * unit == x - unit
  {
  }

  lemma ProductsOrder(a: real, b: real, unit: real)
    requires unit > 0.0 && a * unit <= b * unit
    ensures a <= b
  {
    assert (a - b) * unit <= 0.0;
  }
}
