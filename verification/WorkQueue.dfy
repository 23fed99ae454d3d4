// The books of the worker pool (rd-hashd/src/workqueue.rs, WorkQueue): a map of
// live workers and a deque of idle ones, front first.
//
// A worker's id is the address of its handle, so an id may be handed out again
// once its worker is gone.  The clock is an input.
module WorkQueues {
  type Id = nat
  type Time = nat

  // Live workers with the time they were last active, and the idle deque.
  datatype Books = Books(workers: map<Id, Time>, idle: seq<Id>)

  ghost predicate NoDup<T>(s: seq<T>) {
    forall i, j :: 0 <= i < j < |s| ==> s[i] != s[j]
  }

  // ---- What one call does to the books --------------------------------------

  function Drained(b: Books, id: Id, now: Time): Books {
    Books(b.workers[id := now], [id] + b.idle)
  }

  function DrainAll(b: Books, acks: seq<Id>, now: Time): Books {
    if acks == [] then b
    else Drained(DrainAll(b, acks[..|acks| - 1], now), acks[|acks| - 1], now)
  }

  function Elapsed(since: Time, now: Time): nat {
    if since <= now then now - since else 0
  }

  predicate BackIsStale(b: Books, now: Time, timeout: nat) {
    && b.idle != []
    && b.idle[|b.idle| - 1] in b.workers
    && Elapsed(b.workers[b.idle[|b.idle| - 1]], now) >= timeout
  }

  function ReapBack(b: Books): Books
    requires b.idle != []
  {
    Books(b.workers - {b.idle[|b.idle| - 1]}, b.idle[..|b.idle| - 1])
  }

  function Reaped(b: Books, now: Time, timeout: nat): Books
    decreases |b.idle|
  {
    if BackIsStale(b, now, timeout) then Reaped(ReapBack(b), now, timeout) else b
  }

  ghost predicate Consistent(b: Books) {
    NoDup(b.idle) && forall id :: id in b.idle ==> id in b.workers
  }

  // Acks name live workers that are not idle, each at most once.
  ghost predicate AcksFit(b: Books, acks: seq<Id>) {
    NoDup(acks) && forall id :: id in acks ==> id in b.workers && id !in b.idle
  }

  // get_next_worker: the front of the deque, or a new worker.
  function NextWorker(b: Books, newId: Id, now: Time): (Books, Id) {
    if b.idle != [] then (Books(b.workers, b.idle[1..]), b.idle[0])
    else (Books(b.workers[newId := now], []), newId)
  }

  class WorkQueue {
    const idleTimeout: nat
    var workers: map<Id, Time>
    var idleWorkers: seq<Id>

    ghost function View(): Books
      reads this
    {
      Books(workers, idleWorkers)
    }

    constructor (idleTimeout: nat)
      ensures View() == Books(map[], []) && this.idleTimeout == idleTimeout
    {
      this.idleTimeout := idleTimeout;
      workers, idleWorkers := map[], [];
    }

    // `acks` is what the ack channel delivers until it runs empty.
    method DrainAcks(acks: seq<Id>, now: Time)
      requires Consistent(View()) && AcksFit(View(), acks)
      modifies this
      ensures View() == DrainAll(old(View()), acks, now)
      ensures Consistent(View()) && workers.Keys == old(workers.Keys)
    {
      for i := 0 to |acks|
        invariant View() == DrainAll(old(View()), acks[..i], now)
        invariant Consistent(View()) && workers.Keys == old(workers.Keys)
        invariant forall id :: id in idleWorkers ==> id in old(idleWorkers) || id in acks[..i]
      {
        assert acks[..i + 1][..i] == acks[..i];
        assert acks[i] in acks && acks[i] !in acks[..i];
        workers := workers[acks[i] := now];
        idleWorkers := [acks[i]] + idleWorkers;
      }
      assert acks[..|acks|] == acks;
    }

    // Destroys workers off the back until one is fresh; `joined` lists the
    // threads waited for.
    method ReapIdle(now: Time) returns (joined: seq<Id>)
      requires Consistent(View())
      modifies this
      ensures View() == Reaped(old(View()), now, idleTimeout)
      ensures Consistent(View())
      ensures NoDup(joined) && forall id :: id in joined <==> id in old(workers) && id !in workers
    {
      joined := [];
      while |idleWorkers| > 0
        invariant Reaped(View(), now, idleTimeout) == Reaped(old(View()), now, idleTimeout)
        invariant Consistent(View()) && NoDup(joined) && workers.Keys <= old(workers.Keys)
        invariant forall id :: id in joined <==> id in old(workers) && id !in workers
        decreases |idleWorkers|
      {
        var id := idleWorkers[|idleWorkers| - 1];
        if Elapsed(workers[id], now) < idleTimeout {
          break;
        }
        ghost var before := View();
        idleWorkers := idleWorkers[..|idleWorkers| - 1];
        workers := workers - {id};
        joined := joined + [id];
        assert View() == ReapBack(before);
        assert before.idle == idleWorkers + [id];
      }
    }

    method KeepBooks(acks: seq<Id>, now: Time) returns (joined: seq<Id>)
      requires Consistent(View()) && AcksFit(View(), acks)
      modifies this
      ensures View() == Reaped(DrainAll(old(View()), acks, now), now, idleTimeout)
      ensures Consistent(View())
      ensures NoDup(joined) && forall id :: id in joined <==> id in old(workers) && id !in workers
    {
      DrainAcks(acks, now);
      joined := ReapIdle(now);
    }

    // `newId` is the address a newly allocated handle gets.
    method GetNextWorker(newId: Id, now: Time) returns (id: Id)
      requires Consistent(View())
      requires newId !in workers
      modifies this
      ensures old(idleWorkers) != [] ==>
                id == old(idleWorkers)[0] && View() == Books(old(workers), old(idleWorkers)[1..])
      ensures old(idleWorkers) == [] ==>
                id == newId && View() == Books(old(workers)[newId := now], [])
      ensures (View(), id) == NextWorker(old(View()), newId, now)
      ensures Consistent(View()) && id in workers && id !in idleWorkers
    {
      if |idleWorkers| > 0 {
        id := idleWorkers[0];
        assert idleWorkers == [id] + idleWorkers[1..];
        idleWorkers := idleWorkers[1..];
        return;
      }
      id := newId;
      workers := workers[id := now];
    }
  }

  // ---- Reaping is exact ------------------------------------------------------

  // Most recently active workers are at the front.
  ghost predicate OrderedByActivity(b: Books)
    requires Consistent(b)
  {
    forall i, j :: 0 <= i < j < |b.idle| ==> b.workers[b.idle[j]] <= b.workers[b.idle[i]]
  }

  predicate IsStale(b: Books, id: Id, now: Time, timeout: nat)
    requires id in b.workers
  {
    Elapsed(b.workers[id], now) >= timeout
  }

  // One drained worker goes to the front of the deque.
  lemma DrainOrder(b: Books, id: Id, now: Time)
    requires Consistent(b) && OrderedByActivity(b) && id in b.workers && id !in b.idle
    requires forall w :: w in b.workers ==> b.workers[w] <= now
    ensures Consistent(Drained(b, id, now)) && OrderedByActivity(Drained(b, id, now))
    ensures Drained(b, id, now).workers.Keys == b.workers.Keys
    ensures forall w :: w in b.workers ==> Drained(b, id, now).workers[w] <= now
    ensures forall w :: w in Drained(b, id, now).idle <==> w in b.idle || w == id
  {
  }

  lemma {:induction false} DrainKeepsOrder(b: Books, acks: seq<Id>, now: Time)
    requires Consistent(b) && OrderedByActivity(b) && AcksFit(b, acks)
    requires forall id :: id in b.workers ==> b.workers[id] <= now
    ensures var d := DrainAll(b, acks, now);
            && Consistent(d) && OrderedByActivity(d)
            && d.workers.Keys == b.workers.Keys
            && (forall id :: id in d.workers ==> d.workers[id] <= now)
            && (forall id :: id in d.idle <==> id in b.idle || id in acks)
  {
    hide OrderedByActivity, Drained;
    if acks != [] {
      var n := |acks| - 1;
      assert acks == acks[..n] + [acks[n]];
      assert forall id :: id in acks <==> id in acks[..n] || id == acks[n];
      assert acks[n] !in acks[..n];
      DrainKeepsOrder(b, acks[..n], now);
      DrainOrder(DrainAll(b, acks[..n], now), acks[n], now);
    }
  }

  // `r` is `m` without the workers in `gone`.
  ghost predicate Without(m: map<Id, Time>, gone: seq<Id>, r: map<Id, Time>) {
    && (forall id :: id in r <==> id in m && id !in gone)
    && (forall id :: id in r ==> r[id] == m[id])
  }

  ghost predicate CutsOff(b: Books, r: Books, k: nat) {
    k <= |b.idle| && r.idle == b.idle[..k] && Without(b.workers, b.idle[k..], r.workers)
  }

  ghost predicate StaleFrom(b: Books, k: nat, now: Time, timeout: nat)
    requires Consistent(b)
  {
    && k <= |b.idle|
    && (forall i :: k <= i < |b.idle| ==> IsStale(b, b.idle[i], now, timeout))
    && (k > 0 ==> !IsStale(b, b.idle[k - 1], now, timeout))
  }

  // Reaping takes stale workers off the back of the deque and stops at one that
  // is not stale.
  lemma {:induction false} ReapTakesSuffix(b: Books, now: Time, timeout: nat) returns (k: nat)
    requires Consistent(b)
    ensures CutsOff(b, Reaped(b, now, timeout), k)
    ensures StaleFrom(b, k, now, timeout)
    decreases |b.idle|
  {
    hide CutsOff, StaleFrom;
    if BackIsStale(b, now, timeout) {
      OneReap(b);
      k := ReapTakesSuffix(ReapBack(b), now, timeout);
      OneMoreCut(b, Reaped(b, now, timeout), k);
      OneMoreStale(b, k, now, timeout);
    } else {
      k := |b.idle|;
      NothingCut(b);
      NothingStale(b, now, timeout);
    }
  }

  lemma OneReap(b: Books)
    requires Consistent(b) && b.idle != []
    ensures Consistent(ReapBack(b))
  {
  }

  lemma NothingCut(b: Books)
    ensures CutsOff(b, b, |b.idle|)
  {
    assert b.idle[|b.idle|..] == [] && b.idle[..|b.idle|] == b.idle;
  }

  lemma NothingStale(b: Books, now: Time, timeout: nat)
    requires Consistent(b) && !BackIsStale(b, now, timeout)
    ensures StaleFrom(b, |b.idle|, now, timeout)
  {
  }

  lemma OneMoreCut(b: Books, r: Books, k: nat)
    requires b.idle != [] && CutsOff(ReapBack(b), r, k)
    ensures CutsOff(b, r, k)
  {
    hide Without;
    var s, x := b.idle[..|b.idle| - 1], b.idle[|b.idle| - 1];
    assert b.idle == s + [x];
    SuffixSnoc(s, x, k);
    DropSuffix(b.workers, s[k..], x, r.workers);
  }

  lemma OneMoreStale(b: Books, k: nat, now: Time, timeout: nat)
    requires Consistent(b) && BackIsStale(b, now, timeout) && Consistent(ReapBack(b))
    requires StaleFrom(ReapBack(b), k, now, timeout)
    ensures StaleFrom(b, k, now, timeout)
  {
    hide IsStale;
    StaleSame(b, ReapBack(b), now, timeout);
    BackStale(b, now, timeout);
  }

  lemma BackStale(b: Books, now: Time, timeout: nat)
    requires Consistent(b) && BackIsStale(b, now, timeout)
    ensures IsStale(b, b.idle[|b.idle| - 1], now, timeout)
  {
  }

  lemma StaleSame(b: Books, c: Books, now: Time, timeout: nat)
    requires Consistent(b) && Consistent(c) && b.idle != [] && c == ReapBack(b)
    ensures forall i :: 0 <= i < |c.idle| ==> (IsStale(c, c.idle[i], now, timeout) <==> IsStale(b, b.idle[i], now, timeout))
  {
    forall i | 0 <= i < |c.idle|
      ensures IsStale(c, c.idle[i], now, timeout) <==> IsStale(b, b.idle[i], now, timeout)
    {
      assert c.idle[i] in c.idle && c.idle[i] == b.idle[i];
    }
  }

  lemma DropSuffix(m: map<Id, Time>, s: seq<Id>, x: Id, r: map<Id, Time>)
    requires Without(m - {x}, s, r)
    ensures Without(m, s + [x], r)
  {
  }

  lemma SuffixSnoc(s: seq<Id>, x: Id, k: nat)
    requires k <= |s|
    ensures (s + [x])[k..] == s[k..] + [x]
    ensures (s + [x])[..k] == s[..k]
  {
  }

  lemma FresherStaysFresh(b: Books, back: Id, front: Id, now: Time, timeout: nat)
    requires back in b.workers && front in b.workers && b.workers[back] <= b.workers[front]
    requires !IsStale(b, back, now, timeout)
    ensures !IsStale(b, front, now, timeout)
  {
  }

  lemma ReapSplits(b: Books, now: Time, timeout: nat)
    requires Consistent(b) && OrderedByActivity(b)
    ensures var r := Reaped(b, now, timeout);
            && (forall id :: id in r.idle <==> id in b.idle && !IsStale(b, id, now, timeout))
            && (forall id :: id in r.workers <==>
                  id in b.workers && !(id in b.idle && IsStale(b, id, now, timeout)))
            && (forall id :: id in r.workers ==> r.workers[id] == b.workers[id])
  {
    var k := ReapTakesSuffix(b, now, timeout);
    hide Reaped;
    FrontIsFresh(b, now, timeout, k);
    hide IsStale, OrderedByActivity, Consistent;
    forall id | id in b.idle
      ensures id in b.idle[..k] <==> !IsStale(b, id, now, timeout)
      ensures id in b.idle[k..] <==> IsStale(b, id, now, timeout)
    {
      SideOf(b, id, now, timeout, k);
    }
    assert forall id :: id in b.idle[..k] || id in b.idle[k..] ==> id in b.idle;
  }

  // The loop that stops at the first fresh worker removes all and only the idle
  // workers past the timeout, from both collections.
  lemma ReapIsExact(b: Books, now: Time, timeout: nat)
    requires Consistent(b) && OrderedByActivity(b)
    ensures var r := Reaped(b, now, timeout);
            && (forall id :: id in r.idle <==> id in b.idle && !(timeout == 0 || b.workers[id] + timeout <= now))
            && (forall id :: id in r.workers <==>
                  id in b.workers && !(id in b.idle && (timeout == 0 || b.workers[id] + timeout <= now)))
            && (forall id :: id in r.workers ==> r.workers[id] == b.workers[id])
  {
    hide Reaped, IsStale, OrderedByActivity;
    ReapSplits(b, now, timeout);
    forall id | id in b.idle
      ensures IsStale(b, id, now, timeout) <==> timeout == 0 || b.workers[id] + timeout <= now
    {
      StaleMeans(b, id, now, timeout);
    }
  }

  lemma StaleMeans(b: Books, id: Id, now: Time, timeout: nat)
    requires id in b.workers
    ensures IsStale(b, id, now, timeout) <==> timeout == 0 || b.workers[id] + timeout <= now
  {
  }

  lemma FrontIsFresh(b: Books, now: Time, timeout: nat, k: nat)
    requires Consistent(b) && OrderedByActivity(b) && k <= |b.idle|
    requires k > 0 ==> !IsStale(b, b.idle[k - 1], now, timeout)
    ensures forall i :: 0 <= i < k ==> !IsStale(b, b.idle[i], now, timeout)
  {
    forall i | 0 <= i < k ensures !IsStale(b, b.idle[i], now, timeout) {
      if i < k - 1 {
        FresherStaysFresh(b, b.idle[k - 1], b.idle[i], now, timeout);
      }
    }
  }

  lemma SideOf(b: Books, id: Id, now: Time, timeout: nat, k: nat)
    requires Consistent(b) && k <= |b.idle| && id in b.idle
    requires forall i :: 0 <= i < k ==> !IsStale(b, b.idle[i], now, timeout)
    requires forall i :: k <= i < |b.idle| ==> IsStale(b, b.idle[i], now, timeout)
    ensures id in b.idle[..k] <==> !IsStale(b, id, now, timeout)
    ensures id in b.idle[k..] <==> IsStale(b, id, now, timeout)
  {
    hide IsStale;
    var i :| 0 <= i < |b.idle| && b.idle[i] == id;
    if i < k {
      assert b.idle[..k][i] == id;
      assert forall j :: 0 <= j < |b.idle[k..]| ==> b.idle[k..][j] == b.idle[k + j];
    } else {
      assert b.idle[k..][i - k] == id;
      assert forall j :: 0 <= j < k ==> b.idle[..k][j] == b.idle[j];
    }
  }

  lemma ReapKeepsOrder(b: Books, now: Time, timeout: nat)
    requires Consistent(b) && OrderedByActivity(b)
    ensures var r := Reaped(b, now, timeout);
            Consistent(r) && OrderedByActivity(r)
  {
    var k := ReapTakesSuffix(b, now, timeout);
    var r := Reaped(b, now, timeout);
    forall i | 0 <= i < k ensures r.idle[i] == b.idle[i] && r.idle[i] !in b.idle[k..] {
    }
  }

  // The worker picked is the one that became idle last; the others stay idle.
  lemma MostRecentIsReused(b: Books, newId: Id, now: Time)
    requires Consistent(b) && OrderedByActivity(b) && b.idle != []
    ensures var (r, w) := NextWorker(b, newId, now);
            && w in b.idle && r.workers == b.workers
            && (forall id :: id in b.idle ==> b.workers[id] <= b.workers[w])
            && (forall id :: id in r.idle <==> id in b.idle && id != w)
  {
    assert b.idle == [b.idle[0]] + b.idle[1..];
  }

  lemma SpawnKeepsOrder(b: Books, id: Id, now: Time)
    requires Consistent(b) && OrderedByActivity(b) && id !in b.workers
    ensures Consistent(Books(b.workers[id := now], b.idle)) && OrderedByActivity(Books(b.workers[id := now], b.idle))
  {
  }

  lemma ReuseKeepsOrder(b: Books)
    requires Consistent(b) && OrderedByActivity(b) && b.idle != []
    ensures var r := Books(b.workers, b.idle[1..]);
            Consistent(r) && OrderedByActivity(r) && b.idle[0] !in r.idle
  {
    assert b.idle == [b.idle[0]] + b.idle[1..];
  }
}
