// The worker pool as a protocol: one dispatcher and any number of worker
// threads joined by channels, over every interleaving of their steps
// (rd-hashd/src/workqueue.rs, Worker::run and WorkQueue::{keep_books,
// get_next_worker, queue}).
//
// Work items carry ticket numbers in submission order.  No item panics, so the
// error channel stays empty.
module WorkPool {
  import opened Wrappers
  import opened WorkQueues

  type Ticket = nat

  // Where a thread is in the loop of Worker::run.
  datatype Phase = Waiting | Executing(ticket: Ticket) | Acking(ticket: Ticket)

  // `inbox` is the worker's work channel.
  datatype Thread = Thread(inbox: seq<Ticket>, phase: Phase)

  datatype Ack = Ack(id: Id, ticket: Ticket)

  // Where the dispatcher is in keep_books and queue.
  datatype Pc =
    | Ready
    | Draining(now: Time, submit: bool)
    | Reaping(now: Time, submit: bool)
    | Picking
    | Sending(id: Id, ticket: Ticket)

  datatype Pool = Pool(
    books: Books,
    threads: map<Id, Thread>,
    acks: seq<Ack>,
    pc: Pc,
    clock: Time,
    submitted: nat,
    executed: seq<Ticket>,
    drained: set<Ticket>)

  datatype Step =
    // the dispatcher
    | CallBooks(now: Time, submit: bool)
    | DrainOne
    | AcksEmpty
    | ReapOne
    | ReapDone
    | PickIdle
    | Spawn(id: Id, now: Time)
    | Send
    // a worker thread
    | Receive(id: Id)
    | Finish(id: Id)
    | SendAck(id: Id)

  const INIT: Pool := Pool(Books(map[], []), map[], [], Ready, 0, 0, [], {})

  ghost predicate Enabled(p: Pool, s: Step, timeout: nat) {
    match s
    case CallBooks(now, _) => p.pc.Ready? && p.clock <= now
    case DrainOne => p.pc.Draining? && p.acks != [] && p.acks[0].id in p.books.workers
    case AcksEmpty => p.pc.Draining? && p.acks == []
    case ReapOne => p.pc.Reaping? && BackIsStale(p.books, p.pc.now, timeout)
    case ReapDone => p.pc.Reaping? && !BackIsStale(p.books, p.pc.now, timeout)
    case PickIdle => p.pc.Picking? && p.books.idle != []
    // the address of a new handle differs from those of live ones, no more
    case Spawn(id, now) => p.pc.Picking? && p.books.idle == [] && id !in p.books.workers && p.clock <= now
    case Send => p.pc.Sending? && p.pc.id in p.threads
    case Receive(id) => id in p.threads && p.threads[id].phase.Waiting? && p.threads[id].inbox != []
    case Finish(id) => id in p.threads && p.threads[id].phase.Executing?
    case SendAck(id) => id in p.threads && p.threads[id].phase.Acking?
  }

  ghost function Next(p: Pool, s: Step, timeout: nat): Pool
    requires Enabled(p, s, timeout)
  {
    match s
    case CallBooks(now, submit) => p.(pc := Draining(now, submit), clock := now)
    case DrainOne =>
      var a := p.acks[0];
      p.(books := Drained(p.books, a.id, p.pc.now), acks := p.acks[1..], drained := p.drained + {a.ticket})
    case AcksEmpty => p.(pc := Reaping(p.pc.now, p.pc.submit))
    case ReapOne =>
      // dropping the handle closes the work channel; the idle thread exits
      p.(books := ReapBack(p.books), threads := p.threads - {p.books.idle[|p.books.idle| - 1]})
    case ReapDone => p.(pc := if p.pc.submit then Picking else Ready)
    case PickIdle =>
      p.(books := Books(p.books.workers, p.books.idle[1..]),
         pc := Sending(p.books.idle[0], p.submitted), submitted := p.submitted + 1)
    case Spawn(id, now) =>
      p.(books := Books(p.books.workers[id := now], []), threads := p.threads[id := Thread([], Waiting)],
         pc := Sending(id, p.submitted), clock := now, submitted := p.submitted + 1)
    case Send =>
      var t := p.threads[p.pc.id];
      p.(threads := p.threads[p.pc.id := t.(inbox := t.inbox + [p.pc.ticket])], pc := Ready)
    case Receive(id) =>
      var t := p.threads[id];
      p.(threads := p.threads[id := Thread(t.inbox[1..], Executing(t.inbox[0]))])
    case Finish(id) =>
      var t := p.threads[id];
      p.(threads := p.threads[id := t.(phase := Acking(t.phase.ticket))], executed := p.executed + [t.phase.ticket])
    case SendAck(id) =>
      var t := p.threads[id];
      p.(threads := p.threads[id := t.(phase := Waiting)], acks := p.acks + [Ack(id, t.phase.ticket)])
  }

  ghost predicate Reaches(steps: seq<Step>, p: Pool, timeout: nat) {
    if steps == [] then p == INIT
    else
      var n := |steps| - 1;
      exists q :: Reaches(steps[..n], q, timeout) && Enabled(q, steps[n], timeout) && p == Next(q, steps[n], timeout)
  }

  // ---- What a worker owes ----------------------------------------------------

  function AckTickets(acks: seq<Ack>, id: Id): seq<Ticket> {
    if acks == [] then []
    else (if acks[0].id == id then [acks[0].ticket] else []) + AckTickets(acks[1..], id)
  }

  function PhaseTickets(phase: Phase): seq<Ticket> {
    match phase
    case Waiting => []
    case Executing(t) => [t]
    case Acking(t) => [t]
  }

  function PendingTickets(pc: Pc, id: Id): seq<Ticket> {
    if pc.Sending? && pc.id == id then [pc.ticket] else []
  }

  // Items handed to a worker whose ack is not drained yet, oldest first: items
  // flow from the dispatcher through the inbox and the thread to the ack channel.
  function Outstanding(p: Pool, id: Id): seq<Ticket>
    requires id in p.threads
  {
    AckTickets(p.acks, id) + (PhaseTickets(p.threads[id].phase) + (p.threads[id].inbox + PendingTickets(p.pc, id)))
  }

  // Every worker has exactly one outstanding item, unless it is idle and has none.
  ghost predicate OneItemEach(p: Pool) {
    && p.threads.Keys == p.books.workers.Keys
    && Consistent(p.books)
    && (forall id :: id in p.threads ==> |Outstanding(p, id)| == if id in p.books.idle then 0 else 1)
    && (forall i :: 0 <= i < |p.acks| ==> p.acks[i].id in p.threads)
    && (p.pc.Sending? ==> p.pc.id in p.threads)
  }

  ghost predicate Holds(p: Pool, id: Id, t: Ticket) {
    id in p.threads && t in Outstanding(p, id)
  }

  // Undrained items are each held by exactly one worker.
  ghost predicate EachItemHeldOnce(p: Pool) {
    && (forall t: Ticket :: t in p.drained ==> t < p.submitted)
    && (forall id: Id, t: Ticket :: Holds(p, id, t) ==> t < p.submitted && t !in p.drained)
    && (forall t: Ticket :: t < p.submitted && t !in p.drained ==> exists id: Id :: Holds(p, id, t))
    && (forall id: Id, other: Id, t: Ticket :: Holds(p, id, t) && Holds(p, other, t) ==> id == other)
  }

  ghost predicate Finished(p: Pool, id: Id, t: Ticket) {
    id in p.threads && (t in AckTickets(p.acks, id) || p.threads[id].phase == Acking(t))
  }

  // Executed items are those drained or on their way to be.
  ghost predicate ExecutedOnce(p: Pool) {
    && NoDup(p.executed)
    && (forall t: Ticket :: t in p.drained ==> t in p.executed)
    && (forall id: Id, t: Ticket :: Finished(p, id, t) ==> t in p.executed)
    && (forall t: Ticket :: t in p.executed ==> t in p.drained || exists id: Id :: Finished(p, id, t))
  }

  ghost predicate Counted(p: Pool) {
    |p.books.workers| - |p.books.idle| == p.submitted - |p.drained|
  }

  ghost predicate Timely(p: Pool) {
    && Consistent(p.books) && OrderedByActivity(p.books)
    && (forall id :: id in p.books.workers ==> p.books.workers[id] <= p.clock)
    && ((p.pc.Draining? || p.pc.Reaping?) ==> p.pc.now == p.clock)
  }

  // ---- Lemmas about the flow of items ---------------------------------------

  lemma {:induction false} AckTicketsSnoc(acks: seq<Ack>, a: Ack, id: Id)
    ensures AckTickets(acks + [a], id) == AckTickets(acks, id) + (if a.id == id then [a.ticket] else [])
  {
    var last := if a.id == id then [a.ticket] else [];
    if acks == [] {
      assert acks + [a] == [a] && [a][1..] == [];
      assert last + [] == last && [] + last == last;
    } else {
      var first := if acks[0].id == id then [acks[0].ticket] else [];
      assert (acks + [a])[0] == acks[0] && (acks + [a])[1..] == acks[1..] + [a];
      AckTicketsSnoc(acks[1..], a, id);
      assert first + (AckTickets(acks[1..], id) + last) == (first + AckTickets(acks[1..], id)) + last;
    }
  }

  lemma {:induction false} NoAcksOf(acks: seq<Ack>, id: Id)
    requires forall i :: 0 <= i < |acks| ==> acks[i].id != id
    ensures AckTickets(acks, id) == []
  {
    if acks != [] {
      NoAcksOf(acks[1..], id);
    }
  }

  // Sending, receiving, finishing and acking only move an item along.
  ghost predicate MovesItem(s: Step) {
    s.Send? || s.Receive? || s.Finish? || s.SendAck?
  }

  lemma MoveKeepsOutstanding(p: Pool, s: Step, timeout: nat, id: Id)
    requires MovesItem(s) && Enabled(p, s, timeout) && id in p.threads
    ensures Next(p, s, timeout).threads.Keys == p.threads.Keys
    ensures Outstanding(Next(p, s, timeout), id) == Outstanding(p, id)
  {
    var q := Next(p, s, timeout);
    var a, f, i, d := AckTickets(p.acks, id), PhaseTickets(p.threads[id].phase), p.threads[id].inbox, PendingTickets(p.pc, id);
    match s
    case Send =>
      assert id == p.pc.id ==> i + d == (i + [p.pc.ticket]) + [];
    case Receive(w) =>
      assert id == w ==> [] + (i + d) == [i[0]] + (i[1..] + d);
    case Finish(w) =>
    case SendAck(w) =>
      AckTicketsSnoc(p.acks, Ack(w, p.threads[w].phase.ticket), id);
      assert id == w ==> a + (f + (i + d)) == (a + f) + ([] + (i + d));
  }

  lemma DrainTakesOldest(p: Pool, timeout: nat, id: Id)
    requires Enabled(p, DrainOne, timeout) && id in p.threads
    ensures var q := Next(p, DrainOne, timeout);
            && q.threads == p.threads
            && Outstanding(p, id) == (if id == p.acks[0].id then [p.acks[0].ticket] else []) + Outstanding(q, id)
  {
  }

  lemma OneItemDrain(p: Pool, timeout: nat)
    requires OneItemEach(p) && Enabled(p, DrainOne, timeout)
    ensures OneItemEach(Next(p, DrainOne, timeout))
  {
    hide Outstanding, AckTickets;
    var q := Next(p, DrainOne, timeout);
    var a := p.acks[0];
    forall id | id in q.threads
      ensures |Outstanding(q, id)| == if id in q.books.idle then 0 else 1
    {
      DrainTakesOldest(p, timeout, id);
    }
    DrainTakesOldest(p, timeout, a.id);
    assert forall i :: 0 <= i < |q.acks| ==> q.acks[i] == p.acks[i + 1];
  }

  lemma ReapedWorkerOwesNothing(p: Pool, timeout: nat)
    requires OneItemEach(p) && Enabled(p, ReapOne, timeout)
    ensures var q := Next(p, ReapOne, timeout);
            var gone := p.books.idle[|p.books.idle| - 1];
            && p.books.idle == q.books.idle + [gone]
            && gone in p.threads && q.threads == p.threads - {gone}
            && q.books.workers == p.books.workers - {gone}
            && Outstanding(p, gone) == []
            && (forall i :: 0 <= i < |p.acks| ==> p.acks[i].id != gone)
  {
    hide Outstanding;
    var gone := p.books.idle[|p.books.idle| - 1];
    assert gone in p.books.idle;
    IdleOwesNothing(p, gone);
  }

  lemma IdleOwesNothing(p: Pool, id: Id)
    requires id in p.threads && |Outstanding(p, id)| == 0
    ensures Outstanding(p, id) == []
    ensures p.threads[id] == Thread([], Waiting)
    ensures forall i :: 0 <= i < |p.acks| ==> p.acks[i].id != id
  {
    assert AckTickets(p.acks, id) == [];
    forall i | 0 <= i < |p.acks| ensures p.acks[i].id != id {
      AckNamesWorker(p.acks, i);
    }
  }

  lemma OneItemReap(p: Pool, timeout: nat)
    requires OneItemEach(p) && Enabled(p, ReapOne, timeout)
    ensures OneItemEach(Next(p, ReapOne, timeout))
    ensures forall id :: id in Next(p, ReapOne, timeout).threads ==>
              id in p.threads && Outstanding(Next(p, ReapOne, timeout), id) == Outstanding(p, id)
  {
    hide Outstanding, AckTickets;
    ReapedWorkerOwesNothing(p, timeout);
    ReapSparesOthers(p, timeout);
    var q := Next(p, ReapOne, timeout);
    forall id | id in q.threads ensures id in q.books.idle <==> id in p.books.idle {
    }
    ConsistentPrefix(p.books, q.books);
  }

  lemma ConsistentPrefix(b: Books, c: Books)
    requires Consistent(b) && b.idle != [] && c.idle == b.idle[..|b.idle| - 1]
    requires c.workers == b.workers - {b.idle[|b.idle| - 1]}
    ensures Consistent(c)
  {
  }

  lemma ReapSparesOthers(p: Pool, timeout: nat)
    requires p.threads.Keys == p.books.workers.Keys && Enabled(p, ReapOne, timeout)
    ensures forall id :: id in Next(p, ReapOne, timeout).threads ==>
              id in p.threads && Outstanding(Next(p, ReapOne, timeout), id) == Outstanding(p, id)
  {
    hide AckTickets;
  }

  lemma {:induction false} AckNamesWorker(acks: seq<Ack>, i: nat)
    requires i < |acks|
    ensures acks[i].ticket in AckTickets(acks, acks[i].id)
  {
    if i > 0 {
      AckNamesWorker(acks[1..], i - 1);
    }
  }

  lemma PickOwes(p: Pool, timeout: nat)
    requires OneItemEach(p) && Enabled(p, PickIdle, timeout)
    ensures Outstanding(Next(p, PickIdle, timeout), p.books.idle[0]) == [p.submitted]
    ensures forall id :: id in p.threads && id != p.books.idle[0] ==>
              Outstanding(Next(p, PickIdle, timeout), id) == Outstanding(p, id)
  {
    hide AckTickets;
    assert Outstanding(p, p.books.idle[0]) == [];
  }

  lemma OneItemPick(p: Pool, timeout: nat)
    requires OneItemEach(p) && Enabled(p, PickIdle, timeout)
    ensures OneItemEach(Next(p, PickIdle, timeout))
    ensures Outstanding(Next(p, PickIdle, timeout), p.books.idle[0]) == [p.submitted]
    ensures forall id :: id in p.threads && id != p.books.idle[0] ==>
              Outstanding(Next(p, PickIdle, timeout), id) == Outstanding(p, id)
  {
    hide Outstanding, AckTickets;
    PickOwes(p, timeout);
    assert p.books.idle == [p.books.idle[0]] + p.books.idle[1..];
  }

  // A reused address has no leftover acks, so its first item is its only one.
  lemma OneItemSpawn(p: Pool, w: Id, now: Time, timeout: nat)
    requires OneItemEach(p) && Enabled(p, Spawn(w, now), timeout)
    ensures OneItemEach(Next(p, Spawn(w, now), timeout))
    ensures Outstanding(Next(p, Spawn(w, now), timeout), w) == [p.submitted]
    ensures forall id :: id in p.threads ==> id != w && Outstanding(Next(p, Spawn(w, now), timeout), id) == Outstanding(p, id)
  {
    SpawnedOwesFirst(p, w, now, timeout);
    SpawnSparesOthers(p, w, now, timeout);
    SpawnKeys(p, w, now, timeout);
    hide Outstanding, AckTickets, Next, Enabled, OneItemEach;
    WithNewWorker(p, Next(p, Spawn(w, now), timeout), w);
  }

  lemma WithNewWorker(p: Pool, q: Pool, w: Id)
    requires OneItemEach(p) && p.books.idle == q.books.idle == [] && q.acks == p.acks
    requires q.threads.Keys == p.threads.Keys + {w} == q.books.workers.Keys
    requires q.pc.Sending? && q.pc.id == w && |Outstanding(q, w)| == 1
    requires forall id :: id in p.threads ==> Outstanding(q, id) == Outstanding(p, id)
    ensures OneItemEach(q)
  {
    hide Outstanding;
  }

  lemma SpawnKeys(p: Pool, w: Id, now: Time, timeout: nat)
    requires OneItemEach(p) && Enabled(p, Spawn(w, now), timeout)
    ensures var q := Next(p, Spawn(w, now), timeout);
            && w !in p.threads && q.pc == Sending(w, p.submitted)
            && q.threads.Keys == p.threads.Keys + {w} == q.books.workers.Keys
            && q.books.idle == p.books.idle == [] && q.acks == p.acks
  {
    hide Outstanding;
  }

  lemma SpawnedOwesFirst(p: Pool, w: Id, now: Time, timeout: nat)
    requires OneItemEach(p) && Enabled(p, Spawn(w, now), timeout)
    ensures Outstanding(Next(p, Spawn(w, now), timeout), w) == [p.submitted]
  {
    NoAcksOf(p.acks, w);
  }

  lemma SpawnSparesOthers(p: Pool, w: Id, now: Time, timeout: nat)
    requires OneItemEach(p) && Enabled(p, Spawn(w, now), timeout)
    ensures forall id :: id in p.threads ==> id != w && Outstanding(Next(p, Spawn(w, now), timeout), id) == Outstanding(p, id)
  {
  }

  lemma MoveShape(p: Pool, s: Step, timeout: nat)
    requires OneItemEach(p) && Enabled(p, s, timeout) && MovesItem(s)
    ensures var q := Next(p, s, timeout);
            && q.threads.Keys == p.threads.Keys && q.books == p.books
            && (forall i :: 0 <= i < |q.acks| ==> q.acks[i].id in q.threads)
            && (q.pc.Sending? ==> q.pc.id in q.threads)
  {
    hide Outstanding;
  }

  lemma OneItemMove(p: Pool, s: Step, timeout: nat)
    requires OneItemEach(p) && Enabled(p, s, timeout) && MovesItem(s)
    ensures OneItemEach(Next(p, s, timeout))
  {
    MoveShape(p, s, timeout);
    hide Outstanding, Enabled, Next;
    forall id | id in p.threads ensures Outstanding(Next(p, s, timeout), id) == Outstanding(p, id) {
      MoveKeepsOutstanding(p, s, timeout, id);
    }
  }

  lemma OneItemStep(p: Pool, s: Step, timeout: nat)
    requires OneItemEach(p) && Enabled(p, s, timeout)
    ensures OneItemEach(Next(p, s, timeout))
  {
    match s
    case DrainOne => OneItemDrain(p, timeout);
    case ReapOne => OneItemReap(p, timeout);
    case PickIdle => OneItemPick(p, timeout);
    case Spawn(id, now) => OneItemSpawn(p, id, now, timeout);
    case Send => OneItemMove(p, s, timeout);
    case Receive(_) => OneItemMove(p, s, timeout);
    case Finish(_) => OneItemMove(p, s, timeout);
    case SendAck(_) => OneItemMove(p, s, timeout);
    case CallBooks(_, _) => SameFlow(p, Next(p, s, timeout));
    case AcksEmpty => SameFlow(p, Next(p, s, timeout));
    case ReapDone => SameFlow(p, Next(p, s, timeout));
  }

  // Dispatcher steps that touch no item and no worker.
  lemma SameFlow(p: Pool, q: Pool)
    requires OneItemEach(p)
    requires q.books == p.books && q.threads == p.threads && q.acks == p.acks && !p.pc.Sending? && !q.pc.Sending?
    ensures OneItemEach(q)
    ensures forall id :: id in p.threads ==> Outstanding(q, id) == Outstanding(p, id)
  {
  }

  // ---- Who holds what after a step -------------------------------------------

  ghost predicate PicksWorker(s: Step) {
    s.PickIdle? || s.Spawn?
  }

  ghost predicate HandsOver(p: Pool, s: Step, timeout: nat, id: Id, t: Ticket)
    requires Enabled(p, s, timeout)
  {
    PicksWorker(s) && Next(p, s, timeout).pc == Sending(id, t)
  }

  ghost predicate TakesBack(p: Pool, s: Step, timeout: nat, id: Id)
    requires Enabled(p, s, timeout)
  {
    s.DrainOne? && p.acks[0].id == id
  }

  lemma HoldsAfter(p: Pool, s: Step, timeout: nat, id: Id, t: Ticket)
    requires OneItemEach(p) && Enabled(p, s, timeout)
    ensures Holds(Next(p, s, timeout), id, t) <==>
            (Holds(p, id, t) && !TakesBack(p, s, timeout, id)) || HandsOver(p, s, timeout, id, t)
  {
    hide Holds, OneItemEach;
    match s
    case DrainOne => HoldsAfterDrain(p, timeout, id, t);
    case ReapOne => HoldsAfterReap(p, timeout, id, t);
    case PickIdle => HoldsAfterPick(p, timeout, id, t);
    case Spawn(w, now) => HoldsAfterSpawn(p, w, now, timeout, id, t);
    case Send => MoveKeepsHolds(p, s, timeout, id, t);
    case Receive(_) => MoveKeepsHolds(p, s, timeout, id, t);
    case Finish(_) => MoveKeepsHolds(p, s, timeout, id, t);
    case SendAck(_) => MoveKeepsHolds(p, s, timeout, id, t);
    case CallBooks(_, _) => SameHolds(p, Next(p, s, timeout), id, t);
    case AcksEmpty => SameHolds(p, Next(p, s, timeout), id, t);
    case ReapDone => SameHolds(p, Next(p, s, timeout), id, t);
  }

  lemma SameHolds(p: Pool, q: Pool, id: Id, t: Ticket)
    requires OneItemEach(p)
    requires q.books == p.books && q.threads == p.threads && q.acks == p.acks && !p.pc.Sending? && !q.pc.Sending?
    ensures Holds(q, id, t) <==> Holds(p, id, t)
  {
    hide OneItemEach, AckTickets, PhaseTickets;
  }

  lemma HoldsAfterDrain(p: Pool, timeout: nat, id: Id, t: Ticket)
    requires OneItemEach(p) && Enabled(p, DrainOne, timeout)
    ensures Holds(Next(p, DrainOne, timeout), id, t) <==> Holds(p, id, t) && id != p.acks[0].id
  {
    DrainTakesOldest(p, timeout, p.acks[0].id);
    if id in p.threads {
      DrainTakesOldest(p, timeout, id);
    }
    hide Outstanding, AckTickets;
  }

  lemma HoldsAfterReap(p: Pool, timeout: nat, id: Id, t: Ticket)
    requires OneItemEach(p) && Enabled(p, ReapOne, timeout)
    ensures Holds(Next(p, ReapOne, timeout), id, t) <==> Holds(p, id, t)
  {
    ReapedWorkerOwesNothing(p, timeout);
    ReapSparesOthers(p, timeout);
    hide Outstanding, AckTickets;
  }

  lemma HoldsAfterPick(p: Pool, timeout: nat, id: Id, t: Ticket)
    requires OneItemEach(p) && Enabled(p, PickIdle, timeout)
    ensures Holds(Next(p, PickIdle, timeout), id, t) <==>
            Holds(p, id, t) || (id == p.books.idle[0] && t == p.submitted)
  {
    hide Outstanding, AckTickets, OneItemEach;
    OneItemPick(p, timeout);
    PickedOwedNothing(p, timeout);
  }

  lemma HoldsAfterSpawn(p: Pool, w: Id, now: Time, timeout: nat, id: Id, t: Ticket)
    requires OneItemEach(p) && Enabled(p, Spawn(w, now), timeout)
    ensures Holds(Next(p, Spawn(w, now), timeout), id, t) <==> Holds(p, id, t) || (id == w && t == p.submitted)
  {
    hide Outstanding, AckTickets, OneItemEach;
    OneItemSpawn(p, w, now, timeout);
  }

  lemma MoveKeepsHolds(p: Pool, s: Step, timeout: nat, id: Id, t: Ticket)
    requires OneItemEach(p) && Enabled(p, s, timeout) && MovesItem(s)
    ensures Holds(Next(p, s, timeout), id, t) <==> Holds(p, id, t)
  {
    MoveShape(p, s, timeout);
    if id in p.threads {
      MoveKeepsOutstanding(p, s, timeout, id);
    }
  }

  lemma PickedOwedNothing(p: Pool, timeout: nat)
    requires OneItemEach(p) && Enabled(p, PickIdle, timeout)
    ensures p.books.idle[0] in p.threads && Outstanding(p, p.books.idle[0]) == []
  {
    hide Outstanding;
    assert p.books.idle[0] in p.books.idle;
  }

  lemma HeldSame(p: Pool, q: Pool)
    requires EachItemHeldOnce(p) && q.submitted == p.submitted && q.drained == p.drained
    requires forall id: Id, t: Ticket :: Holds(q, id, t) <==> Holds(p, id, t)
    ensures EachItemHeldOnce(q)
  {
    hide Holds;
  }

  lemma HeldWithout(p: Pool, q: Pool, w: Id, gone: Ticket)
    requires EachItemHeldOnce(p) && q.submitted == p.submitted && q.drained == p.drained + {gone}
    requires forall t: Ticket :: Holds(p, w, t) <==> t == gone
    requires forall id: Id, t: Ticket :: Holds(q, id, t) <==> Holds(p, id, t) && id != w
    ensures EachItemHeldOnce(q)
  {
    hide Holds;
    assert Holds(p, w, gone);
    forall t: Ticket | t < q.submitted && t !in q.drained ensures exists id: Id :: Holds(q, id, t) {
      var id: Id :| Holds(p, id, t);
      assert Holds(q, id, t);
    }
  }

  lemma HeldWith(p: Pool, q: Pool, w: Id)
    requires EachItemHeldOnce(p) && q.submitted == p.submitted + 1 && q.drained == p.drained
    requires forall id: Id, t: Ticket :: Holds(q, id, t) <==> Holds(p, id, t) || (id == w && t == p.submitted)
    ensures EachItemHeldOnce(q)
  {
    hide Holds;
    forall t: Ticket | t < q.submitted && t !in q.drained ensures exists id: Id :: Holds(q, id, t) {
      if t == p.submitted {
        assert Holds(q, w, t);
      } else {
        var id: Id :| Holds(p, id, t);
        assert Holds(q, id, t);
      }
    }
  }

  lemma HeldOnceStep(p: Pool, s: Step, timeout: nat)
    requires OneItemEach(p) && EachItemHeldOnce(p) && Enabled(p, s, timeout)
    ensures EachItemHeldOnce(Next(p, s, timeout))
  {
    hide Holds, EachItemHeldOnce, OneItemEach;
    var q := Next(p, s, timeout);
    forall id: Id, t: Ticket
      ensures Holds(q, id, t) <==>
              (Holds(p, id, t) && !TakesBack(p, s, timeout, id)) || HandsOver(p, s, timeout, id, t)
    {
      HoldsAfter(p, s, timeout, id, t);
    }
    if s.DrainOne? {
      DrainHolds(p, timeout);
      HeldWithout(p, q, p.acks[0].id, p.acks[0].ticket);
    } else if PicksWorker(s) {
      HeldWith(p, q, q.pc.id);
    } else {
      HeldSame(p, q);
    }
  }

  // The drained worker held just the drained item.
  lemma DrainHolds(p: Pool, timeout: nat)
    requires OneItemEach(p) && Enabled(p, DrainOne, timeout)
    ensures forall t: Ticket :: Holds(p, p.acks[0].id, t) <==> t == p.acks[0].ticket
  {
    DrainTakesOldest(p, timeout, p.acks[0].id);
  }

  lemma FinishedAfter(p: Pool, s: Step, timeout: nat, id: Id, t: Ticket)
    requires OneItemEach(p) && Enabled(p, s, timeout)
    ensures Finished(Next(p, s, timeout), id, t) <==>
            (Finished(p, id, t) && !TakesBack(p, s, timeout, id))
            || (s == Finish(id) && p.threads[id].phase == Executing(t))
  {
    hide Outstanding, OneItemEach;
    match s
    case DrainOne => FinishedAfterDrain(p, timeout, id, t);
    case ReapOne => FinishedAfterReap(p, timeout, id, t);
    case Spawn(w, now) => FinishedAfterSpawn(p, w, now, timeout, id, t);
    case SendAck(w) => FinishedAfterAck(p, w, timeout, id, t);
    case _ =>
  }

  lemma FinishedAfterSpawn(p: Pool, w: Id, now: Time, timeout: nat, id: Id, t: Ticket)
    requires OneItemEach(p) && Enabled(p, Spawn(w, now), timeout)
    ensures Finished(Next(p, Spawn(w, now), timeout), id, t) <==> Finished(p, id, t)
  {
    hide Outstanding, AckTickets;
    NoAcksOf(p.acks, w);
    assert w !in p.threads;
  }

  lemma FinishedAfterAck(p: Pool, w: Id, timeout: nat, id: Id, t: Ticket)
    requires Enabled(p, SendAck(w), timeout)
    ensures Finished(Next(p, SendAck(w), timeout), id, t) <==> Finished(p, id, t)
  {
    AckTicketsSnoc(p.acks, Ack(w, p.threads[w].phase.ticket), id);
    hide AckTickets;
  }

  lemma FinishedAfterReap(p: Pool, timeout: nat, id: Id, t: Ticket)
    requires OneItemEach(p) && Enabled(p, ReapOne, timeout)
    ensures Finished(Next(p, ReapOne, timeout), id, t) <==> Finished(p, id, t)
  {
    hide Outstanding, AckTickets;
    ReapedWorkerOwesNothing(p, timeout);
    var gone := p.books.idle[|p.books.idle| - 1];
    IdleOwesNothing(p, gone);
    NoAcksOf(p.acks, gone);
  }

  lemma FinishedAfterDrain(p: Pool, timeout: nat, id: Id, t: Ticket)
    requires OneItemEach(p) && Enabled(p, DrainOne, timeout)
    ensures Finished(Next(p, DrainOne, timeout), id, t) <==> Finished(p, id, t) && id != p.acks[0].id
  {
    if id in p.threads {
      DrainTakesOldest(p, timeout, id);
    }
  }

  lemma FinishedIsHeld(p: Pool, id: Id, t: Ticket)
    requires Finished(p, id, t)
    ensures Holds(p, id, t)
  {
    if t !in AckTickets(p.acks, id) {
      assert PhaseTickets(p.threads[id].phase) == [t];
    }
  }

  // The item a thread is about to finish has not been executed before.
  lemma FinishIsFirst(p: Pool, w: Id, timeout: nat)
    requires OneItemEach(p) && EachItemHeldOnce(p) && ExecutedOnce(p) && Enabled(p, Finish(w), timeout)
    ensures p.threads[w].phase.ticket !in p.executed
    ensures p.threads[w].phase.ticket !in p.drained
  {
    var t := p.threads[w].phase.ticket;
    assert PhaseTickets(p.threads[w].phase) == [t];
    assert Holds(p, w, t);
    assert !Finished(p, w, t);
    if t in p.executed {
      var id: Id :| Finished(p, id, t);
      FinishedIsHeld(p, id, t);
      assert false;
    }
  }

  // What a step does to the executed, drained and finished items.
  lemma ExecutionFlow(p: Pool, s: Step, timeout: nat)
    requires OneItemEach(p) && EachItemHeldOnce(p) && ExecutedOnce(p) && Enabled(p, s, timeout)
    ensures var q := Next(p, s, timeout);
            && (s.Finish? ==> q.executed == p.executed + [p.threads[s.id].phase.ticket] && q.drained == p.drained
                              && p.threads[s.id].phase.ticket !in p.executed)
            && (s.DrainOne? ==> q.executed == p.executed && q.drained == p.drained + {p.acks[0].ticket}
                                && p.acks[0].ticket in p.executed
                                && forall t: Ticket :: Finished(p, p.acks[0].id, t) ==> t == p.acks[0].ticket)
            && (!s.Finish? && !s.DrainOne? ==> q.executed == p.executed && q.drained == p.drained)
  {
    hide Outstanding;
    if s.Finish? {
      FinishIsFirst(p, s.id, timeout);
    }
    if s.DrainOne? {
      DrainHolds(p, timeout);
      assert Finished(p, p.acks[0].id, p.acks[0].ticket);
      forall t: Ticket | Finished(p, p.acks[0].id, t) ensures t == p.acks[0].ticket {
        FinishedIsHeld(p, p.acks[0].id, t);
      }
    }
  }

  lemma ExecutedOnceQuiet(p: Pool, q: Pool)
    requires ExecutedOnce(p) && q.executed == p.executed && q.drained == p.drained
    requires forall id: Id, t: Ticket :: Finished(q, id, t) <==> Finished(p, id, t)
    ensures ExecutedOnce(q)
  {
    hide Finished;
    forall t: Ticket | t in q.executed && t !in q.drained ensures exists id: Id :: Finished(q, id, t) {
      var id: Id :| Finished(p, id, t);
      assert Finished(q, id, t);
    }
  }

  lemma ExecutedOnceFinish(p: Pool, q: Pool, w: Id, done: Ticket)
    requires ExecutedOnce(p) && q.executed == p.executed + [done] && done !in p.executed && q.drained == p.drained
    requires forall id: Id, t: Ticket :: Finished(q, id, t) <==> Finished(p, id, t) || (id == w && t == done)
    ensures ExecutedOnce(q)
  {
    hide Finished;
    forall t: Ticket | t in q.executed && t !in q.drained ensures exists id: Id :: Finished(q, id, t) {
      if t == done {
        assert Finished(q, w, t);
      } else {
        var id: Id :| Finished(p, id, t);
        assert Finished(q, id, t);
      }
    }
  }

  lemma ExecutedOnceDrain(p: Pool, q: Pool, w: Id, done: Ticket)
    requires ExecutedOnce(p) && q.executed == p.executed && q.drained == p.drained + {done} && done in p.executed
    requires forall id: Id, t: Ticket :: Finished(q, id, t) <==> Finished(p, id, t) && id != w
    requires forall t: Ticket :: Finished(p, w, t) ==> t == done
    ensures ExecutedOnce(q)
  {
    hide Finished;
    forall t: Ticket | t in q.executed && t !in q.drained ensures exists id: Id :: Finished(q, id, t) {
      var id: Id :| Finished(p, id, t);
      assert Finished(q, id, t);
    }
  }

  lemma ExecutedOnceStep(p: Pool, s: Step, timeout: nat)
    requires OneItemEach(p) && EachItemHeldOnce(p) && ExecutedOnce(p) && Enabled(p, s, timeout)
    ensures ExecutedOnce(Next(p, s, timeout))
  {
    hide Finished, OneItemEach, EachItemHeldOnce, ExecutedOnce;
    var q := Next(p, s, timeout);
    ExecutionFlow(p, s, timeout);
    forall id: Id, t: Ticket
      ensures Finished(q, id, t) <==>
              (Finished(p, id, t) && !TakesBack(p, s, timeout, id))
              || (s == Finish(id) && p.threads[id].phase == Executing(t))
    {
      FinishedAfter(p, s, timeout, id, t);
    }
    if s.Finish? {
      ExecutedOnceFinish(p, q, s.id, p.threads[s.id].phase.ticket);
    } else if s.DrainOne? {
      ExecutedOnceDrain(p, q, p.acks[0].id, p.acks[0].ticket);
    } else {
      ExecutedOnceQuiet(p, q);
    }
  }

  lemma CountedDrain(p: Pool, timeout: nat)
    requires OneItemEach(p) && EachItemHeldOnce(p) && Counted(p) && Enabled(p, DrainOne, timeout)
    ensures Counted(Next(p, DrainOne, timeout))
  {
    hide Outstanding;
    DrainHolds(p, timeout);
    assert Holds(p, p.acks[0].id, p.acks[0].ticket);
    SameSize(p.books.workers, p.acks[0].id, p.pc.now);
  }

  lemma CountedReap(p: Pool, timeout: nat)
    requires OneItemEach(p) && Counted(p) && Enabled(p, ReapOne, timeout)
    ensures Counted(Next(p, ReapOne, timeout))
  {
    hide Outstanding;
    ReapedWorkerOwesNothing(p, timeout);
    assert p.books.idle[|p.books.idle| - 1] in p.books.workers;
    hide OneItemEach;
    SizeWithout(p.books.workers, p.books.idle[|p.books.idle| - 1]);
  }

  lemma CountedStep(p: Pool, s: Step, timeout: nat)
    requires OneItemEach(p) && EachItemHeldOnce(p) && Counted(p) && Enabled(p, s, timeout)
    ensures Counted(Next(p, s, timeout))
  {
    hide OneItemEach, EachItemHeldOnce;
    match s
    case DrainOne => CountedDrain(p, timeout);
    case ReapOne => CountedReap(p, timeout);
    case Spawn(w, now) => SameSize(p.books.workers, w, now);
    case _ =>
  }

  lemma SameSize(m: map<Id, Time>, id: Id, now: Time)
    ensures |m[id := now]| == |m| + if id in m then 0 else 1
  {
    assert m[id := now].Keys == m.Keys + {id};
    assert |m| == |m.Keys| && |m[id := now]| == |m[id := now].Keys|;
  }

  lemma SizeWithout(m: map<Id, Time>, id: Id)
    requires id in m
    ensures |m - {id}| == |m| - 1
  {
    assert (m - {id}).Keys == m.Keys - {id};
    assert |m| == |m.Keys| && |m - {id}| == |(m - {id}).Keys|;
  }

  lemma TimelyStep(p: Pool, s: Step, timeout: nat)
    requires OneItemEach(p) && Timely(p) && Enabled(p, s, timeout)
    ensures Timely(Next(p, s, timeout))
  {
    hide Outstanding, OneItemEach;
    match s
    case DrainOne =>
      DrainedNotIdle(p, timeout);
      DrainOrder(p.books, p.acks[0].id, p.pc.now);
    case PickIdle => ReuseKeepsOrder(p.books);
    case Spawn(w, now) => SpawnKeepsOrder(p.books, w, now);
    case ReapOne => ReapOrder(p.books);
    case _ =>
  }

  lemma ReapOrder(b: Books)
    requires Consistent(b) && OrderedByActivity(b) && b.idle != []
    ensures Consistent(ReapBack(b)) && OrderedByActivity(ReapBack(b))
  {
    ConsistentPrefix(b, ReapBack(b));
  }

  lemma DrainedNotIdle(p: Pool, timeout: nat)
    requires OneItemEach(p) && Enabled(p, DrainOne, timeout)
    ensures p.acks[0].id in p.books.workers && p.acks[0].id !in p.books.idle
  {
    DrainTakesOldest(p, timeout, p.acks[0].id);
  }

  // ---- Every reachable state -------------------------------------------------

  ghost predicate Inv(p: Pool) {
    OneItemEach(p) && EachItemHeldOnce(p) && ExecutedOnce(p) && Counted(p) && Timely(p)
  }

  lemma {:induction false} ReachableInv(steps: seq<Step>, p: Pool, timeout: nat)
    requires Reaches(steps, p, timeout)
    ensures Inv(p)
  {
    if steps != [] {
      var n := |steps| - 1;
      var q :| Reaches(steps[..n], q, timeout) && Enabled(q, steps[n], timeout) && p == Next(q, steps[n], timeout);
      ReachableInv(steps[..n], q, timeout);
      OneItemStep(q, steps[n], timeout);
      HeldOnceStep(q, steps[n], timeout);
      ExecutedOnceStep(q, steps[n], timeout);
      CountedStep(q, steps[n], timeout);
      TimelyStep(q, steps[n], timeout);
    }
  }

  // A worker is handed work only when it has none: nothing queues behind it.
  lemma WorkNeverQueues(steps: seq<Step>, p: Pool, timeout: nat, id: Id)
    requires Reaches(steps, p, timeout) && id in p.threads
    ensures p.pc.Sending? && p.pc.id == id ==>
              p.threads[id] == Thread([], Waiting) && id !in p.books.idle
    ensures |p.threads[id].inbox| <= 1
    ensures p.threads[id].inbox != [] ==> p.threads[id].phase.Waiting?
    ensures id in p.books.idle ==> p.threads[id] == Thread([], Waiting)
  {
    ReachableInv(steps, p, timeout);
    OneItemShape(p, id);
  }

  lemma OneItemShape(p: Pool, id: Id)
    requires OneItemEach(p) && id in p.threads
    ensures |PhaseTickets(p.threads[id].phase)| + |p.threads[id].inbox| + |PendingTickets(p.pc, id)|
            <= if id in p.books.idle then 0 else 1
  {
    hide AckTickets;
  }

  // The lookup of a drained ack's worker never fails, reused addresses included.
  lemma DrainedAckNamesLiveWorker(steps: seq<Step>, p: Pool, timeout: nat)
    requires Reaches(steps, p, timeout) && p.pc.Draining? && p.acks != []
    ensures Enabled(p, DrainOne, timeout)
    ensures p.acks[0].id !in p.books.idle
  {
    ReachableInv(steps, p, timeout);
    DrainedNotIdle(p, timeout);
  }

  // No item is executed twice, every drained item has been executed, and busy
  // workers number the undrained items.
  lemma ItemsRunAtMostOnce(steps: seq<Step>, p: Pool, timeout: nat)
    requires Reaches(steps, p, timeout)
    ensures NoDup(p.executed)
    ensures forall t: Ticket :: t in p.drained ==> t in p.executed
    ensures forall t: Ticket :: t in p.executed ==> t < p.submitted
    ensures |p.books.workers| - |p.books.idle| == p.submitted - |p.drained|
  {
    ReachableInv(steps, p, timeout);
    forall t: Ticket | t in p.executed ensures t < p.submitted {
      if t !in p.drained {
        var id: Id :| Finished(p, id, t);
        FinishedIsHeld(p, id, t);
      }
    }
  }

  // An item not executed yet can always advance: no submitted item gets stuck.
  lemma UnexecutedItemCanAdvance(steps: seq<Step>, p: Pool, timeout: nat, t: Ticket) returns (id: Id)
    requires Reaches(steps, p, timeout) && t < p.submitted && t !in p.executed
    ensures Holds(p, id, t)
    ensures forall other: Id :: Holds(p, other, t) ==> other == id
    ensures Enabled(p, Send, timeout) || Enabled(p, Receive(id), timeout) || Enabled(p, Finish(id), timeout)
  {
    ReachableInv(steps, p, timeout);
    hide OneItemEach, Timely, Counted, Holds, Finished, Enabled;
    id :| Holds(p, id, t);
    HeldCanAdvance(p, id, t, timeout);
  }

  lemma HeldCanAdvance(p: Pool, id: Id, t: Ticket, timeout: nat)
    requires OneItemEach(p) && Holds(p, id, t) && !Finished(p, id, t)
    ensures Enabled(p, Send, timeout) || Enabled(p, Receive(id), timeout) || Enabled(p, Finish(id), timeout)
  {
    hide OneItemEach, Holds, Finished;
    HeldState(p, id, t);
  }

  // An unfinished item is being executed, next in a waiting thread's inbox, or
  // about to be sent.
  lemma HeldState(p: Pool, id: Id, t: Ticket)
    requires OneItemEach(p) && Holds(p, id, t) && !Finished(p, id, t)
    ensures id in p.threads
    ensures p.threads[id].phase.Executing?
            || (p.threads[id].phase.Waiting? && p.threads[id].inbox != [])
            || (p.pc.Sending? && p.pc.id == id)
  {
    hide OneItemEach, Finished;
    OneItemShape(p, id);
    HeldWhere(p, id, t);
    assert id in p.threads;
  }

  lemma HeldWhere(p: Pool, id: Id, t: Ticket)
    requires Holds(p, id, t) && !Finished(p, id, t)
    ensures p.threads[id].phase == Executing(t) || p.threads[id].inbox != [] || (p.pc.Sending? && p.pc.id == id)
  {
    hide AckTickets;
  }

  // ---- Every submitted item runs ----------------------------------------------

  // How many steps the holder is away from having executed its item.
  function Distance(p: Pool, id: Id): nat {
    if id !in p.threads then 0
    else if p.threads[id].phase.Executing? then 1
    else if p.threads[id].inbox != [] then 2
    else 3
  }

  lemma ExecutingHeld(p: Pool, id: Id, t: Ticket)
    requires OneItemEach(p) && Holds(p, id, t) && p.threads[id].phase.Executing?
    ensures p.threads[id].phase.ticket == t
  {
    hide AckTickets;
    var u := p.threads[id].phase.ticket;
    assert PhaseTickets(p.threads[id].phase) == [u];
    assert u in Outstanding(p, id);
  }

  // The step that brings a held item closer to execution.
  function NextFor(p: Pool, id: Id): Step {
    if id in p.threads && p.threads[id].phase.Executing? then Finish(id)
    else if id in p.threads && p.threads[id].inbox != [] then Receive(id)
    else Send
  }

  lemma Approaches(p: Pool, id: Id, t: Ticket, timeout: nat)
    requires OneItemEach(p) && Holds(p, id, t) && !Finished(p, id, t)
    ensures Enabled(p, NextFor(p, id), timeout)
    ensures var q := Next(p, NextFor(p, id), timeout);
            && q.submitted == p.submitted
            && (NextFor(p, id).Finish? ==> q.executed == p.executed + [t])
            && (!NextFor(p, id).Finish? ==> q.executed == p.executed && Distance(q, id) < Distance(p, id))
            && Holds(q, id, t)
  {
    HeldState(p, id, t);
    if p.threads[id].phase.Executing? {
      ExecutingHeld(p, id, t);
    }
    hide Outstanding, OneItemEach, Finished;
    MoveKeepsHolds(p, NextFor(p, id), timeout, id, t);
  }

  // From any reachable state, one submitted item can be brought to execution by
  // the steps already under way.
  lemma {:induction false} ItemRuns(steps: seq<Step>, p: Pool, timeout: nat, id: Id, t: Ticket)
    returns (more: seq<Step>, q: Pool)
    requires Reaches(steps, p, timeout) && Holds(p, id, t) && t !in p.executed
    ensures steps <= more && Reaches(more, q, timeout) && q.submitted == p.submitted
    ensures q.executed == p.executed + [t]
    decreases Distance(p, id)
  {
    hide Holds, Distance, NextFor, Enabled, Next, OneItemEach, Counted, Timely, EachItemHeldOnce, Finished;
    ReachableInv(steps, p, timeout);
    assert !Finished(p, id, t);
    Approaches(p, id, t, timeout);
    var s := NextFor(p, id);
    var r := Next(p, s, timeout);
    ReachesOneMore(steps, p, s, timeout);
    if s.Finish? {
      more, q := steps + [s], r;
    } else {
      more, q := ItemRuns(steps + [s], r, timeout, id, t);
    }
  }

  lemma ReachesOneMore(steps: seq<Step>, p: Pool, s: Step, timeout: nat)
    requires Reaches(steps, p, timeout) && Enabled(p, s, timeout)
    ensures Reaches(steps + [s], Next(p, s, timeout), timeout)
  {
    hide Enabled, Next;
    assert (steps + [s])[..|steps|] == steps;
  }

  // No more than `n` different tickets lie below `n`.
  lemma {:induction false} AtMost(s: seq<Ticket>, n: nat)
    requires NoDup(s) && forall t :: t in s ==> t < n
    ensures |s| <= n
    ensures |s| == n ==> forall t: Ticket :: t < n ==> t in s
  {
    hide NoDup;
    if s != [] {
      assert s[0] in s;
      if n - 1 in s {
        AtMost(TakeOut(s, n - 1), n - 1);
      } else {
        AtMost(s, n - 1);
      }
    }
  }

  // A list without repetition less one of its elements.
  ghost function TakeOut(s: seq<Ticket>, t: Ticket): (r: seq<Ticket>)
    requires NoDup(s) && t in s
    ensures NoDup(r) && |r| == |s| - 1
    ensures forall x :: x in r <==> x in s && x != t
  {
    var i :| 0 <= i < |s| && s[i] == t;
    assert s == s[..i] + [t] + s[i + 1..];
    s[..i] + s[i + 1..]
  }

  // Every reachable state's run can be continued, without any new submission, until
  // all submitted items have run, each exactly once.
  lemma {:induction false} EveryItemRunsOnce(steps: seq<Step>, p: Pool, timeout: nat)
    returns (more: seq<Step>, q: Pool)
    requires Reaches(steps, p, timeout)
    ensures steps <= more && Reaches(more, q, timeout) && q.submitted == p.submitted
    ensures NoDup(q.executed) && p.executed <= q.executed
    ensures forall t: Ticket :: t in q.executed <==> t < q.submitted
    decreases p.submitted - |p.executed|
  {
    ItemsRunAtMostOnce(steps, p, timeout);
    AtMost(p.executed, p.submitted);
    if t: Ticket :| t < p.submitted && t !in p.executed {
      var id := UnexecutedItemCanAdvance(steps, p, timeout, t);
      var now, r := ItemRuns(steps, p, timeout, id, t);
      hide Reaches;
      ItemsRunAtMostOnce(now, r, timeout);
      AtMost(r.executed, r.submitted);
      more, q := EveryItemRunsOnce(now, r, timeout);
    } else {
      more, q := steps, p;
    }
  }

  // ---- No step is wasted -------------------------------------------------------

  // Steps until item `t` has been executed: none once it has.
  ghost function Left(p: Pool, t: Ticket): nat {
    if t in p.executed then 0
    else if exists id: Id :: Holds(p, id, t) then
      var id: Id :| Holds(p, id, t);
      Distance(p, id)
    else 0
  }

  ghost function LeftBelow(p: Pool, n: nat): nat {
    if n == 0 then 0 else LeftBelow(p, n - 1) + Left(p, n - 1)
  }

  // Summed over all submitted items.
  ghost function TotalLeft(p: Pool): nat {
    LeftBelow(p, p.submitted)
  }

  // The steps that bring an item closer to its execution.
  predicate Moving(s: Step) {
    s.Send? || s.Receive? || s.Finish?
  }

  ghost function Moved(p: Pool, s: Step, timeout: nat): Ticket
    requires Enabled(p, s, timeout) && Moving(s)
  {
    match s
    case Send => p.pc.ticket
    case Receive(id) => p.threads[id].inbox[0]
    case Finish(id) => p.threads[id].phase.ticket
  }

  ghost function Mover(p: Pool, s: Step, timeout: nat): Id
    requires Enabled(p, s, timeout) && Moving(s)
  {
    match s
    case Send => p.pc.id
    case Receive(id) => id
    case Finish(id) => id
  }

  lemma LeftIs(p: Pool, id: Id, t: Ticket)
    requires EachItemHeldOnce(p) && Holds(p, id, t) && t !in p.executed
    ensures Left(p, t) == Distance(p, id)
  {
    hide Holds, Distance;
    var other: Id :| Holds(p, other, t);
  }

  // A worker holds one item only.
  lemma HoldsOne(p: Pool, id: Id, t: Ticket, u: Ticket)
    requires OneItemEach(p) && Holds(p, id, t) && Holds(p, id, u)
    ensures t == u
  {
    hide AckTickets, PhaseTickets, PendingTickets;
    var o := Outstanding(p, id);
    var i :| 0 <= i < |o| && o[i] == t;
    var j :| 0 <= j < |o| && o[j] == u;
  }

  // Where the item that a step moves is before the step.
  lemma MovedInFlight(p: Pool, s: Step, timeout: nat)
    requires OneItemEach(p) && Enabled(p, s, timeout) && Moving(s)
    ensures var w, t := Mover(p, s, timeout), Moved(p, s, timeout);
            && w in p.threads && !p.threads[w].phase.Acking?
            && InFlight(p, w, t)
  {
    hide Outstanding, AckTickets;
    OneItemShape(p, Mover(p, s, timeout));
  }

  predicate InFlight(p: Pool, id: Id, t: Ticket) {
    && id in p.threads
    && (t in PhaseTickets(p.threads[id].phase) || t in p.threads[id].inbox || t in PendingTickets(p.pc, id))
  }

  lemma OneInFlight(p: Pool, id: Id, t: Ticket)
    requires OneItemEach(p) && InFlight(p, id, t) && !p.threads[id].phase.Acking?
    ensures Holds(p, id, t) && !Finished(p, id, t)
  {
    hide AckTickets, PhaseTickets, PendingTickets;
  }

  // The moved item is the mover's, still on its way to execution.
  lemma MovedIsHeld(p: Pool, s: Step, timeout: nat)
    requires OneItemEach(p) && Enabled(p, s, timeout) && Moving(s)
    ensures Holds(p, Mover(p, s, timeout), Moved(p, s, timeout))
    ensures !Finished(p, Mover(p, s, timeout), Moved(p, s, timeout))
  {
    hide OneItemEach, Holds, Finished, InFlight;
    MovedInFlight(p, s, timeout);
    OneInFlight(p, Mover(p, s, timeout), Moved(p, s, timeout));
  }

  lemma HeldNotFinished(p: Pool, id: Id, t: Ticket)
    requires OneItemEach(p) && EachItemHeldOnce(p) && ExecutedOnce(p)
    requires Holds(p, id, t) && !Finished(p, id, t)
    ensures t !in p.executed
  {
    hide Holds, Finished, OneItemEach;
    if t in p.executed {
      var other: Id :| Finished(p, other, t);
      FinishedIsHeld(p, other, t);
      assert false;
    }
  }

  // A step that moves this item takes one off its distance.
  lemma MovedDistance(p: Pool, s: Step, timeout: nat)
    requires OneItemEach(p) && Enabled(p, s, timeout) && Moving(s)
    ensures var id := Mover(p, s, timeout);
            && Distance(p, id) == (match s case Send => 3 case Receive(_) => 2 case Finish(_) => 1)
            && (!s.Finish? ==> Distance(Next(p, s, timeout), id) == Distance(p, id) - 1)
  {
    hide Outstanding;
    OneItemShape(p, Mover(p, s, timeout));
  }

  // Any other step leaves alone the thread of a worker with an unexecuted item.
  lemma OthersStay(p: Pool, s: Step, timeout: nat, id: Id, t: Ticket)
    requires OneItemEach(p) && Enabled(p, s, timeout)
    requires Holds(p, id, t) && !Finished(p, id, t)
    requires Moving(s) ==> id != Mover(p, s, timeout)
    ensures Distance(Next(p, s, timeout), id) == Distance(p, id)
  {
    hide Outstanding, OneItemEach, AckTickets;
    match s
    case ReapOne =>
      ReapedHoldsNothing(p, timeout, id, t);
    case SendAck(w) =>
      if w == id {
        AckingHeld(p, id, t);
      }
    case Spawn(w, now) =>
      SpawnKeys(p, w, now, timeout);
    case _ =>
  }

  lemma ReapedHoldsNothing(p: Pool, timeout: nat, id: Id, t: Ticket)
    requires OneItemEach(p) && Enabled(p, ReapOne, timeout) && Holds(p, id, t)
    ensures id != p.books.idle[|p.books.idle| - 1]
  {
    hide Outstanding, OneItemEach;
    ReapedWorkerOwesNothing(p, timeout);
  }

  lemma AckingHeld(p: Pool, id: Id, t: Ticket)
    requires OneItemEach(p) && Holds(p, id, t) && p.threads[id].phase.Acking?
    ensures p.threads[id].phase == Acking(t)
  {
    hide AckTickets;
    var u := p.threads[id].phase.ticket;
    assert PhaseTickets(p.threads[id].phase) == [u];
    assert Holds(p, id, u);
    HoldsOne(p, id, t, u);
  }

  ghost predicate ItemsOk(p: Pool) {
    OneItemEach(p) && EachItemHeldOnce(p) && ExecutedOnce(p)
  }

  lemma UnexecutedIsHeld(p: Pool, t: Ticket) returns (id: Id)
    requires ItemsOk(p) && t < p.submitted && t !in p.executed
    ensures Holds(p, id, t) && !Finished(p, id, t)
  {
    hide OneItemEach, Holds, Finished;
    id :| Holds(p, id, t);
  }

  // What a step does to one item's distance.
  lemma StepLeft(p: Pool, s: Step, timeout: nat, t: Ticket)
    requires ItemsOk(p) && Enabled(p, s, timeout) && ItemsOk(Next(p, s, timeout))
    requires t < p.submitted
    ensures Left(Next(p, s, timeout), t) == Left(p, t) - if Moving(s) && t == Moved(p, s, timeout) then 1 else 0
  {
    hide Holds, Finished, Distance, OneItemEach, ExecutedOnce, EachItemHeldOnce, Left;
    var q := Next(p, s, timeout);
    if Moving(s) {
      MovedIsHeld(p, s, timeout);
      HeldNotFinished(p, Mover(p, s, timeout), Moved(p, s, timeout));
      MovedDistance(p, s, timeout);
    }
    ExecutionFlow(p, s, timeout);
    if t in p.executed {
      ExecutedLeft(p, t);
      ExecutedLeft(q, t);
    } else {
      var id := UnexecutedIsHeld(p, t);
      LeftIs(p, id, t);
      if Moving(s) && id == Mover(p, s, timeout) {
        HoldsOne(p, id, t, Moved(p, s, timeout));
        if s.Finish? {
          ExecutedLeft(q, t);
        } else {
          HoldsAfter(p, s, timeout, id, t);
          LeftIs(q, id, t);
        }
      } else {
        OthersLeft(p, s, timeout, id, t);
      }
    }
  }

  lemma ExecutedLeft(p: Pool, t: Ticket)
    requires t in p.executed
    ensures Left(p, t) == 0
  {
  }

  lemma OthersLeft(p: Pool, s: Step, timeout: nat, id: Id, t: Ticket)
    requires ItemsOk(p) && Enabled(p, s, timeout) && ItemsOk(Next(p, s, timeout))
    requires t < p.submitted && t !in p.executed && Holds(p, id, t) && !Finished(p, id, t)
    requires Moving(s) ==> id != Mover(p, s, timeout)
    ensures Left(Next(p, s, timeout), t) == Distance(p, id)
    ensures Moving(s) ==> t != Moved(p, s, timeout)
  {
    hide Holds, Finished, Distance, OneItemEach, ExecutedOnce, Left;
    var q := Next(p, s, timeout);
    OthersStay(p, s, timeout, id, t);
    ExecutionFlow(p, s, timeout);
    if Moving(s) {
      MovedIsHeld(p, s, timeout);
    }
    HoldsAfter(p, s, timeout, id, t);
    if s.DrainOne? {
      DrainHolds(p, timeout);
    }
    LeftIs(q, id, t);
  }

  lemma {:induction false} LeftBelowDrops(p: Pool, q: Pool, n: nat, moved: Option<Ticket>)
    requires forall t: Ticket :: t < n ==> Left(q, t) == Left(p, t) - if moved == Some(t) then 1 else 0
    ensures LeftBelow(q, n) == LeftBelow(p, n) - if moved.Some? && moved.value < n then 1 else 0
  {
    hide Left;
    if n > 0 {
      LeftBelowDrops(p, q, n - 1, moved);
    }
  }

  // A newly submitted item is three steps away: sending, receiving, executing.
  lemma SubmittedLeft(p: Pool, s: Step, timeout: nat)
    requires ItemsOk(p) && Enabled(p, s, timeout) && PicksWorker(s) && ItemsOk(Next(p, s, timeout))
    ensures Left(Next(p, s, timeout), p.submitted) == 3
  {
    hide Holds, Distance, OneItemEach, Finished, Outstanding;
    var q := Next(p, s, timeout);
    assert HandsOver(p, s, timeout, q.pc.id, p.submitted);
    HoldsAfter(p, s, timeout, q.pc.id, p.submitted);
    if p.submitted in q.executed {
      var id: Id :| p.submitted in p.drained || Finished(p, id, p.submitted);
      if p.submitted !in p.drained {
        FinishedIsHeld(p, id, p.submitted);
      }
      assert false;
    }
    LeftIs(q, q.pc.id, p.submitted);
    SentDistance(q);
  }

  lemma SentDistance(q: Pool)
    requires OneItemEach(q) && q.pc.Sending?
    ensures Distance(q, q.pc.id) == 3
  {
    hide Outstanding;
    OneItemShape(q, q.pc.id);
  }

  // Every Send, Receive or Finish lowers the summed distance by one; a new
  // submission adds three; no other step changes it.
  lemma StepProgress(p: Pool, s: Step, timeout: nat)
    requires ItemsOk(p) && Enabled(p, s, timeout)
    ensures TotalLeft(Next(p, s, timeout))
         == TotalLeft(p) + (if PicksWorker(s) then 3 else 0) - (if Moving(s) then 1 else 0)
  {
    hide ItemsOk, Left, OneItemEach, Holds;
    var q := Next(p, s, timeout);
    StepKeepsItems(p, s, timeout);
    var moved := if Moving(s) then Some(Moved(p, s, timeout)) else None;
    forall t: Ticket | t < p.submitted
      ensures Left(q, t) == Left(p, t) - if moved == Some(t) then 1 else 0
    {
      StepLeft(p, s, timeout, t);
    }
    LeftBelowDrops(p, q, p.submitted, moved);
    if Moving(s) {
      MovedIsSubmitted(p, s, timeout);
    }
    if PicksWorker(s) {
      SubmittedLeft(p, s, timeout);
    }
  }

  lemma StepKeepsItems(p: Pool, s: Step, timeout: nat)
    requires ItemsOk(p) && Enabled(p, s, timeout)
    ensures ItemsOk(Next(p, s, timeout))
  {
    hide OneItemEach, EachItemHeldOnce, ExecutedOnce;
    OneItemStep(p, s, timeout);
    HeldOnceStep(p, s, timeout);
    ExecutedOnceStep(p, s, timeout);
  }

  lemma MovedIsSubmitted(p: Pool, s: Step, timeout: nat)
    requires ItemsOk(p) && Enabled(p, s, timeout) && Moving(s)
    ensures Moved(p, s, timeout) < p.submitted
  {
    hide Holds, OneItemEach;
    MovedIsHeld(p, s, timeout);
  }

  function Moves(steps: seq<Step>): nat {
    if steps == [] then 0
    else Moves(steps[..|steps| - 1]) + if Moving(steps[|steps| - 1]) then 1 else 0
  }

  lemma ReachableItemsOk(steps: seq<Step>, p: Pool, timeout: nat)
    requires Reaches(steps, p, timeout)
    ensures ItemsOk(p)
  {
    hide OneItemEach, EachItemHeldOnce, ExecutedOnce, Counted, Timely, Reaches;
    ReachableInv(steps, p, timeout);
  }

  // Over every run, whatever the interleaving: each item takes exactly three
  // moves, the moves made and the moves left add up, and none is left exactly when
  // every submitted item has been executed.
  lemma {:induction false} MovesAddUp(steps: seq<Step>, p: Pool, timeout: nat)
    requires Reaches(steps, p, timeout)
    ensures Moves(steps) + TotalLeft(p) == 3 * p.submitted
    ensures TotalLeft(p) == 0 <==> forall t: Ticket :: t < p.submitted ==> t in p.executed
  {
    hide Enabled, Next, ItemsOk, Left, Moving;
    if steps != [] {
      var n := |steps| - 1;
      var q :| Reaches(steps[..n], q, timeout) && Enabled(q, steps[n], timeout) && p == Next(q, steps[n], timeout);
      MovesAddUp(steps[..n], q, timeout);
      ReachableItemsOk(steps[..n], q, timeout);
      StepProgress(q, steps[n], timeout);
      SubmittedBy(q, steps[n], timeout);
    }
    ReachableItemsOk(steps, p, timeout);
    NothingLeftIff(p, p.submitted);
  }

  lemma SubmittedBy(p: Pool, s: Step, timeout: nat)
    requires Enabled(p, s, timeout)
    ensures Next(p, s, timeout).submitted == p.submitted + if PicksWorker(s) then 1 else 0
  {
  }

  lemma {:induction false} NothingLeftIff(p: Pool, n: nat)
    requires ItemsOk(p) && n <= p.submitted
    ensures LeftBelow(p, n) == 0 <==> forall t: Ticket :: t < n ==> t in p.executed
  {
    hide ItemsOk, Left;
    if n > 0 {
      NothingLeftIff(p, n - 1);
      var t: Ticket := n - 1;
      if t in p.executed {
        ExecutedLeft(p, t);
      } else {
        UnexecutedLeft(p, t);
      }
      assert (forall u: Ticket :: u < n ==> u in p.executed)
        <==> t in p.executed && forall u: Ticket :: u < n - 1 ==> u in p.executed;
    }
  }

  lemma UnexecutedLeft(p: Pool, t: Ticket)
    requires ItemsOk(p) && t < p.submitted && t !in p.executed
    ensures Left(p, t) > 0
  {
    hide OneItemEach, ExecutedOnce;
    var id := UnexecutedIsHeld(p, t);
    LeftIs(p, id, t);
  }

  // ---- The dispatcher's steps add up to keep_books ----------------------------

  function Ids(acks: seq<Ack>): seq<Id> {
    seq(|acks|, i requires 0 <= i < |acks| => acks[i].id)
  }

  lemma {:induction false} DrainAllFirst(b: Books, id: Id, rest: seq<Id>, now: Time)
    ensures DrainAll(b, [id] + rest, now) == DrainAll(Drained(b, id, now), rest, now)
  {
    var all := [id] + rest;
    var n := |all| - 1;
    if rest == [] {
      assert all[..n] == [];
    } else {
      assert all[..n] == [id] + rest[..|rest| - 1];
      DrainAllFirst(b, id, rest[..|rest| - 1], now);
    }
  }

  lemma FitsFirst(b: Books, id: Id, rest: seq<Id>, now: Time)
    requires id in b.workers && id !in b.idle && AcksFit(Drained(b, id, now), rest)
    ensures AcksFit(b, [id] + rest)
  {
    assert id in Drained(b, id, now).idle;
    forall x | x in rest ensures x in b.workers && x !in b.idle && x != id {
      assert x !in Drained(b, id, now).idle;
    }
  }

  // ---- Runs of the dispatcher inside keep_books, workers interleaved -------------

  ghost predicate Runs(p: Pool, steps: seq<Step>, q: Pool, timeout: nat)
    decreases |steps|
  {
    if steps == [] then q == p
    else Enabled(p, steps[0], timeout) && Runs(Next(p, steps[0], timeout), steps[1..], q, timeout)
  }

  // The workers whose acks a run drains, in order.
  ghost function DrainedIds(p: Pool, steps: seq<Step>, timeout: nat): seq<Id>
    decreases |steps|
  {
    if steps == [] || !Enabled(p, steps[0], timeout) then []
    else (if steps[0].DrainOne? then [p.acks[0].id] else [])
         + DrainedIds(Next(p, steps[0], timeout), steps[1..], timeout)
  }

  lemma DrainingStep(p: Pool, s: Step, timeout: nat)
    requires OneItemEach(p) && p.pc.Draining? && Enabled(p, s, timeout) && !s.AcksEmpty?
    ensures var m := Next(p, s, timeout);
            && OneItemEach(m) && m.pc == p.pc
            && (s.DrainOne? ==> p.acks != [] && m.acks == p.acks[1..]
                                && m.books == Drained(p.books, p.acks[0].id, p.pc.now)
                                && p.acks[0].id in p.books.workers && p.acks[0].id !in p.books.idle)
            && (!s.DrainOne? ==> m.books == p.books)
  {
    hide Outstanding, OneItemEach;
    OneItemStep(p, s, timeout);
    if s.DrainOne? {
      DrainedNotIdle(p, timeout);
    }
  }

  // While acks are drained, workers may go on and send more.  However the steps
  // interleave, the acks drained meet what WorkQueue.DrainAcks asks for, and the
  // books become what it computes from them.
  lemma {:induction false} DrainingAddsUp(p: Pool, steps: seq<Step>, q: Pool, timeout: nat)
    requires OneItemEach(p) && p.pc.Draining?
    requires Runs(p, steps, q, timeout) && forall i :: 0 <= i < |steps| ==> !steps[i].AcksEmpty?
    ensures q.pc == p.pc && OneItemEach(q)
    ensures AcksFit(p.books, DrainedIds(p, steps, timeout))
    ensures q.books == DrainAll(p.books, DrainedIds(p, steps, timeout), p.pc.now)
    decreases |steps|
  {
    hide Enabled, Next, OneItemEach, Drained, AcksFit;
    if steps == [] {
      NothingFits(p.books);
    } else {
      var m := Next(p, steps[0], timeout);
      assert !steps[0].AcksEmpty?;
      DrainingStep(p, steps[0], timeout);
      DrainingAddsUp(m, steps[1..], q, timeout);
      var rest := DrainedIds(m, steps[1..], timeout);
      if steps[0].DrainOne? {
        var a := p.acks[0].id;
        assert DrainedIds(p, steps, timeout) == [a] + rest;
        DrainAllFirst(p.books, a, rest, p.pc.now);
        FitsFirst(p.books, a, rest, p.pc.now);
      } else {
        assert DrainedIds(p, steps, timeout) == rest;
      }
    }
  }

  lemma NothingFits(b: Books)
    ensures AcksFit(b, [])
  {
  }

  lemma ReapingStep(p: Pool, s: Step, timeout: nat)
    requires OneItemEach(p) && p.pc.Reaping? && Enabled(p, s, timeout) && !s.ReapDone?
    ensures var m := Next(p, s, timeout);
            && OneItemEach(m) && m.pc == p.pc
            && (if s.ReapOne? then BackIsStale(p.books, p.pc.now, timeout) && m.books == ReapBack(p.books)
                else m.books == p.books)
  {
    hide Outstanding, OneItemEach;
    OneItemStep(p, s, timeout);
  }

  // Reaping, workers interleaved, up to the point where it can end.
  lemma {:induction false} ReapingAddsUp(p: Pool, steps: seq<Step>, q: Pool, timeout: nat)
    requires OneItemEach(p) && p.pc.Reaping?
    requires Runs(p, steps, q, timeout) && forall i :: 0 <= i < |steps| ==> !steps[i].ReapDone?
    ensures q.pc == p.pc && OneItemEach(q)
    ensures Reaped(q.books, p.pc.now, timeout) == Reaped(p.books, p.pc.now, timeout)
    ensures Enabled(q, ReapDone, timeout) ==> q.books == Reaped(p.books, p.pc.now, timeout)
    decreases |steps|
  {
    hide Next, OneItemEach;
    if steps != [] {
      assert !steps[0].ReapDone?;
      ReapingStep(p, steps[0], timeout);
      ReapingAddsUp(Next(p, steps[0], timeout), steps[1..], q, timeout);
    }
  }

  // A whole keep_books of the protocol, from the call to its end, is the one of
  // the dispatcher class for the acks that arrived in time.
  lemma KeepBooksAddsUp(p: Pool, now: Time, submit: bool, drain: seq<Step>, p2: Pool, reap: seq<Step>, p4: Pool, timeout: nat)
    requires OneItemEach(p) && Enabled(p, CallBooks(now, submit), timeout)
    requires Runs(Next(p, CallBooks(now, submit), timeout), drain, p2, timeout)
    requires forall i :: 0 <= i < |drain| ==> !drain[i].AcksEmpty?
    requires Enabled(p2, AcksEmpty, timeout)
    requires Runs(Next(p2, AcksEmpty, timeout), reap, p4, timeout)
    requires forall i :: 0 <= i < |reap| ==> !reap[i].ReapDone?
    requires Enabled(p4, ReapDone, timeout)
    ensures var ids := DrainedIds(Next(p, CallBooks(now, submit), timeout), drain, timeout);
            var q := Next(p4, ReapDone, timeout);
            && AcksFit(p.books, ids)
            && q.books == Reaped(DrainAll(p.books, ids, now), now, timeout)
            && q.pc == (if submit then Picking else Ready)
  {
    hide Runs, DrainedIds, OneItemEach, AcksFit, Reaped, DrainAll;
    var p1, p3 := Next(p, CallBooks(now, submit), timeout), Next(p2, AcksEmpty, timeout);
    OneItemStep(p, CallBooks(now, submit), timeout);
    DrainingAddsUp(p1, drain, p2, timeout);
    OneItemStep(p2, AcksEmpty, timeout);
    ReapingAddsUp(p3, reap, p4, timeout);
  }

  lemma OldestAckNamesWorker(p: Pool)
    requires OneItemEach(p) && p.acks != []
    ensures p.acks[0].id in p.books.workers
  {
    assert p.acks[0].id in p.threads;
  }

  // Picking or spawning is the dispatcher class's get_next_worker, and the next item
  // goes to that worker.
  lemma PickingAddsUp(p: Pool, s: Step, newId: Id, now: Time, timeout: nat)
    requires Enabled(p, s, timeout) && (s.PickIdle? || s == Spawn(newId, now))
    ensures var q := Next(p, s, timeout);
            var (books, w) := NextWorker(p.books, newId, now);
            q.books == books && q.pc == Sending(w, p.submitted) && q.submitted == p.submitted + 1
  {
  }

  // The acks pending at any time fit, and draining just those is a run.
  lemma {:induction false} PendingAcksDrain(p: Pool, timeout: nat) returns (steps: seq<Step>, q: Pool)
    requires OneItemEach(p) && p.pc.Draining?
    ensures Runs(p, steps, q, timeout) && forall i :: 0 <= i < |steps| ==> steps[i].DrainOne?
    ensures DrainedIds(p, steps, timeout) == Ids(p.acks) && q.acks == []
    ensures AcksFit(p.books, Ids(p.acks))
    decreases |p.acks|
  {
    hide Outstanding, OneItemEach, Drained, AcksFit;
    if p.acks == [] {
      steps, q := [], p;
      NothingFits(p.books);
    } else {
      OldestAckNamesWorker(p);
      DrainingStep(p, DrainOne, timeout);
      var m := Next(p, DrainOne, timeout);
      var rest;
      rest, q := PendingAcksDrain(m, timeout);
      steps := [DrainOne] + rest;
      assert steps[1..] == rest;
      assert Ids(p.acks) == [p.acks[0].id] + Ids(m.acks);
      FitsFirst(p.books, p.acks[0].id, Ids(m.acks), p.pc.now);
    }
  }

  // Reaping can always be run to its end.
  lemma {:induction false} ReapingEnds(p: Pool, timeout: nat) returns (steps: seq<Step>, q: Pool)
    requires OneItemEach(p) && p.pc.Reaping?
    ensures Runs(p, steps, q, timeout) && forall i :: 0 <= i < |steps| ==> steps[i].ReapOne?
    ensures Enabled(q, ReapDone, timeout)
    decreases |p.books.idle|
  {
    hide Outstanding, OneItemEach;
    if BackIsStale(p.books, p.pc.now, timeout) {
      ReapingStep(p, ReapOne, timeout);
      var rest;
      rest, q := ReapingEnds(Next(p, ReapOne, timeout), timeout);
      steps := [ReapOne] + rest;
      assert steps[1..] == rest;
    } else {
      steps, q := [], p;
    }
  }
}
