/** The thread kernel as a step system: the scheduler, semaphores, locks and condition
    variables over any number of threads.  Each step runs with interrupts off up to the next
    point where the thread sleeps or time advances, so steps are the atoms of every
    interleaving. */
module Threads {
  import opened SortedList

  type Tid = nat

  /** Where a thread is: on the processor, on the ready list, finished, or on one wait queue.
      `Switching` is the moment inside `Yield` between leaving the processor and being put on
      the ready list. */
  datatype Place = Cpu | Ready | Switching | Finished | OnSem(s: nat) | OnLock(l: nat) | OnCond(c: nat)

  /** What a thread does next when it runs: anything, retest in `P`, or retest in `Acquire`
      (which is also where a thread woken in `Condition::Wait` continues). */
  datatype Pc = Free | InP(s: nat) | InAcquire(l: nat)

  /** `holds` are the locks the thread has acquired and not released. */
  datatype Thread = Thread(priority: int, place: Place, pc: Pc, holds: set<nat>)

  /** `vs` and `ps` count completed operations. */
  datatype Semaphore = Semaphore(value: int, initial: nat, vs: nat, ps: nat)

  datatype Lock = Lock(locked: bool, threadHeld: Tid)

  /** An entry of a queue: when the thread was put there, and its priority at that moment. */
  datatype Waiter = Waiter(tid: Tid, stamp: nat, priority: int)

  type Queue = seq<Keyed<Waiter>>

  datatype Kernel = Kernel(
    threads: seq<Thread>, queues: map<Place, Queue>, sems: seq<Semaphore>, locks: seq<Lock>, conds: nat, clock: nat)

  predicate IsPlace(k: Kernel, p: Place) {
    match p
    case OnSem(s) => s < |k.sems|
    case OnLock(l) => l < |k.locks|
    case OnCond(c) => c < k.conds
    case _ => true
  }

  /** Queues exist for exactly the places there are. */
  ghost predicate HasQueues(k: Kernel) {
    forall p :: IsPlace(k, p) <==> p in k.queues
  }

  /** A queue is ordered by key, and among equal keys by arrival. */
  ghost predicate Ordered(list: Queue) {
    forall i, j :: 0 <= i < j < |list| ==>
      list[i].0 < list[j].0 || (list[i].0 == list[j].0 && list[i].1.stamp < list[j].1.stamp)
  }

  /** The queue of place `p` is ordered, by priority when queued, and lists threads that are in
      `p`, each once. */
  ghost predicate QueueOk(list: Queue, threads: seq<Thread>, p: Place, clock: nat) {
    && Ordered(list)
    && (forall i :: 0 <= i < |list| ==> list[i].1.tid < |threads| && threads[list[i].1.tid].place == p)
    && (forall i :: 0 <= i < |list| ==> list[i].1.stamp < clock && list[i].0 == -list[i].1.priority)
    && (forall i, j :: 0 <= i < j < |list| ==> list[i].1.tid != list[j].1.tid)
  }

  ghost predicate Listed(list: Queue, t: Tid) {
    exists i :: 0 <= i < |list| && list[i].1.tid == t
  }

  /** Every thread is in exactly one place: the queue of its place lists it once, and since a
      queue lists only threads in its place, no other queue lists it.  One thread runs. */
  ghost predicate Placed(k: Kernel) {
    && HasQueues(k)
    && (forall p :: p in k.queues ==> QueueOk(k.queues[p], k.threads, p, k.clock))
    && (forall t :: 0 <= t < |k.threads| ==> k.threads[t].place in k.queues && Listed(k.queues[k.threads[t].place], t))
    && |k.queues[Cpu]| <= 1
  }

  // ---------------------------------------------------------------- moving threads

  function MovedTo(threads: seq<Thread>, t: Tid, q: Place): seq<Thread>
    requires t < |threads|
  {
    threads[t := threads[t].(place := q)]
  }

  /** The first thread of a queue. */
  ghost function First(k: Kernel, p: Place): (t: Tid)
    requires Placed(k) && p in k.queues && k.queues[p] != []
    ensures t < |k.threads| && k.threads[t].place == p
  {
    assert QueueOk(k.queues[p], k.threads, p, k.clock);
    k.queues[p][0].1.tid
  }

  /** Take the first thread of queue `p` and `SortedInsert` it into `q` by negated priority. */
  ghost function Move(k: Kernel, p: Place, q: Place): (r: Kernel)
    requires Placed(k) && p in k.queues && q in k.queues && p != q && k.queues[p] != []
  {
    var t := First(k, p);
    k.(queues := k.queues[p := k.queues[p][1..]]
                         [q := Insert(k.queues[q], -k.threads[t].priority, Waiter(t, k.clock, k.threads[t].priority))],
       threads := MovedTo(k.threads, t, q),
       clock := k.clock + 1)
  }

  lemma InsertEntries(list: Queue, key: int, w: Waiter)
    ensures var p, r := Position(list, key), Insert(list, key, w);
            && |r| == |list| + 1
            && forall i :: 0 <= i < |r| ==> r[i] == if i < p then list[i] else if i == p then (key, w) else list[i - 1]
  {
  }

  /** The index, before an insertion at `at`, of what is now at `i`. */
  function Before(at: nat, i: nat): (j: int)
    ensures i != at ==> 0 <= j && (j < at <==> i < at)
  {
    if i <= at then i else i - 1
  }

  /** `r` is `list` with `w` put in at index `at`, after every key that is not larger. */
  ghost predicate Inserted(list: Queue, r: Queue, at: nat, key: int, w: Waiter) {
    && at <= |list| && |r| == |list| + 1
    && r[at] == (key, w)
    && (forall i :: 0 <= i < |r| && i != at ==> r[i] == list[Before(at, i)])
    && (forall i :: 0 <= i < |list| ==> (list[i].0 <= key <==> i < at))
  }

  lemma InsertIsInserted(list: Queue, key: int, w: Waiter)
    requires Ordered(list)
    ensures Inserted(list, Insert(list, key, w), Position(list, key), key, w)
  {
    InsertEntries(list, key, w);
  }

  lemma InsertedOrdered(list: Queue, r: Queue, at: nat, key: int, w: Waiter)
    requires Ordered(list) && Inserted(list, r, at, key, w)
    requires forall i :: 0 <= i < |list| ==> list[i].1.stamp < w.stamp
    ensures Ordered(r)
  {
    forall i, j | 0 <= i < j < |r|
      ensures r[i].0 < r[j].0 || (r[i].0 == r[j].0 && r[i].1.stamp < r[j].1.stamp)
    {
      if i != at && j != at { assert Before(at, i) < Before(at, j); }
    }
  }

  lemma InsertedDistinct(list: Queue, r: Queue, at: nat, key: int, w: Waiter)
    requires Inserted(list, r, at, key, w)
    requires forall i :: 0 <= i < |list| ==> list[i].1.tid != w.tid
    requires forall i, j :: 0 <= i < j < |list| ==> list[i].1.tid != list[j].1.tid
    ensures forall i, j :: 0 <= i < j < |r| ==> r[i].1.tid != r[j].1.tid
  {
    forall i, j | 0 <= i < j < |r| ensures r[i].1.tid != r[j].1.tid {
      if i != at && j != at { assert Before(at, i) < Before(at, j); }
    }
  }

  lemma InsertedOk(list: Queue, r: Queue, at: nat, threads: seq<Thread>, q: Place, clock: nat, t: Tid, priority: int)
    requires QueueOk(list, threads, q, clock) && t < |threads| && threads[t].place != q
    requires Inserted(list, r, at, -priority, Waiter(t, clock, priority))
    ensures QueueOk(r, MovedTo(threads, t, q), q, clock + 1)
  {
    InsertedOrdered(list, r, at, -priority, Waiter(t, clock, priority));
    InsertedDistinct(list, r, at, -priority, Waiter(t, clock, priority));
    hide Ordered;
  }

  lemma InsertedListed(list: Queue, r: Queue, at: nat, key: int, w: Waiter, u: Tid)
    requires Inserted(list, r, at, key, w) && (Listed(list, u) || u == w.tid)
    ensures Listed(r, u)
  {
    if u == w.tid {
      assert r[at].1.tid == u;
    } else {
      var i :| 0 <= i < |list| && list[i].1.tid == u;
      assert r[if i < at then i else i + 1].1.tid == u;
    }
  }

  lemma InsertOk(list: Queue, threads: seq<Thread>, q: Place, clock: nat, t: Tid, priority: int)
    requires QueueOk(list, threads, q, clock) && t < |threads| && threads[t].place != q
    ensures QueueOk(Insert(list, -priority, Waiter(t, clock, priority)), MovedTo(threads, t, q), q, clock + 1)
    ensures Listed(Insert(list, -priority, Waiter(t, clock, priority)), t)
    ensures forall u :: Listed(list, u) ==> Listed(Insert(list, -priority, Waiter(t, clock, priority)), u)
  {
    hide Insert, Position, Inserted, Listed, Ordered;
    var w, key := Waiter(t, clock, priority), -priority;
    InsertIsInserted(list, key, w);
    InsertedOk(list, Insert(list, key, w), Position(list, key), threads, q, clock, t, priority);
    InsertedListed(list, Insert(list, key, w), Position(list, key), key, w, t);
    forall u | Listed(list, u) ensures Listed(Insert(list, key, w), u) {
      InsertedListed(list, Insert(list, key, w), Position(list, key), key, w, u);
    }
  }

  lemma PopOk(list: Queue, threads: seq<Thread>, p: Place, clock: nat, q: Place)
    requires QueueOk(list, threads, p, clock) && list != []
    ensures QueueOk(list[1..], MovedTo(threads, list[0].1.tid, q), p, clock + 1)
    ensures forall u :: Listed(list, u) && u != list[0].1.tid ==> Listed(list[1..], u)
  {
    forall u | Listed(list, u) && u != list[0].1.tid ensures Listed(list[1..], u) {
      var i :| 0 <= i < |list| && list[i].1.tid == u;
      assert list[1..][i - 1].1.tid == u;
    }
  }

  lemma OtherOk(list: Queue, threads: seq<Thread>, r: Place, clock: nat, t: Tid, q: Place)
    requires QueueOk(list, threads, r, clock) && t < |threads| && threads[t].place != r
    ensures QueueOk(list, MovedTo(threads, t, q), r, clock + 1)
  {
  }

  /** Moving a thread between queues leaves every thread in exactly one place. */
  lemma MoveKeeps(k: Kernel, p: Place, q: Place)
    requires Placed(k) && p in k.queues && q in k.queues && p != q && k.queues[p] != []
    requires q == Cpu ==> k.queues[Cpu] == []
    ensures Placed(Move(k, p, q))
  {
    hide QueueOk, Listed, Insert;
    var t, k' := First(k, p), Move(k, p, q);
    var priority := k.threads[t].priority;
    forall r | r in k'.queues ensures QueueOk(k'.queues[r], k'.threads, r, k'.clock) {
      if r == q {
        InsertOk(k.queues[q], k.threads, q, k.clock, t, priority);
      } else if r == p {
        PopOk(k.queues[p], k.threads, p, k.clock, q);
      } else {
        OtherOk(k.queues[r], k.threads, r, k.clock, t, q);
      }
    }
    InsertOk(k.queues[q], k.threads, q, k.clock, t, priority);
    PopOk(k.queues[p], k.threads, p, k.clock, q);
  }

  /** The front of a queue has the highest priority of those recorded when they were queued, and
      among those of that priority it was queued first. */
  ghost predicate IsBest(e: Keyed<Waiter>, list: Queue) {
    forall i :: 0 <= i < |list| && list[i] != e ==>
      e.1.priority > list[i].1.priority || (e.1.priority == list[i].1.priority && e.1.stamp < list[i].1.stamp)
  }

  lemma FrontIsBest(list: Queue, threads: seq<Thread>, p: Place, clock: nat)
    requires QueueOk(list, threads, p, clock) && list != []
    ensures IsBest(list[0], list)
  {
  }
}
