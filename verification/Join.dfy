/** `Thread::Join` against the `Finish` of a joinable child, over the child's own lock and its
    one condition variable, in every interleaving. */
module Join {
  import opened SortedList

  datatype Who = Child | Joiner

  /** What a thread does next.  `Begin` is before `Finish` or `Join` is called; the `Reacquire`
      points are inside `Condition::Wait`, whose last act is to acquire the lock again. */
  datatype Pc =
    | Begin | Enter
    // Finish
    | Test | LoopSignal | LoopWait | LoopReacquire | LoopSignalAgain | LeaveSignal | LeaveWait | LeaveReacquire
    | FinishRelease | Mark | Marked
    // Join
    | SetReady | WakeChild | JoinWait | JoinReacquire | PermitSignal | JoinRelease | Returned

  /** Asleep on the lock's queue, asleep on the condition's queue, or able to run. */
  datatype Status = Runnable | OnLock | OnCond

  datatype Thread = Thread(pc: Pc, status: Status, priority: int)

  datatype Option<T> = None | Some(value: T)

  type Queue = seq<Keyed<Who>>

  datatype State = State(child: Thread, joiner: Thread, holder: Option<Who>, lockQueue: Queue, condQueue: Queue, readyToJoin: bool)

  function Get(s: State, w: Who): Thread {
    if w == Child then s.child else s.joiner
  }

  function Put(s: State, w: Who, t: Thread): State {
    if w == Child then s.(child := t) else s.(joiner := t)
  }

  function Goto(s: State, w: Who, pc: Pc): State {
    Put(s, w, Get(s, w).(pc := pc))
  }

  function SetStatus(s: State, w: Who, status: Status): State {
    Put(s, w, Get(s, w).(status := status))
  }

  // ---------------------------------------------------------------- the primitives

  /** One turn of the loop in `Lock::Acquire`: sleep, or take the lock and go on. */
  function Acquire(s: State, w: Who, next: Pc): State {
    if s.holder.Some? then
      SetStatus(s, w, OnLock).(lockQueue := Insert(s.lockQueue, -Get(s, w).priority, w))
    else Goto(s, w, next).(holder := Some(w))
  }

  function Release(s: State): State {
    var woken := if s.lockQueue == [] then s
                 else SetStatus(s, s.lockQueue[0].1, Runnable).(lockQueue := s.lockQueue[1..]);
    woken.(holder := None)
  }

  function Signal(s: State): State {
    if s.condQueue == [] then s
    else SetStatus(s, s.condQueue[0].1, Runnable).(condQueue := s.condQueue[1..])
  }

  /** `Condition::Wait` up to the sleep. */
  function Wait(s: State, w: Who): State {
    var released := Release(s);
    SetStatus(released, w, OnCond).(condQueue := Insert(s.condQueue, -Get(s, w).priority, w))
  }

  /** The next step of thread `w`; the last two program points have none. */
  function Step(s: State, w: Who): State {
    match Get(s, w).pc
    case Begin => Goto(s, w, Enter)
    case Enter => Acquire(s, w, if w == Child then Test else SetReady)
    case Test => Goto(s, w, if s.readyToJoin then LeaveSignal else LoopSignal)
    case LoopSignal => Goto(Signal(s), w, LoopWait)
    case LoopWait => Goto(Wait(s, w), w, LoopReacquire)
    case LoopReacquire => Acquire(s, w, LoopSignalAgain)
    case LoopSignalAgain => Goto(Signal(s), w, Test)
    case LeaveSignal => Goto(Signal(s), w, LeaveWait)
    case LeaveWait => Goto(Wait(s, w), w, LeaveReacquire)
    case LeaveReacquire => Acquire(s, w, FinishRelease)
    case FinishRelease => Goto(Release(s), w, Mark)
    case Mark => Goto(s, w, Marked)
    case SetReady => Goto(s, w, WakeChild).(readyToJoin := true)
    case WakeChild => Goto(Signal(s), w, JoinWait)
    case JoinWait => Goto(Wait(s, w), w, JoinReacquire)
    case JoinReacquire => Acquire(s, w, PermitSignal)
    case PermitSignal => Goto(Signal(s), w, JoinRelease)
    case JoinRelease => Goto(Release(s), w, Returned)
    case _ => s
  }

  predicate CanStep(s: State, w: Who) {
    Get(s, w).status == Runnable && Get(s, w).pc != Marked && Get(s, w).pc != Returned
  }

  /** `Finish` not yet called, `Join` not yet called; priorities are arbitrary. */
  predicate Init(s: State) {
    && s.child.pc == Begin && s.joiner.pc == Begin && s.child.status == Runnable && s.joiner.status == Runnable
    && s.holder == None && s.lockQueue == [] && s.condQueue == [] && !s.readyToJoin
  }

  // ---------------------------------------------------------------- the assertions in the code

  predicate ChildHolds(pc: Pc) {
    pc in {Test, LoopSignal, LoopWait, LoopSignalAgain, LeaveSignal, LeaveWait, FinishRelease}
  }

  predicate JoinerHolds(pc: Pc) {
    pc in {SetReady, WakeChild, JoinWait, PermitSignal, JoinRelease}
  }

  /** The assertions met by `w`'s next step: `Acquire` is not called by the holder; `Release`,
      `Wait` and `Signal` are called by the holder only; `Join` is not called twice. */
  predicate Asserted(s: State, w: Who) {
    var pc := Get(s, w).pc;
    && (pc in {Enter, LoopReacquire, LeaveReacquire, JoinReacquire} ==> s.holder != Some(w))
    && (pc in {LoopSignal, LoopWait, LoopSignalAgain, LeaveSignal, LeaveWait, FinishRelease} ==> s.holder == Some(w))
    && (pc in {WakeChild, JoinWait, PermitSignal, JoinRelease} ==> s.holder == Some(w))
    && (w == Joiner && pc == Begin ==> !s.readyToJoin)
  }

  // ---------------------------------------------------------------- the invariant

  /** Program points where a thread may sleep. */
  predicate MaySleep(t: Thread) {
    && (t.status == OnLock ==> t.pc in {Enter, LoopReacquire, LeaveReacquire, JoinReacquire})
    && (t.status == OnCond ==> t.pc in {LoopReacquire, LeaveReacquire, JoinReacquire})
  }

  predicate OneOn(q: Queue, child: bool, joiner: bool) {
    if child then !joiner && |q| == 1 && q[0].1 == Child
    else if joiner then |q| == 1 && q[0].1 == Joiner
    else q == []
  }

  /** The queues list exactly the sleepers, never both threads on one queue; the lock is held
      by the thread whose program point says so; whoever sleeps on the lock waits for the
      other. */
  predicate Shape(s: State) {
    && MaySleep(s.child) && MaySleep(s.joiner)
    && s.child.pc !in {SetReady, WakeChild, JoinWait, JoinReacquire, PermitSignal, JoinRelease, Returned}
    && (s.joiner.pc in {Begin, Enter, JoinReacquire, Returned} || JoinerHolds(s.joiner.pc))
    && OneOn(s.lockQueue, s.child.status == OnLock, s.joiner.status == OnLock)
    && OneOn(s.condQueue, s.child.status == OnCond, s.joiner.status == OnCond)
    && (s.holder == Some(Child) <==> ChildHolds(s.child.pc))
    && (s.holder == Some(Joiner) <==> JoinerHolds(s.joiner.pc))
    && (s.child.status == OnLock ==> s.holder == Some(Joiner))
    && (s.joiner.status == OnLock ==> s.holder == Some(Child))
  }

  /** How far the two can be apart: each row says, for a point of the child, where the joiner is. */
  predicate Together(s: State) {
    var j := s.joiner;
    var unset := j.pc in {Begin, Enter, SetReady};
    var before := unset || j.pc == WakeChild;
    var asleep := j.pc == JoinReacquire && j.status == OnCond;
    var woken := j.pc == JoinReacquire && j.status != OnCond;
    && (s.readyToJoin <==> !unset)
    && match s.child.pc
       case Begin => before || j.pc == JoinWait || asleep
       case Enter => before || j.pc == JoinWait || asleep
       case Test => unset || asleep || woken
       case LoopSignal => unset
       case LoopWait => unset
       case LoopReacquire => if s.child.status == OnCond then before else j.pc == JoinWait || asleep
       case LoopSignalAgain => asleep
       case LeaveSignal => asleep || woken
       case LeaveWait => woken
       case LeaveReacquire => if s.child.status == OnCond then woken || j.pc == PermitSignal else j.pc in {JoinRelease, Returned}
       case _ => j.pc == Returned
  }

  predicate Inv(s: State) {
    Shape(s) && Together(s)
  }

  // Acquiring, releasing, waiting and signalling in states of this shape.

  lemma InsertIntoEmpty(key: int, w: Who)
    ensures Insert([], key, w) == [(key, w)]
  {
  }

  /** A signal wakes the other thread if it sleeps on the condition, and no one otherwise. */
  lemma SignalWakesOther(s: State, w: Who)
    requires Shape(s) && s.holder == Some(w)
    ensures var other := if w == Child then Joiner else Child;
            Signal(s) == if Get(s, other).status == OnCond then SetStatus(s, other, Runnable).(condQueue := []) else s
  {
  }

  /** A release frees the lock and wakes the other thread if it sleeps on the lock. */
  lemma ReleaseWakesOther(s: State, w: Who)
    requires Shape(s) && s.holder == Some(w)
    ensures var other := if w == Child then Joiner else Child;
            Release(s) == (if Get(s, other).status == OnLock then SetStatus(s, other, Runnable).(lockQueue := []) else s).(holder := None)
  {
  }

  lemma SomeoneHolds(s: State)
    ensures s.holder == None || s.holder == Some(Child) || s.holder == Some(Joiner)
  {
    if s.holder.Some? {
      match s.holder.value
      case Child =>
      case Joiner =>
    }
  }

  lemma AcquireKeeps(s: State, w: Who)
    requires Inv(s) && CanStep(s, w)
    requires Get(s, w).pc == Enter || Get(s, w).pc == LoopReacquire || Get(s, w).pc == LeaveReacquire || Get(s, w).pc == JoinReacquire
    ensures Inv(Step(s, w)) && Asserted(s, w)
  {
    hide Insert;
    SomeoneHolds(s);
    InsertIntoEmpty(-Get(s, w).priority, w);
  }

  lemma SignalKeeps(s: State, w: Who)
    requires Inv(s) && CanStep(s, w)
    requires var pc := Get(s, w).pc; pc == LoopSignal || pc == LoopSignalAgain || pc == LeaveSignal || pc == WakeChild || pc == PermitSignal
    ensures Inv(Step(s, w)) && Asserted(s, w)
  {
    hide Signal;
    SignalWakesOther(s, w);
  }

  /** Where a wait leads: the lock is free, and the waiter alone on the condition's queue. */
  lemma WaitSleeps(s: State, w: Who)
    requires Inv(s) && CanStep(s, w)
    requires Get(s, w).pc == LoopWait || Get(s, w).pc == LeaveWait || Get(s, w).pc == JoinWait
    ensures Asserted(s, w) && s.condQueue == []
    ensures var other := if w == Child then Joiner else Child;
            var woken := if Get(s, other).status == OnLock then SetStatus(s, other, Runnable).(lockQueue := []) else s;
            Wait(s, w) == SetStatus(woken.(holder := None), w, OnCond).(condQueue := [(-Get(s, w).priority, w)])
  {
    hide Release, Insert;
    ReleaseWakesOther(s, w);
    InsertIntoEmpty(-Get(s, w).priority, w);
  }

  lemma WaitKeeps(s: State, w: Who)
    requires Inv(s) && CanStep(s, w)
    requires Get(s, w).pc == LoopWait || Get(s, w).pc == LeaveWait || Get(s, w).pc == JoinWait
    ensures Inv(Step(s, w)) && Asserted(s, w)
  {
    hide Wait;
    WaitSleeps(s, w);
  }

  lemma ReleaseKeeps(s: State, w: Who)
    requires Inv(s) && CanStep(s, w)
    requires Get(s, w).pc == FinishRelease || Get(s, w).pc == JoinRelease
    ensures Inv(Step(s, w)) && Asserted(s, w)
  {
    hide Release;
    ReleaseWakesOther(s, w);
  }

  lemma PlainKeeps(s: State, w: Who)
    requires Inv(s) && CanStep(s, w)
    requires var pc := Get(s, w).pc; pc == Begin || pc == Test || pc == Mark || pc == SetReady
    ensures Inv(Step(s, w)) && Asserted(s, w)
  {
  }

  /** Every step keeps the invariant and passes the assertions in its way. */
  lemma StepKeeps(s: State, w: Who)
    requires Inv(s) && CanStep(s, w)
    ensures Inv(Step(s, w)) && Asserted(s, w)
  {
    hide Inv, Step, Asserted;
    match Get(s, w).pc
    case Enter | LoopReacquire | LeaveReacquire | JoinReacquire => AcquireKeeps(s, w);
    case LoopSignal | LoopSignalAgain | LeaveSignal | WakeChild | PermitSignal => SignalKeeps(s, w);
    case LoopWait | LeaveWait | JoinWait => WaitKeeps(s, w);
    case FinishRelease | JoinRelease => ReleaseKeeps(s, w);
    case _ => PlainKeeps(s, w);
  }

  // ---------------------------------------------------------------- termination

  /** A bound on the steps a thread has left, not counting failed attempts at the lock. */
  function Left(pc: Pc, readyToJoin: bool): nat {
    match pc
    case Begin => 14
    case Enter => 13
    case Test => if readyToJoin then 7 else 12
    case LoopSignal => 11
    case LoopWait => 10
    case LoopReacquire => 9
    case LoopSignalAgain => 8
    case LeaveSignal => 6
    case LeaveWait => 5
    case LeaveReacquire => 4
    case FinishRelease => 3
    case Mark => 2
    case SetReady => 6
    case WakeChild => 5
    case JoinWait => 4
    case JoinReacquire => 3
    case PermitSignal => 2
    case JoinRelease => 1
    case _ => 0
  }

  function Awake(t: Thread): nat {
    if t.status == Runnable then 1 else 0
  }

  function Rank(s: State): nat {
    2 * Left(s.child.pc, s.readyToJoin) + 2 * Left(s.joiner.pc, s.readyToJoin) + Awake(s.child) + Awake(s.joiner)
  }

  lemma ChildDescends(s: State)
    requires Inv(s) && CanStep(s, Child)
    ensures Rank(Step(s, Child)) < Rank(s)
  {
    hide Release, Signal, Insert, OneOn, MaySleep;
    if s.holder == Some(Child) {
      SignalWakesOther(s, Child);
      ReleaseWakesOther(s, Child);
    }
  }

  lemma JoinerDescends(s: State)
    requires Inv(s) && CanStep(s, Joiner)
    ensures Rank(Step(s, Joiner)) < Rank(s)
  {
    hide Release, Signal, Insert, OneOn, MaySleep, Together;
    if s.holder == Some(Joiner) {
      SignalWakesOther(s, Joiner);
      ReleaseWakesOther(s, Joiner);
    }
  }

  /** Every step brings the pair closer to the end: the loop in `Finish` turns at most once, and
      a thread that loses the race for the lock sleeps until the holder has moved on. */
  lemma StepDescends(s: State, w: Who)
    requires Inv(s) && CanStep(s, w)
    ensures Rank(Step(s, w)) < Rank(s)
  {
    hide Inv, Step, Rank, CanStep;
    match w
    case Child => ChildDescends(s);
    case Joiner => JoinerDescends(s);
  }

  /** The pair never deadlocks: until the child is marked and `Join` has returned, one of them
      can run. */
  lemma NoDeadlock(s: State)
    requires Inv(s) && !CanStep(s, Child) && !CanStep(s, Joiner)
    ensures s.child.pc == Marked && s.joiner.pc == Returned
  {
  }

  // ---------------------------------------------------------------- every interleaving

  /** The state after the threads step in the order `who` gives. */
  ghost predicate IsRun(states: seq<State>, who: seq<Who>) {
    && |states| == |who| + 1
    && Init(states[0])
    && forall i :: 0 <= i < |who| ==> CanStep(states[i], who[i]) && states[i + 1] == Step(states[i], who[i])
  }

  lemma {:induction false} RunKeeps(states: seq<State>, who: seq<Who>, n: nat)
    requires IsRun(states, who) && n <= |who|
    ensures Inv(states[n]) && n + Rank(states[n]) <= Rank(states[0])
  {
    hide Step, CanStep, Rank;
    if n > 0 {
      RunKeeps(states, who, n - 1);
      assert states[n - 1 + 1] == Step(states[n - 1], who[n - 1]);
      StepKeeps(states[n - 1], who[n - 1]);
      StepDescends(states[n - 1], who[n - 1]);
    }
  }

  /** In every interleaving: `Join` returns only after the child has entered `Finish` and left
      its loop; the child reaches the point where it marks itself for destruction only after
      `Join` has returned, so after the joiner's last signal and release; from then on the lock
      is free and both queues are empty, which is what the destructors of the lock and of the
      condition demand; and every assertion on the way holds. */
  lemma JoinIsSafe(states: seq<State>, who: seq<Who>, n: nat)
    requires IsRun(states, who) && n <= |who|
    ensures states[n].joiner.pc == Returned ==> states[n].child.pc in {LeaveReacquire, FinishRelease, Mark, Marked}
    ensures states[n].child.pc in {Mark, Marked} ==> states[n].joiner.pc == Returned
    ensures states[n].child.pc in {Mark, Marked} ==> states[n].holder == None && states[n].lockQueue == [] && states[n].condQueue == []
    ensures n < |who| ==> Asserted(states[n], who[n])
  {
    hide Step, Asserted;
    RunKeeps(states, who, n);
    SomeoneHolds(states[n]);
    if n < |who| { StepKeeps(states[n], who[n]); }
  }

  /** Every interleaving ends, within 58 steps; and one that cannot be continued has both
      threads at their end. */
  lemma JoinTerminates(states: seq<State>, who: seq<Who>)
    requires IsRun(states, who)
    ensures |who| <= 58
    ensures var last := states[|who|];
            !CanStep(last, Child) && !CanStep(last, Joiner) ==> last.child.pc == Marked && last.joiner.pc == Returned
  {
    hide Step;
    RunKeeps(states, who, |who|);
    var last := states[|who|];
    if !CanStep(last, Child) && !CanStep(last, Joiner) { NoDeadlock(last); }
  }
}
