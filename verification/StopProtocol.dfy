/** The shutdown of the manager's worker: the thread that runs `find` in a loop and waits between two
    rounds on a condition variable, against the destructor that stops and joins it. Every step is one
    atomic action of one of the two threads; the trace interleaves them in any order. */
module StopProtocol {

  datatype Owner = Free | Worker | Destructor

  /** Where the worker stands in
      `do find(); while (active && timer.wait_for(t) && active)`. */
  datatype WorkerAt =
    | Ready                          // about to begin a round
    | Finding
    | FirstCheck                     // the first `active`
    | Locking                        // `wait_for` asks for the mutex
    | Testing                        // holds it, about to test `terminate`
    | Waiting                        // asleep, the mutex released
    | Waking(timedOut: bool)         // awake, asks for the mutex again
    | Retesting(timedOut: bool)      // holds it, about to test `terminate`
    | SecondCheck                    // the second `active`
    | Exited

  /** Where the destructor stands. */
  datatype DestructorAt =
    | Idle
    | Cleared                        // `active` is false, `kill` asks for the mutex
    | Holding                        // about to set `terminate`
    | Raised                         // about to notify
    | Notified                       // about to release the mutex
    | Joining
    | Joined

  /** `late` counts the rounds that began after `active` was cleared. */
  datatype State = State(w: WorkerAt, d: DestructorAt, active: bool, terminate: bool, mutex: Owner, late: nat)

  predicate Init(s: State) {
    s == State(Ready, Idle, true, false, Free, 0)
  }

  /** One step of the worker. */
  predicate WorkerStep(s: State, t: State) {
    match s.w
    case Ready => t == s.(w := Finding, late := if s.active then s.late else s.late + 1)
    case Finding => t == s.(w := FirstCheck)
    case FirstCheck => t == s.(w := if s.active then Locking else Exited)
    case Locking => s.mutex == Free && t == s.(w := Testing, mutex := Worker)
    case Testing => t == s.(w := if s.terminate then Exited else Waiting, mutex := Free)
    case Waiting => t == s.(w := Waking(false)) || t == s.(w := Waking(true))
    case Waking(timedOut) => s.mutex == Free && t == s.(w := Retesting(timedOut), mutex := Worker)
    case Retesting(timedOut) =>
      t == s.(w := if s.terminate then Exited else if timedOut then SecondCheck else Waiting, mutex := Free)
    case SecondCheck => t == s.(w := if s.active then Ready else Exited)
    case Exited => false
  }

  /** One step of the destructor; notifying wakes the worker if it sleeps. */
  predicate DestructorStep(s: State, t: State) {
    match s.d
    case Idle => t == s.(d := Cleared, active := false)
    case Cleared => s.mutex == Free && t == s.(d := Holding, mutex := Destructor)
    case Holding => t == s.(d := Raised, terminate := true)
    case Raised => t == s.(d := Notified, w := if s.w == Waiting then Waking(false) else s.w)
    case Notified => t == s.(d := Joining, mutex := Free)
    case Joining => s.w == Exited && t == s.(d := Joined)
    case Joined => false
  }

  predicate Next(s: State, t: State) {
    WorkerStep(s, t) || DestructorStep(s, t)
  }

  ghost predicate CanStep(s: State) {
    exists t :: Next(s, t)
  }

  ghost predicate Trace(states: seq<State>) {
    && states != [] && Init(states[0])
    && forall i :: 0 <= i < |states| - 1 ==> Next(states[i], states[i + 1])
  }

  // ---------------------------------------------------------------- safety

  predicate WorkerHolds(w: WorkerAt) {
    w == Testing || w.Retesting?
  }

  predicate DestructorHolds(d: DestructorAt) {
    d == Holding || d == Raised || d == Notified
  }

  predicate Killed(d: DestructorAt) {
    d == Notified || d == Joining || d == Joined
  }

  predicate Inv(s: State) {
    // The mutex excludes.
    && (s.mutex == Worker <==> WorkerHolds(s.w))
    && (s.mutex == Destructor <==> DestructorHolds(s.d))
    // The flags follow the destructor.
    && (s.active <==> s.d == Idle)
    && (s.terminate <==> s.d == Raised || Killed(s.d))
    // No wakeup is lost: once notified, the worker is not asleep.
    && (Killed(s.d) ==> s.w != Waiting)
    // One more round may begin, and none after it.
    && s.late <= 1
    && (s.late == 1 ==> !s.active && (s.w == Finding || s.w == FirstCheck || s.w == Exited))
    && (s.d == Joined ==> s.w == Exited)
    // The worker goes on as long as it is not told to stop.
    && (s.w == Exited ==> !s.active)
  }

  lemma StepKeeps(s: State, t: State)
    requires Inv(s) && Next(s, t)
    ensures Inv(t)
  {
  }

  lemma {:induction false} InvHolds(states: seq<State>, i: nat)
    requires Trace(states) && i < |states|
    ensures Inv(states[i])
  {
    hide Inv, Next;
    if i == 0 {
      Started(states[0]);
    } else {
      InvHolds(states, i - 1);
      assert Next(states[i - 1], states[i - 1 + 1]);
      StepKeeps(states[i - 1], states[i]);
    }
  }

  lemma Started(s: State)
    requires Init(s)
    ensures Inv(s)
  {
  }

  /** In every interleaving: once `kill` has notified, the worker never sleeps again; at most one
      round begins after `active` was cleared; and `join` returns only to an exited worker. */
  lemma StopIsSafe(states: seq<State>, i: nat)
    requires Trace(states) && i < |states|
    ensures Killed(states[i].d) ==> states[i].w != Waiting
    ensures states[i].late <= 1
    ensures states[i].d == Joined ==> states[i].w == Exited
  {
    InvHolds(states, i);
  }

  /** As long as `active` is set the worker does not exit. */
  lemma WorkerGoesOn(states: seq<State>, i: nat)
    requires Trace(states) && i < |states| && states[i].active
    ensures states[i].w != Exited && states[i].d == Idle && !states[i].terminate
  {
    InvHolds(states, i);
  }

  /** A wait that times out while `active` is set leads to another round: no step of the worker leads
      anywhere else. */
  lemma TimeoutStartsRound(s: State, t: State)
    requires Inv(s) && s.active && WorkerStep(s, t)
    ensures s.w == Waking(true) ==> t.w == Retesting(true)
    ensures s.w == Retesting(true) ==> t.w == SecondCheck
    ensures s.w == SecondCheck ==> t.w == Ready
    ensures s.w == Ready ==> t.w == Finding
    ensures t.active
  {
  }

  /** Any other waking while `active` is set leads back to the wait. */
  lemma SpuriousWakeWaits(s: State, t: State)
    requires Inv(s) && s.active && WorkerStep(s, t)
    ensures s.w == Waking(false) ==> t.w == Retesting(false)
    ensures s.w == Retesting(false) ==> t.w == Waiting
  {
  }

  // ---------------------------------------------------------------- progress

  function WorkerRank(w: WorkerAt): nat {
    match w
    case Ready => 3
    case Finding => 2
    case FirstCheck => 1
    case Locking => 2
    case Testing => 1
    case Waiting => 3
    case Waking(_) => 2
    case Retesting(_) => 1
    case SecondCheck => 1
    case Exited => 0
  }

  function DestructorRank(d: DestructorAt): nat {
    match d
    case Idle => 6
    case Cleared => 5
    case Holding => 4
    case Raised => 3
    case Notified => 2
    case Joining => 1
    case Joined => 0
  }

  function Rank(s: State): nat {
    WorkerRank(s.w) + DestructorRank(s.d)
  }

  /** From the moment `terminate` is set every step of either thread brings the end closer. */
  lemma RankFalls(s: State, t: State)
    requires Inv(s) && s.terminate && Next(s, t)
    ensures t.terminate && Rank(t) < Rank(s)
  {
  }

  /** Neither thread can be left waiting for the other: a step is possible until the join returned. */
  lemma NeverStuck(s: State)
    requires Inv(s) && s.d != Joined
    ensures CanStep(s)
  {
    var afterDestructor :=
      match s.d
      case Idle => s.(d := Cleared, active := false)
      case Cleared => s.(d := Holding, mutex := Destructor)
      case Holding => s.(d := Raised, terminate := true)
      case Raised => s.(d := Notified, w := if s.w == Waiting then Waking(false) else s.w)
      case Notified => s.(d := Joining, mutex := Free)
      case _ => s.(d := Joined);
    var afterWorker :=
      match s.w
      case Ready => s.(w := Finding, late := if s.active then s.late else s.late + 1)
      case Finding => s.(w := FirstCheck)
      case FirstCheck => s.(w := if s.active then Locking else Exited)
      case Locking => s.(w := Testing, mutex := Worker)
      case Testing => s.(w := if s.terminate then Exited else Waiting, mutex := Free)
      case Waiting => s.(w := Waking(false))
      case Waking(timedOut) => s.(w := Retesting(timedOut), mutex := Worker)
      case Retesting(timedOut) =>
        s.(w := if s.terminate then Exited else if timedOut then SecondCheck else Waiting, mutex := Free)
      case _ => s.(w := if s.active then Ready else Exited);
    assert Next(s, afterDestructor) || Next(s, afterWorker);
  }

  /** While the destructor waits for the mutex the worker cannot hold it for more than one step. */
  lemma MutexIsReleased(s: State, t: State)
    requires Inv(s) && s.d == Cleared && s.mutex == Worker && Next(s, t)
    ensures t.mutex == Free && t.d == Cleared
  {
  }

  lemma {:induction false} RankAlong(states: seq<State>, k: nat, i: nat)
    requires Trace(states) && k <= i < |states| && states[k].terminate
    ensures states[i].terminate && Rank(states[i]) + (i - k) <= Rank(states[k])
  {
    hide Next, Rank, Init;
    if k < i {
      RankAlong(states, k, i - 1);
      InvHolds(states, i - 1);
      assert Next(states[i - 1], states[i - 1 + 1]);
      RankFalls(states[i - 1], states[i]);
    }
  }

  /** From the moment `kill` sets `terminate` at most six more steps are taken, and where no further
      step is possible `join` has returned: the shutdown always completes, if `find` does. */
  lemma JoinReturns(states: seq<State>, k: nat)
    requires Trace(states) && k < |states| && states[k].terminate
    ensures |states| - 1 - k <= 6
    ensures !CanStep(states[|states| - 1]) ==> states[|states| - 1].d == Joined
  {
    hide Next, Init;
    var last := |states| - 1;
    RankAlong(states, k, last);
    InvHolds(states, k);
    RankBound(states[k]);
    InvHolds(states, last);
    if states[last].d != Joined {
      NeverStuck(states[last]);
    }
  }

  lemma RankBound(s: State)
    requires Inv(s) && s.terminate
    ensures Rank(s) <= 6
  {
  }
}
