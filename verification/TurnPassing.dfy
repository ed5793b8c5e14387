/** The threads of assignments/a2/scheduling_rr/main.c: one scheduler and n workers that pass a turn
    back and forth with one mutex and two condition variables. Every interleaving of their steps is
    a run of this machine; condition variables may wake a waiter spuriously. */
module TurnPassing {
  import opened Basics
  import opened RoundRobin

  /** Where a worker stands in `rr_thread`. */
  datatype WorkerPc =
    | Entering                // about to take the mutex for the first time
    | StartCheck              // holds the mutex, tests `all_started`
    | StartWait | StartWoken  // waiting on cv_turn for the start; woken and wanting the mutex
    | TurnCheck               // holds the mutex, at the head of its loop
    | TurnWait | TurnWoken    // waiting on cv_turn for its turn; woken and wanting the mutex
    | Working(slice: int)     // the unlocked work section
    | Relock(slice: int)      // work done, wants the mutex
    | Exited

  /** Where the scheduler stands in `main`; `p` is the thread it has picked. */
  datatype SchedPc =
    | Starting                              // about to take the mutex
    | Loop                                  // holds the mutex, at the head of the scheduling loop
    | DoneCheck(p: int)                     // holds the mutex, tests `slice_done`
    | DoneWait(p: int) | DoneWoken(p: int)  // waiting on cv_done; woken and wanting the mutex
    | Joining                               // after `stop`, mutex released
    | Joined

  datatype Holder = Nobody | Scheduler | Worker(k: int)

  datatype Threads = Threads(
    lock: Holder, sched: SchedPc, workers: seq<WorkerPc>,
    now: int, i: int, rem: seq<int>, finish: seq<int>, finished: int,
    turn: int, grant: int, consumed: int, sliceDone: bool, allStarted: bool, stop: bool)

  datatype Action =
    | WorkerLock(k: int)      // a worker acquires the mutex
    | WorkerRun(k: int)       // a worker that holds it runs to its next release or wait
    | WorkerWorked(k: int)    // a worker ends its unlocked work
    | SchedLock | SchedRun | SchedJoin
    | SpuriousWorker(k: int) | SpuriousSched

  predicate IsSpurious(a: Action) {
    a.SpuriousWorker? || a.SpuriousSched?
  }

  function InitThreads(inp: Input): Threads {
    Threads(Nobody, Starting, seq(|inp.bt|, _ => Entering),
            0, 0, inp.bt, seq(|inp.bt|, _ => -1), 0, -1, 0, 0, false, false, false)
  }

  predicate Enabled(m: Threads, a: Action) {
    match a
    case WorkerLock(k) =>
      0 <= k < |m.workers| && m.lock == Nobody &&
      (m.workers[k] in {Entering, StartWoken, TurnWoken} || m.workers[k].Relock?)
    case WorkerRun(k) => 0 <= k < |m.workers| && m.lock == Worker(k)
    case WorkerWorked(k) => 0 <= k < |m.workers| && m.workers[k].Working?
    case SchedLock => m.lock == Nobody && (m.sched.Starting? || m.sched.DoneWoken?)
    case SchedRun => m.lock == Scheduler
    case SchedJoin => m.sched.Joining? && forall k :: 0 <= k < |m.workers| ==> m.workers[k] == Exited
    case SpuriousWorker(k) => 0 <= k < |m.workers| && (m.workers[k] == StartWait || m.workers[k] == TurnWait)
    case SpuriousSched => m.sched.DoneWait?
  }

  function Wake(w: WorkerPc): WorkerPc {
    if w == StartWait then StartWoken else if w == TurnWait then TurnWoken else w
  }

  /** `pthread_cond_broadcast(&cv_turn)`. */
  function Broadcast(ws: seq<WorkerPc>): seq<WorkerPc> {
    seq(|ws|, k requires 0 <= k < |ws| => Wake(ws[k]))
  }

  /** `pthread_cond_signal(&cv_done)`: the scheduler is the only waiter there can be. */
  function SignalDone(s: SchedPc): SchedPc {
    if s.DoneWait? then DoneWoken(s.p) else s
  }

  /** A worker hands the turn back. */
  function HandBack(m: Threads, consumed: int): Threads {
    m.(consumed := consumed, turn := -1, sliceDone := true, sched := SignalDone(m.sched))
  }

  function Clamp(grant: int, rem: int): int {
    var slice := if grant <= 0 then 1 else grant;
    if slice > rem then rem else slice
  }

  /** The body of the worker's loop, with the mutex held. */
  function TurnLoop(m: Threads, k: int): Threads
    requires 0 <= k < |m.workers| && k < |m.rem|
  {
    if !m.stop && m.turn != k then m.(workers := m.workers[k := TurnWait], lock := Nobody)
    else if m.stop then m.(workers := m.workers[k := Exited], lock := Nobody)
    else if m.rem[k] <= 0 then HandBack(m, 0)
    else m.(workers := m.workers[k := Working(Clamp(m.grant, m.rem[k]))], lock := Nobody)
  }

  /** The scheduling loop from its head to its next wait or its end, with the mutex held. */
  function SchedLoop(inp: Input, m: Threads): Threads
    requires |m.rem| == |m.finish| == |inp.at| && 0 <= m.i < |m.rem|
  {
    if m.finished >= |m.rem| then
      m.(stop := true, workers := Broadcast(m.workers), lock := Nobody, sched := Joining)
    else match Pick(inp, m.rem, m.now, m.i, |m.rem|)
      case None =>
        var next := NextArrival(inp, m.rem, |m.rem|);
        if next > m.now then m.(now := next) else m
      case Some(p) =>
        if 0 <= p < |m.rem| then
          m.(turn := p, grant := Min(m.rem[p], inp.q), sliceDone := false,
             workers := Broadcast(m.workers), sched := DoneCheck(p))
        else m
  }

  /** After the wait for the slice. */
  function SliceEnd(m: Threads, p: int): Threads
    requires 0 <= p < |m.rem| == |m.finish|
  {
    if !m.sliceDone then m.(sched := DoneWait(p), lock := Nobody)
    else
      var now := m.now + m.consumed;
      var fin := m.rem[p] == 0 && m.finish[p] == -1;
      m.(now := now, finish := if fin then m.finish[p := now] else m.finish,
         finished := if fin then m.finished + 1 else m.finished,
         i := (p + 1) % |m.rem|, sched := Loop)
  }

  predicate Formed(inp: Input, m: Threads) {
    && Accepted(inp) && |m.workers| == |m.rem| == |m.finish| == |inp.at| && 0 <= m.i < |m.rem|
    && (m.sched.DoneCheck? || m.sched.DoneWait? || m.sched.DoneWoken? ==> 0 <= m.sched.p < |m.rem|)
  }

  /** One step of the machine. */
  function Do(inp: Input, m: Threads, a: Action): Threads
    requires Formed(inp, m) && Enabled(m, a)
  {
    match a
    case WorkerLock(k) =>
      var w := m.workers[k];
      var locked := m.(lock := Worker(k));
      if w == Entering || w == StartWoken then locked.(workers := m.workers[k := StartCheck])
      else if w == TurnWoken then locked.(workers := m.workers[k := TurnCheck])
      else HandBack(locked.(rem := m.rem[k := m.rem[k] - w.slice], workers := m.workers[k := TurnCheck]), w.slice)
    case WorkerRun(k) =>
      if m.workers[k] == StartCheck then
        if m.allStarted then m.(workers := m.workers[k := TurnCheck])
        else m.(workers := m.workers[k := StartWait], lock := Nobody)
      else TurnLoop(m, k)
    case WorkerWorked(k) => m.(workers := m.workers[k := Relock(m.workers[k].slice)])
    case SchedLock =>
      if m.sched.Starting? then m.(allStarted := true, workers := Broadcast(m.workers), sched := Loop, lock := Scheduler)
      else m.(sched := DoneCheck(m.sched.p), lock := Scheduler)
    case SchedRun =>
      if m.sched.DoneCheck? then SliceEnd(m, m.sched.p) else SchedLoop(inp, m)
    case SchedJoin => m.(sched := Joined)
    case SpuriousWorker(k) => m.(workers := m.workers[k := Wake(m.workers[k])])
    case SpuriousSched => m.(sched := SignalDone(m.sched))
  }

  // ---------- the invariant of every reachable state ----------

  predicate Busied(w: WorkerPc) {
    w.Working? || w.Relock?
  }

  predicate Started(w: WorkerPc) {
    w in {TurnCheck, TurnWait, TurnWoken, Exited} || Busied(w)
  }

  predicate Granted(m: Threads) {
    m.sched.DoneCheck? || m.sched.DoneWait? || m.sched.DoneWoken?
  }

  /** Mutual exclusion: the holder is the one thread whose position says it holds the mutex. */
  ghost predicate Exclusive(m: Threads) {
    && (m.lock == Scheduler <==> m.sched == Loop || m.sched.DoneCheck?)
    && (m.lock.Worker? ==> 0 <= m.lock.k < |m.workers|)
    && (forall k :: 0 <= k < |m.workers| ==>
          (m.lock == Worker(k) <==> m.workers[k] == StartCheck || m.workers[k] == TurnCheck))
  }

  /** The start barrier and the stop flag. */
  ghost predicate Flags(m: Threads) {
    && (m.allStarted <==> m.sched != Starting)
    && (m.stop <==> m.sched == Joining || m.sched == Joined)
    && (forall k :: 0 <= k < |m.workers| ==>
          && (Started(m.workers[k]) ==> m.allStarted) && (m.workers[k] == Exited ==> m.stop)
          && (m.sched == Joined ==> m.workers[k] == Exited))
  }

  /** No lost wakeup: whoever waits, waits for something that has not happened yet. */
  ghost predicate Awake(m: Threads) {
    && (m.sched.DoneWait? ==> !m.sliceDone)
    && (forall k :: 0 <= k < |m.workers| ==>
          && (m.workers[k] == StartWait ==> !m.allStarted)
          && (m.workers[k] == TurnWait ==> !m.stop && m.turn != k))
  }

  /** Whose turn it is: at most one worker works, it is the one the scheduler picked and `turn` names,
      its slice is exactly the grant, and a grant is consumed exactly once. */
  ghost predicate Turns(m: Threads) {
    if Granted(m) then
      var p := m.sched.p;
      && 0 <= p < |m.workers| == |m.rem|
      && m.grant >= 1
      && (if m.sliceDone then m.turn == -1 && m.consumed == m.grant && m.rem[p] >= 0 && !Busied(m.workers[p])
          else m.turn == p && m.grant <= m.rem[p] &&
               (Busied(m.workers[p]) ==> m.workers[p].slice == m.grant))
      && (forall k :: 0 <= k < |m.workers| && k != p ==> !Busied(m.workers[k]))
    else
      m.turn == -1 && forall k :: 0 <= k < |m.workers| ==> !Busied(m.workers[k])
  }

  ghost predicate Control(m: Threads) {
    Exclusive(m) && Flags(m) && Awake(m) && Turns(m)
  }

  /** The scheduler's state as the sequential loop sees it: a slice counts when the loop has read it. */
  function Abs(m: Threads): State {
    var rem := if Granted(m) && 0 <= m.sched.p < |m.rem| && m.sliceDone
               then m.rem[m.sched.p := m.rem[m.sched.p] + m.grant] else m.rem;
    State(m.now, m.i, rem, m.finish)
  }

  /** The threads carry out the sequential schedule: after `c` iterations, and on the way to the next. */
  ghost predicate Follows(inp: Input, m: Threads, c: nat)
    requires Accepted(inp)
  {
    var s := Abs(m);
    && s == Run(inp, c)
    && m.finished == Finished(s.finish, |s.finish|)
    && (Granted(m) ==> Pick(inp, s.rem, s.now, s.i, |s.rem|) == Some(m.sched.p) && 0 <= m.sched.p < |s.rem|
                       && m.grant == Min(s.rem[m.sched.p], inp.q))
    && (m.stop ==> AllDone(s))
  }

  ghost predicate Safe(inp: Input, m: Threads) {
    Formed(inp, m) && Control(m) && exists c: nat :: Follows(inp, m, c)
  }

  lemma InitIsSafe(inp: Input)
    requires Accepted(inp)
    ensures Safe(inp, InitThreads(inp))
  {
    var m := InitThreads(inp);
    NoneFinished(m.finish, |m.finish|);
    assert Follows(inp, m, 0);
  }

  // ---------- every step keeps it ----------

  lemma WorkerLockControl(inp: Input, m: Threads, k: int)
    requires Formed(inp, m) && Control(m) && Enabled(m, WorkerLock(k))
    ensures var m' := Do(inp, m, WorkerLock(k)); Formed(inp, m') && Control(m')
  {
  }

  function Moved(m: Threads, k: int, w: WorkerPc, lock: Holder): Threads
    requires 0 <= k < |m.workers|
  {
    m.(workers := m.workers[k := w], lock := lock)
  }

  /** Where a worker that holds the mutex can go: past the start barrier, to a wait, out, or to work on
      exactly its grant. */
  predicate MoveAllowed(m: Threads, k: int, w: WorkerPc, lock: Holder)
    requires 0 <= k < |m.workers|
  {
    if m.workers[k] == StartCheck then
      if m.allStarted then w == TurnCheck && lock == Worker(k) else w == StartWait && lock == Nobody
    else
      && m.workers[k] == TurnCheck && lock == Nobody
      && w == if m.stop then Exited else if m.turn != k then TurnWait else Working(m.grant)
  }

  /** "Shouldn't be scheduled" cannot happen, and no clamp changes the slice. */
  lemma WorkerRunMoves(inp: Input, m: Threads, k: int) returns (w: WorkerPc, lock: Holder)
    requires Formed(inp, m) && Control(m) && Enabled(m, WorkerRun(k))
    ensures MoveAllowed(m, k, w, lock) && Do(inp, m, WorkerRun(k)) == Moved(m, k, w, lock)
  {
    if m.workers[k] == StartCheck {
      w, lock := if m.allStarted then TurnCheck else StartWait, if m.allStarted then m.lock else Nobody;
    } else {
      w, lock := if m.stop then Exited else if m.turn != k then TurnWait else Working(m.grant), Nobody;
    }
  }

  lemma MoveExclusive(m: Threads, k: int, w: WorkerPc, lock: Holder)
    requires m.lock == Worker(k) && 0 <= k < |m.workers| && Exclusive(m) && MoveAllowed(m, k, w, lock)
    ensures Exclusive(Moved(m, k, w, lock))
  {
  }

  lemma MoveFlags(m: Threads, k: int, w: WorkerPc, lock: Holder)
    requires 0 <= k < |m.workers| && Flags(m) && Awake(m) && MoveAllowed(m, k, w, lock)
    ensures Flags(Moved(m, k, w, lock)) && Awake(Moved(m, k, w, lock))
  {
  }

  lemma MoveTurns(m: Threads, k: int, w: WorkerPc, lock: Holder)
    requires 0 <= k < |m.workers| && Turns(m) && MoveAllowed(m, k, w, lock)
    ensures Turns(Moved(m, k, w, lock))
  {
  }

  lemma WorkerRunControl(inp: Input, m: Threads, k: int)
    requires Formed(inp, m) && Control(m) && Enabled(m, WorkerRun(k))
    ensures var m' := Do(inp, m, WorkerRun(k)); Formed(inp, m') && Control(m')
  {
    var w, lock := WorkerRunMoves(inp, m, k);
    MoveExclusive(m, k, w, lock);
    MoveFlags(m, k, w, lock);
    MoveTurns(m, k, w, lock);
  }

  lemma WorkerWorkedControl(inp: Input, m: Threads, k: int)
    requires Formed(inp, m) && Control(m) && Enabled(m, WorkerWorked(k))
    ensures var m' := Do(inp, m, WorkerWorked(k)); Formed(inp, m') && Control(m')
  {
  }

  lemma SpuriousControl(inp: Input, m: Threads, a: Action)
    requires Formed(inp, m) && Control(m) && Enabled(m, a) && IsSpurious(a)
    ensures var m' := Do(inp, m, a); Formed(inp, m') && Control(m')
  {
  }

  lemma SchedLockControl(inp: Input, m: Threads)
    requires Formed(inp, m) && Control(m) && Enabled(m, SchedLock)
    ensures var m' := Do(inp, m, SchedLock); Formed(inp, m') && Control(m')
  {
  }

  lemma SchedRunControl(inp: Input, m: Threads)
    requires Formed(inp, m) && Control(m) && Enabled(m, SchedRun)
    requires m.sched == Loop && m.finished < |m.rem| ==>
               var p := Pick(inp, m.rem, m.now, m.i, |m.rem|); p.Some? ==> 0 <= p.value < |m.rem| && m.rem[p.value] > 0
    ensures var m' := Do(inp, m, SchedRun); Formed(inp, m') && Control(m')
  {
  }

  /** A step that changes nothing the scheduler's loop can see. */
  ghost predicate Invisible(m: Threads, m': Threads) {
    && Abs(m') == Abs(m) && m'.finished == m.finished && m'.stop == m.stop
    && (Granted(m') <==> Granted(m)) && (Granted(m) ==> m'.sched.p == m.sched.p && m'.grant == m.grant)
  }

  lemma InvisibleFollows(inp: Input, m: Threads, m': Threads, c: nat)
    requires Accepted(inp) && Follows(inp, m, c) && Invisible(m, m')
    ensures Follows(inp, m', c)
  {
  }

  /** The slice a worker reports is the slice the scheduler granted. */
  lemma WorkerLockInvisible(inp: Input, m: Threads, k: int)
    requires Formed(inp, m) && Control(m) && Enabled(m, WorkerLock(k))
    ensures Invisible(m, Do(inp, m, WorkerLock(k)))
  {
    if m.workers[k].Relock? {
      assert Busied(m.workers[k]) && m.sched.p == k && m.workers[k].slice == m.grant;
      HandBackInvisible(m, k, m.grant);
    }
  }

  lemma HandBackInvisible(m: Threads, p: int, slice: int)
    requires Granted(m) && m.sched.p == p && 0 <= p < |m.workers| == |m.rem| && !m.sliceDone && slice == m.grant
    ensures Invisible(m, HandBack(m.(lock := Worker(p), rem := m.rem[p := m.rem[p] - slice],
                                     workers := m.workers[p := TurnCheck]), slice))
  {
    assert m.rem[p := m.rem[p] - slice][p := m.rem[p] - slice + slice] == m.rem;
  }

  /** A worker's run leaves the scheduler's view alone. */
  lemma WorkerRunInvisible(inp: Input, m: Threads, k: int)
    requires Formed(inp, m) && Control(m) && Enabled(m, WorkerRun(k))
    ensures Invisible(m, Do(inp, m, WorkerRun(k)))
  {
    var w, lock := WorkerRunMoves(inp, m, k);
  }

  /** The other steps do not touch the scheduler's variables. */
  lemma OtherInvisible(inp: Input, m: Threads, a: Action)
    requires Formed(inp, m) && Control(m) && Enabled(m, a)
    requires !a.WorkerLock? && !a.WorkerRun? && !a.SchedRun?
    ensures Invisible(m, Do(inp, m, a))
  {
  }

  /** At the head of the loop: stop, jump the clock, or grant a slice. */
  lemma LoopFollows(inp: Input, m: Threads, c: nat)
    requires Formed(inp, m) && Follows(inp, m, c) && m.sched == Loop && m.lock == Scheduler && !m.stop
    ensures var m' := Do(inp, m, SchedRun); Follows(inp, m', c) || Follows(inp, m', c + 1)
  {
    var s, m', n := Abs(m), Do(inp, m, SchedRun), |m.rem|;
    LoopCounts(inp, m, c);
    PickIsRunnable(inp, m.rem, m.now, m.i, n);
    if m.finished < n && Pick(inp, m.rem, m.now, m.i, n).None? {
      assert Abs(m') == Step(inp, s) == Run(inp, c + 1);
    } else {
      assert Abs(m') == s;
    }
  }

  lemma LoopCounts(inp: Input, m: Threads, c: nat)
    requires Formed(inp, m) && Follows(inp, m, c)
    ensures m.finished <= |m.rem| && (m.finished == |m.rem| <==> AllDone(Abs(m)))
    ensures Granted(m) ==> !AllDone(Abs(m))
  {
    var s := Abs(m);
    RunIsSound(inp, c, s);
    FinishedIsDone(inp, s, |m.rem|);
    PickIsRunnable(inp, s.rem, s.now, s.i, |s.rem|);
  }

  /** After the wait: wait again, or account for the slice, which is one iteration of the loop. */
  lemma SliceEndFollows(inp: Input, m: Threads, c: nat)
    requires Formed(inp, m) && Control(m) && Follows(inp, m, c) && m.sched.DoneCheck? && m.lock == Scheduler
    ensures var m' := Do(inp, m, SchedRun); Follows(inp, m', c) || Follows(inp, m', c + 1)
  {
    var s, m', p := Abs(m), Do(inp, m, SchedRun), m.sched.p;
    if m.sliceDone {
      LoopCounts(inp, m, c);
      SliceEndAbs(inp, m);
      assert Abs(m') == Step(inp, s) == Run(inp, c + 1);
      if s.finish[p] == -1 && m.rem[p] == 0 {
        NowIsNotMinusOne(inp, m, c);
        FinishedUpdate(s.finish, p, m'.now, |s.finish|);
      }
    }
  }

  lemma SliceEndAbs(inp: Input, m: Threads)
    requires Formed(inp, m) && m.sched.DoneCheck? && m.sliceDone && m.consumed == m.grant
    ensures Abs(SliceEnd(m, m.sched.p)) == AfterSlice(inp, Abs(m), m.sched.p, m.grant)
  {
    var p := m.sched.p;
    assert Abs(m).rem[p := Abs(m).rem[p] - m.grant] == m.rem;
  }

  lemma NowIsNotMinusOne(inp: Input, m: Threads, c: nat)
    requires Formed(inp, m) && Follows(inp, m, c)
    ensures m.now >= 0
  {
    RunIsSound(inp, c, Abs(m));
  }

  lemma StepFollows(inp: Input, m: Threads, a: Action, c: nat)
    requires Formed(inp, m) && Control(m) && Follows(inp, m, c) && Enabled(m, a)
    ensures var m' := Do(inp, m, a); Follows(inp, m', c) || Follows(inp, m', c + 1)
  {
    match a {
      case WorkerLock(k) =>
        WorkerLockInvisible(inp, m, k);
        InvisibleFollows(inp, m, Do(inp, m, a), c);
      case WorkerRun(k) =>
        WorkerRunInvisible(inp, m, k);
        InvisibleFollows(inp, m, Do(inp, m, a), c);
      case SchedRun =>
        if m.sched.DoneCheck? {
          SliceEndFollows(inp, m, c);
        } else {
          LoopFollows(inp, m, c);
        }
      case _ =>
        OtherInvisible(inp, m, a);
        InvisibleFollows(inp, m, Do(inp, m, a), c);
    }
  }

  lemma StepControl(inp: Input, m: Threads, a: Action)
    requires Formed(inp, m) && Control(m) && Enabled(m, a)
    ensures var m' := Do(inp, m, a); Formed(inp, m') && Control(m')
  {
    match a {
      case WorkerLock(k) => WorkerLockControl(inp, m, k);
      case WorkerRun(k) => WorkerRunControl(inp, m, k);
      case WorkerWorked(k) => WorkerWorkedControl(inp, m, k);
      case SchedLock => SchedLockControl(inp, m);
      case SchedRun =>
        PickIsRunnable(inp, m.rem, m.now, m.i, |m.rem|);
        SchedRunControl(inp, m);
      case SchedJoin =>
      case _ => SpuriousControl(inp, m, a);
    }
  }

  /** Every step of every thread, spurious wakeups included, keeps the invariant. */
  lemma StepKeepsSafe(inp: Input, m: Threads, a: Action)
    requires Safe(inp, m) && Enabled(m, a)
    ensures Safe(inp, Do(inp, m, a))
  {
    var c: nat :| Follows(inp, m, c);
    StepControl(inp, m, a);
    StepFollows(inp, m, a, c);
  }

  // ---------- whole runs ----------

  /** `acts` is a run of the machine from `m`. */
  predicate IsRun(inp: Input, m: Threads, acts: seq<Action>)
    requires Formed(inp, m)
    decreases |acts|
  {
    acts == [] ||
    (Enabled(m, acts[0]) && Formed(inp, Do(inp, m, acts[0])) && IsRun(inp, Do(inp, m, acts[0]), acts[1..]))
  }

  /** Where the run ends. */
  function End(inp: Input, m: Threads, acts: seq<Action>): (end: Threads)
    requires Formed(inp, m) && IsRun(inp, m, acts)
    ensures Formed(inp, end)
    decreases |acts|
  {
    if acts == [] then m else End(inp, Do(inp, m, acts[0]), acts[1..])
  }

  lemma {:induction false} RunsAreSafe(inp: Input, m: Threads, acts: seq<Action>)
    requires Safe(inp, m) && IsRun(inp, m, acts)
    ensures Safe(inp, End(inp, m, acts))
    decreases |acts|
  {
    if acts != [] {
      StepKeepsSafe(inp, m, acts[0]);
      RunsAreSafe(inp, Do(inp, m, acts[0]), acts[1..]);
    }
  }

  /** Turn passing, on every interleaving: at most one worker is in the unlocked section, it is the one
      `turn` names and its slice is the grant; a worker that gets its turn has work left and a grant that
      no clamp changes; and when the scheduler accounts for a slice, what was consumed is what was granted. */
  lemma TurnSafety(inp: Input, acts: seq<Action>)
    requires Accepted(inp) && IsRun(inp, InitThreads(inp), acts)
    ensures var m := End(inp, InitThreads(inp), acts);
            && (forall j, k :: 0 <= j < |m.workers| && 0 <= k < |m.workers| && m.workers[j].Working? && m.workers[k].Working? ==> j == k)
            && (forall k :: 0 <= k < |m.workers| && m.workers[k].Working? ==> m.turn == k && m.workers[k].slice == m.grant)
            && (forall k :: 0 <= k < |m.workers| && m.workers[k] == TurnCheck && !m.stop && m.turn == k ==>
                  m.rem[k] > 0 && Clamp(m.grant, m.rem[k]) == m.grant)
            && (m.sched.DoneCheck? && m.sliceDone ==> m.consumed == m.grant)
            && (m.lock.Worker? ==> m.sched != Loop && !m.sched.DoneCheck?)
  {
    InitIsSafe(inp);
    RunsAreSafe(inp, InitThreads(inp), acts);
    var m := End(inp, InitThreads(inp), acts);
    assert forall k :: 0 <= k < |m.workers| && m.workers[k].Working? ==> Busied(m.workers[k]);
  }

  /** Deadlock freedom: until the scheduler has joined all workers, some thread can take a step that
      is not a spurious wakeup. */
  lemma NoDeadlock(inp: Input, m: Threads) returns (a: Action)
    requires Safe(inp, m) && m.sched != Joined
    ensures Enabled(m, a) && !IsSpurious(a)
  {
    if m.lock == Scheduler {
      return SchedRun;
    } else if m.lock.Worker? {
      return WorkerRun(m.lock.k);
    } else if m.sched.Starting? || m.sched.DoneWoken? {
      return SchedLock;
    } else if m.sched.DoneWait? {
      var p := m.sched.p;
      if m.workers[p].Working? {
        return WorkerWorked(p);
      }
      return WorkerLock(p);
    } else if exists k :: 0 <= k < |m.workers| && m.workers[k] != Exited {
      var k :| 0 <= k < |m.workers| && m.workers[k] != Exited;
      return WorkerLock(k);
    }
    a := SchedJoin;
  }

  /** When the run is over, the finish times are those of the sequential schedule. */
  lemma FinishedRun(inp: Input, m: Threads)
    requires Safe(inp, m) && m.sched == Joined
    ensures IsMakespan(inp, m.finish, m.now)
    ensures InTime(inp, m.finish)
  {
    var c: nat :| Follows(inp, m, c);
    var s := Abs(m);
    RunIsSound(inp, c, s);
    var b :| Sound(inp, s, b);
    FinalClock(inp, s, b);
  }

  // ---------- termination ----------

  function Stage(s: SchedPc): nat {
    match s
    case Starting => 3
    case Joining => 1
    case Joined => 0
    case _ => 2
  }

  /** How far the current slice is: not granted, granted, being worked, worked, handed back. */
  function Phase(m: Threads): nat {
    if !Granted(m) then 4
    else if m.sliceDone then 0
    else if !(0 <= m.sched.p < |m.workers|) then 3
    else if m.workers[m.sched.p].Working? then 2
    else if m.workers[m.sched.p].Relock? then 1
    else 3
  }

  /** How many steps a worker has before it waits, works or exits. */
  function Rank(w: WorkerPc): nat {
    match w
    case Entering => 5
    case StartWoken => 5
    case StartCheck => 4
    case TurnWoken => 2
    case TurnCheck => 1
    case _ => 0
  }

  function Ranks(ws: seq<WorkerPc>, n: nat): nat
    requires n <= |ws|
  {
    if n == 0 then 0 else Ranks(ws, n - 1) + Rank(ws[n - 1])
  }

  lemma {:induction false} RanksUpdate(ws: seq<WorkerPc>, k: int, w: WorkerPc, n: nat)
    requires n <= |ws| && 0 <= k < |ws|
    ensures Ranks(ws[k := w], n) == Ranks(ws, n) + if k < n then Rank(w) - Rank(ws[k]) else 0
  {
    if n > 0 {
      RanksUpdate(ws, k, w, n - 1);
    }
  }

  function SchedRank(s: SchedPc): nat {
    if s.DoneWoken? then 2 else if s.DoneCheck? then 1 else 0
  }

  /** Stage of the program, work left, whether the clock must jump, phase of the slice, and short steps. */
  datatype Measure = Measure(stage: int, work: int, idle: int, phase: int, steps: int)

  function MeasureOf(inp: Input, m: Threads): Measure
    requires Formed(inp, m)
  {
    var r := Remaining(inp, Abs(m));
    Measure(Stage(m.sched), r.0, r.1, Phase(m), Ranks(m.workers, |m.workers|) + SchedRank(m.sched))
  }

  predicate Below(a: Measure, b: Measure) {
    || a.stage < b.stage
    || (a.stage == b.stage &&
        (|| a.work < b.work
         || (a.work == b.work &&
             (|| a.idle < b.idle
              || (a.idle == b.idle && (a.phase < b.phase || (a.phase == b.phase && a.steps < b.steps)))))))
  }

  lemma WorkerLockBelow(inp: Input, m: Threads, k: int)
    requires Safe(inp, m) && Enabled(m, WorkerLock(k))
    ensures var m' := Do(inp, m, WorkerLock(k)); Formed(inp, m') && Below(MeasureOf(inp, m'), MeasureOf(inp, m))
  {
    var m' := Do(inp, m, WorkerLock(k));
    WorkerLockInvisible(inp, m, k);
    RanksUpdate(m.workers, k, m'.workers[k], |m.workers|);
    assert m'.workers == m.workers[k := m'.workers[k]];
  }

  lemma WorkerRunBelow(inp: Input, m: Threads, k: int)
    requires Safe(inp, m) && Enabled(m, WorkerRun(k))
    ensures var m' := Do(inp, m, WorkerRun(k)); Formed(inp, m') && Below(MeasureOf(inp, m'), MeasureOf(inp, m))
  {
    var w, lock := WorkerRunMoves(inp, m, k);
    MoveBelow(inp, m, k, w, lock);
  }

  /** A worker that goes to work moves the slice along; any other move shortens its way to a wait. */
  lemma MoveBelow(inp: Input, m: Threads, k: int, w: WorkerPc, lock: Holder)
    requires Formed(inp, m) && Turns(m) && 0 <= k < |m.workers| && MoveAllowed(m, k, w, lock)
    ensures Formed(inp, Moved(m, k, w, lock)) && Below(MeasureOf(inp, Moved(m, k, w, lock)), MeasureOf(inp, m))
  {
    RanksUpdate(m.workers, k, w, |m.workers|);
    assert Abs(Moved(m, k, w, lock)) == Abs(m);
  }

  lemma WorkerWorkedBelow(inp: Input, m: Threads, k: int)
    requires Safe(inp, m) && Enabled(m, WorkerWorked(k))
    ensures var m' := Do(inp, m, WorkerWorked(k)); Formed(inp, m') && Below(MeasureOf(inp, m'), MeasureOf(inp, m))
  {
    OtherInvisible(inp, m, WorkerWorked(k));
    assert Busied(m.workers[k]);
  }

  lemma SchedStepBelow(inp: Input, m: Threads, a: Action)
    requires Safe(inp, m) && Enabled(m, a) && (a.SchedLock? || a.SchedJoin?)
    ensures Formed(inp, Do(inp, m, a)) && Below(MeasureOf(inp, Do(inp, m, a)), MeasureOf(inp, m))
  {
    StepControl(inp, m, a);
    OtherInvisible(inp, m, a);
  }

  lemma LoopBelow(inp: Input, m: Threads)
    requires Safe(inp, m) && m.sched == Loop
    ensures var m' := Do(inp, m, SchedRun); Formed(inp, m') && Below(MeasureOf(inp, m'), MeasureOf(inp, m))
  {
    StepControl(inp, m, SchedRun);
    var c: nat :| Follows(inp, m, c);
    var s := Abs(m);
    RunIsSound(inp, c, s);
    LoopCounts(inp, m, c);
    PickIsRunnable(inp, m.rem, m.now, m.i, |m.rem|);
    if m.finished < |m.rem| && Pick(inp, m.rem, m.now, m.i, |m.rem|).None? {
      IdleMeasure(inp, s);
      assert Abs(Do(inp, m, SchedRun)) == Step(inp, s);
    }
  }

  lemma SliceEndBelow(inp: Input, m: Threads)
    requires Safe(inp, m) && m.sched.DoneCheck?
    ensures var m' := Do(inp, m, SchedRun); Formed(inp, m') && Below(MeasureOf(inp, m'), MeasureOf(inp, m))
  {
    StepControl(inp, m, SchedRun);
    var c: nat :| Follows(inp, m, c);
    var s := Abs(m);
    if m.sliceDone {
      RunIsSound(inp, c, s);
      SliceMeasure(inp, s);
      SliceEndAbs(inp, m);
    }
  }

  /** Every step that is not a spurious wakeup brings the program closer to its end. */
  lemma StepBelow(inp: Input, m: Threads, a: Action)
    requires Safe(inp, m) && Enabled(m, a) && !IsSpurious(a)
    ensures Formed(inp, Do(inp, m, a)) && Below(MeasureOf(inp, Do(inp, m, a)), MeasureOf(inp, m))
  {
    match a {
      case SchedRun =>
        if m.sched.DoneCheck? {
          SliceEndBelow(inp, m);
        } else {
          LoopBelow(inp, m);
        }
      case WorkerLock(k) => WorkerLockBelow(inp, m, k);
      case WorkerRun(k) => WorkerRunBelow(inp, m, k);
      case WorkerWorked(k) => WorkerWorkedBelow(inp, m, k);
      case SchedLock => SchedStepBelow(inp, m, a);
      case SchedJoin => SchedStepBelow(inp, m, a);
    }
  }

  lemma MeasureIsNatural(inp: Input, m: Threads)
    requires Safe(inp, m)
    ensures MeasureOf(inp, m).work >= 0 && MeasureOf(inp, m).idle >= 0
  {
    var c: nat :| Follows(inp, m, c);
    RunIsSound(inp, c, Abs(m));
    TotalNonNegative(Abs(m).rem, |m.rem|);
  }

  /** An infinite history: every state follows from the one before by some enabled step, until the
      program has ended; from time `calm` on no wakeup is spurious. */
  ghost predicate History(inp: Input, h: nat -> Threads, act: nat -> Action, calm: nat) {
    && Accepted(inp) && h(0) == InitThreads(inp)
    && (forall t: nat :: Formed(inp, h(t)) && h(t).sched != Joined ==> Enabled(h(t), act(t)) && h(t + 1) == Do(inp, h(t), act(t)))
    && (forall t: nat :: t >= calm ==> !IsSpurious(act(t)))
  }

  lemma {:induction false} HistoryIsSafe(inp: Input, h: nat -> Threads, act: nat -> Action, calm: nat, t: nat)
    requires History(inp, h, act, calm) && forall u: nat :: u < t ==> h(u).sched != Joined
    ensures Safe(inp, h(t))
  {
    if t == 0 {
      InitIsSafe(inp);
    } else {
      HistoryIsSafe(inp, h, act, calm, t - 1);
      StepKeepsSafe(inp, h(t - 1), act(t - 1));
    }
  }

  /** Every fair-weather history ends: with finitely many spurious wakeups, the scheduler joins all
      workers after finitely many steps. */
  lemma {:induction false} HistoryEnds(inp: Input, h: nat -> Threads, act: nat -> Action, calm: nat, t: nat) returns (end: nat)
    requires History(inp, h, act, calm) && t >= calm && Safe(inp, h(t))
    ensures end >= t && Safe(inp, h(end)) && h(end).sched == Joined
    decreases MeasureOf(inp, h(t)).stage, MeasureOf(inp, h(t)).work, MeasureOf(inp, h(t)).idle,
              MeasureOf(inp, h(t)).phase, MeasureOf(inp, h(t)).steps
  {
    if h(t).sched == Joined {
      return t;
    }
    MeasureIsNatural(inp, h(t));
    StepKeepsSafe(inp, h(t), act(t));
    StepBelow(inp, h(t), act(t));
    MeasureIsNatural(inp, h(t + 1));
    end := HistoryEnds(inp, h, act, calm, t + 1);
  }

  /** The whole program: in every history with finitely many spurious wakeups the scheduler ends with
      all workers gone, at the makespan, with every thread finished within its bound. */
  lemma ProgramEnds(inp: Input, h: nat -> Threads, act: nat -> Action, calm: nat) returns (end: nat)
    requires History(inp, h, act, calm)
    ensures Formed(inp, h(end)) && h(end).sched == Joined
    ensures forall k :: 0 <= k < |h(end).workers| ==> h(end).workers[k] == Exited
    ensures IsMakespan(inp, h(end).finish, h(end).now)
    ensures InTime(inp, h(end).finish)
  {
    end := 0;
    while end < calm && h(end).sched != Joined
      invariant forall u: nat :: u < end ==> h(u).sched != Joined
    {
      end := end + 1;
    }
    HistoryIsSafe(inp, h, act, calm, end);
    if h(end).sched != Joined {
      end := HistoryEnds(inp, h, act, calm, end);
    }
    FinishedRun(inp, h(end));
  }
}
