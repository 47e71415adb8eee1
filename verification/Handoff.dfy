/** The hand-off of a stream id to a worker thread (lib/wfa_tg.c, lib/wfa_thr.c), as interleaved
    steps of the setter, the workers and the alarm handler. The store to thr_flag, its reading and
    its clearing happen outside the mutex; cond_wait releases and blocks in one step, and may wake
    without a signal (IEEE Std 1003.1, pthread_cond_wait). The alarm may strike between any two steps
    and interrupt any thread: the interrupted one then takes no steps until the handler is through. */
module Handoff {
  import opened Options

  const WFA_THREADS_NUM: nat := 8

  datatype WorkerPc = ToLock | Testing | ToWait | Blocked | Woken | ToUnlock | ToRead | ToClear(id: int) | Working
  datatype Holder = Free | Setter | Owner

  /** One element of wmm_thr with its thread. picked are the ids the thread has taken up. */
  datatype Worker = Worker(flag: int, mutex: Holder, pc: WorkerPc, picked: seq<int>)

  /** Every statement of the setter reads usedThread before it acts, and each half is a step: Aimed is about
      to store the id, Locking, Signalling and Unlocking have evaluated the argument of their call, and
      Bumping has read usedThread and not yet written it back. Undefined: the setter has unlocked a
      mutex it does not hold. */
  datatype SetterPc =
    | Idle | Aimed(at: nat, id: int) | Stored | Locking(at: nat) | Locked | Signalling(at: nat) | Signalled
    | Unlocking(at: nat) | Unlocked | Bumping(read: nat) | Undefined

  /** held is the mutex the setter locked, alarm the next flag the handler clears while it runs, and
      started the ids stored in a flag, in order. */
  datatype State = State(workers: seq<Worker>, setter: SetterPc, held: Option<nat>, usedThread: nat,
                         alarm: Option<nat>, started: seq<int>)

  datatype Action =
    | Start(id: int) | SetterStep | Reset
    | AlarmBegin | AlarmStep
    | WorkerStep(w: nat) | Spurious(w: nat) | Finish(w: nat, clears: bool)

  const IDLE_WORKER := Worker(0, Free, ToLock, [])
  const INIT := State([IDLE_WORKER, IDLE_WORKER, IDLE_WORKER, IDLE_WORKER,
                       IDLE_WORKER, IDLE_WORKER, IDLE_WORKER, IDLE_WORKER], Idle, None, 0, None, [])

  /** One step of a worker thread, None where it has to wait. */
  function StepWorker(me: Worker): Option<Worker> {
    match me.pc
    case ToLock => if me.mutex.Free? then Some(me.(mutex := Owner, pc := Testing)) else None
    case Testing => Some(me.(pc := if me.flag == 0 then ToWait else ToUnlock))
    case ToWait => Some(me.(mutex := Free, pc := Blocked))
    case Blocked => None
    case Woken => if me.mutex.Free? then Some(me.(mutex := Owner, pc := Testing)) else None
    case ToUnlock => Some(me.(mutex := Free, pc := ToRead))
    case ToRead => Some(me.(pc := ToClear(me.flag)))
    case ToClear(id) => Some(me.(flag := 0, picked := me.picked + [id], pc := Working))
    case Working => None
  }

  /** One step of the setter, None where it has to wait. pthread_mutex_lock goes on waiting for the mutex
      it was called with, whatever signal handler runs meanwhile. */
  function StepSetter(s: State): (r: Option<State>)
    ensures r.Some? ==> |r.value.workers| == |s.workers|
  {
    var n := |s.workers|;
    match s.setter
    case Idle => None
    case Aimed(at, id) =>
      if at < n
      then Some(s.(setter := Stored, started := s.started + [id],
                   workers := s.workers[at := s.workers[at].(flag := id)]))
      else None
    case Stored => Some(s.(setter := Locking(s.usedThread)))
    case Locking(at) =>
      if at < n && s.workers[at].mutex.Free?
      then Some(s.(setter := Locked, held := Some(at), workers := s.workers[at := s.workers[at].(mutex := Setter)]))
      else None
    case Locked => Some(s.(setter := Signalling(s.usedThread)))
    case Signalling(at) =>
      if at >= n then None
      else Some(s.(setter := Signalled,
                   workers := if s.workers[at].pc.Blocked? then s.workers[at := s.workers[at].(pc := Woken)]
                              else s.workers))
    case Signalled => Some(s.(setter := Unlocking(s.usedThread)))
    case Unlocking(at) =>
      if at >= n then None
      else if s.held == Some(at)
      then Some(s.(setter := Unlocked, held := None, workers := s.workers[at := s.workers[at].(mutex := Free)]))
      else Some(s.(setter := Undefined))
    case Unlocked => Some(s.(setter := Bumping(s.usedThread)))
    case Bumping(read) => Some(s.(setter := Idle, usedThread := read + 1))
    case Undefined => None
  }

  /** The state after an action, None where the action is not possible. Nothing is said about what
      follows undefined behaviour. */
  function Next(s: State, a: Action): (r: Option<State>)
    ensures r.Some? ==> |r.value.workers| == |s.workers|
  {
    var n := |s.workers|;
    if s.setter.Undefined? then None
    else match a
      case Start(id) =>
        if s.setter.Idle? && s.usedThread < n then Some(s.(setter := Aimed(s.usedThread, id))) else None
      case SetterStep => StepSetter(s)
      case Reset => if s.setter.Idle? then Some(s.(usedThread := 0)) else None
      case AlarmBegin => if s.alarm.None? then Some(s.(usedThread := 0, alarm := Some(0))) else None
      case AlarmStep =>
        if s.alarm.None? then None
        else if s.alarm.value < n
        then Some(s.(workers := s.workers[s.alarm.value := s.workers[s.alarm.value].(flag := 0)],
                     alarm := Some(s.alarm.value + 1)))
        else Some(s.(alarm := None))
      case WorkerStep(w) =>
        if w < n then
          var r := StepWorker(s.workers[w]);
          if r.None? then None else Some(s.(workers := s.workers[w := r.value]))
        else None
      case Spurious(w) =>
        if w < n && s.workers[w].pc.Blocked?
        then Some(s.(workers := s.workers[w := s.workers[w].(pc := Woken)]))
        else None
      case Finish(w, clears) =>
        if w < n && s.workers[w].pc.Working?
        then Some(s.(workers := s.workers[w := s.workers[w].(
          pc := ToLock, flag := if clears then 0 else s.workers[w].flag)]))
        else None
  }

  /** The state after a schedule from s0; actions that are not possible do nothing. */
  function Exec(s0: State, schedule: seq<Action>): (s: State)
    ensures |s.workers| == |s0.workers|
  {
    if schedule == [] then s0
    else
      var s := Exec(s0, schedule[..|schedule| - 1]);
      var next := Next(s, schedule[|schedule| - 1]);
      if next.Some? then next.value else s
  }

  lemma {:induction false} ExecJoin(s0: State, a: seq<Action>, b: seq<Action>)
    ensures Exec(s0, a + b) == Exec(Exec(s0, a), b)
  {
    if b == [] {
      assert a + b == a;
    } else {
      ExecJoin(s0, a, b[..|b| - 1]);
      assert (a + b)[..|a + b| - 1] == a + b[..|b| - 1];
    }
  }

  /** The worker holds its mutex exactly inside its critical section. */
  predicate Critical(pc: WorkerPc) { pc.Testing? || pc.ToWait? || pc.ToUnlock? }

  predicate Waits(pc: WorkerPc) { pc.ToWait? || pc.Blocked? }

  /** What the setter has locked or is about to lock. */
  function Target(s: State): Option<nat> {
    if s.setter.Locking? then Some(s.setter.at) else s.held
  }

  ghost predicate WorkerInv(s: State, w: nat)
    requires w < |s.workers|
  {
    var me := s.workers[w];
    && (me.mutex.Owner? <==> Critical(me.pc))
    && (me.mutex.Setter? <==> s.held == Some(w))
  }

  /** Between evaluating the argument of its lock and that of its unlock the setter holds, or waits for,
      the mutex of the worker that usedThread names, unless the alarm has set that to 0. */
  ghost predicate SetterInv(s: State) {
    && (!s.setter.Idle? ==> s.usedThread < WFA_THREADS_NUM)
    && (s.setter.Aimed? ==> s.setter.at < WFA_THREADS_NUM && (s.usedThread == s.setter.at || s.usedThread == 0))
    && (s.setter.Signalling? || s.setter.Unlocking? ==> s.setter.at < WFA_THREADS_NUM)
    && (s.setter.Bumping? ==> s.setter.read < WFA_THREADS_NUM)
    && (s.held.Some? <==> s.setter.Locked? || s.setter.Signalling? || s.setter.Signalled? || s.setter.Unlocking?
                          || s.setter.Undefined?)
    && (Target(s).Some? ==>
          && Target(s).value < WFA_THREADS_NUM
          && (s.usedThread == Target(s).value || s.usedThread == 0)
          && (s.setter.Signalling? || s.setter.Unlocking? ==> s.setter.at == Target(s).value || s.setter.at == 0))
  }

  ghost predicate Inv(s: State) {
    && |s.workers| == WFA_THREADS_NUM && SetterInv(s)
    && forall w :: 0 <= w < |s.workers| ==> WorkerInv(s, w)
  }

  lemma NextKeepsSetterInv(s: State, a: Action)
    requires |s.workers| == WFA_THREADS_NUM && SetterInv(s) && Next(s, a).Some?
    ensures SetterInv(Next(s, a).value)
  {
  }

  lemma NextKeepsWorkerInv(s: State, a: Action, w: nat)
    requires w < |s.workers| && SetterInv(s) && WorkerInv(s, w) && Next(s, a).Some?
    ensures WorkerInv(Next(s, a).value, w)
  {
  }

  lemma NextKeepsInv(s: State, a: Action)
    requires Inv(s) && Next(s, a).Some?
    ensures Inv(Next(s, a).value)
  {
    NextKeepsSetterInv(s, a);
    forall w | 0 <= w < |s.workers| ensures WorkerInv(Next(s, a).value, w) { NextKeepsWorkerInv(s, a, w); }
  }

  lemma {:induction false} ExecInv(s0: State, schedule: seq<Action>)
    requires Inv(s0)
    ensures Inv(Exec(s0, schedule))
  {
    if schedule != [] {
      var front, a := schedule[..|schedule| - 1], schedule[|schedule| - 1];
      ExecInv(s0, front);
      if Next(Exec(s0, front), a).Some? { NextKeepsInv(Exec(s0, front), a); }
    }
  }

  /** A worker and the setter are never both inside the same mutex. */
  lemma MutualExclusion(schedule: seq<Action>, w: nat)
    requires w < WFA_THREADS_NUM
    ensures var s := Exec(INIT, schedule);
      !(Critical(s.workers[w].pc) && s.held == Some(w))
  {
    ExecInv(INIT, schedule);
    assert WorkerInv(Exec(INIT, schedule), w);
  }

  // Wakeups.

  /** The setter is on its way to signalling worker w, and will hold its mutex then. */
  predicate SignalComing(s: State, w: nat) {
    match s.setter
    case Aimed(at, _) => at == w == s.usedThread
    case Stored => s.usedThread == w
    case Locking(at) => at == w == s.usedThread
    case Locked => s.held == Some(w) && s.usedThread == w
    case Signalling(at) => s.held == Some(w) && at == w
    case _ => false
  }

  /** The setter has read usedThread as w for a store, and not yet for the signal. */
  predicate Heading(s: State, w: nat) {
    match s.setter
    case Aimed(at, _) => at == w
    case Stored => s.usedThread == w
    case Locking(_) => s.usedThread == w
    case Locked => s.usedThread == w
    case _ => false
  }

  /** The last time the setter aimed at worker w, an alarm struck before it had read usedThread for the
      signal. */
  predicate Misled(s0: State, schedule: seq<Action>, w: nat) {
    schedule != [] &&
    var front, a := schedule[..|schedule| - 1], schedule[|schedule| - 1];
    var s := Exec(s0, front);
    if Next(s, a).None? then Misled(s0, front, w)
    else if a.Start? && s.usedThread == w then false
    else Misled(s0, front, w) || (a.AlarmBegin? && Heading(s, w))
  }

  /** A waiting worker with a nonzero flag: the signal comes, or the setter was misled. */
  ghost predicate Heard(s: State, w: nat, misled: bool)
    requires w < |s.workers|
  {
    && (Waits(s.workers[w].pc) && s.workers[w].flag != 0 ==> SignalComing(s, w) || (w != 0 && misled))
    && (w != 0 && misled ==> (s.usedThread == w ==> s.setter.Idle?) && s.setter != Signalling(w))
    && (s.setter.Aimed? && s.setter.at == w && s.usedThread != w ==> misled)
  }

  lemma HeardStep(s: State, a: Action, w: nat, misled: bool)
    requires Inv(s) && w < |s.workers| && Next(s, a).Some? && Heard(s, w, misled)
    ensures Heard(Next(s, a).value, w,
                  if a.Start? && s.usedThread == w then false else misled || (a.AlarmBegin? && Heading(s, w)))
  {
    NextKeepsInv(s, a);
    assert WorkerInv(s, w) && WorkerInv(Next(s, a).value, w);
  }

  lemma {:induction false} ExecHeard(schedule: seq<Action>, w: nat)
    requires w < WFA_THREADS_NUM
    ensures Inv(Exec(INIT, schedule)) && Heard(Exec(INIT, schedule), w, Misled(INIT, schedule, w))
  {
    ExecInv(INIT, schedule);
    if schedule != [] {
      var front, a := schedule[..|schedule| - 1], schedule[|schedule| - 1];
      ExecHeard(front, w);
      if Next(Exec(INIT, front), a).Some? { HeardStep(Exec(INIT, front), a, w, Misled(INIT, front, w)); }
    }
  }

  /** Lost wakeups, exactly: in every interleaving with any starts, resets, alarms and spurious wakeups, a
      worker that is in the condition wait, or about to enter it, with a nonzero flag still has its
      signal coming if and only if it is the first worker or no alarm struck after the setter had read
      usedThread for its store and before it read it for its signal. */
  lemma WakeupLostIff(schedule: seq<Action>, w: nat)
    requires w < WFA_THREADS_NUM
    ensures var s := Exec(INIT, schedule);
      Waits(s.workers[w].pc) && s.workers[w].flag != 0 ==>
        (SignalComing(s, w) <==> w == 0 || !Misled(INIT, schedule, w))
  {
    ExecHeard(schedule, w);
  }

  // Undefined unlocks.

  /** An alarm has struck while the setter held, or waited for, the mutex of a worker other than the first
      and had not yet read usedThread for its unlock. */
  predicate StruckInWindow(s0: State, schedule: seq<Action>) {
    schedule != [] &&
    var front, a := schedule[..|schedule| - 1], schedule[|schedule| - 1];
    var s := Exec(s0, front);
    || StruckInWindow(s0, front)
    || (a.AlarmBegin? && Next(s, a).Some? && Target(s).Some? && Target(s).value != 0 && !s.setter.Unlocking?)
  }

  /** The setter holds, or will hold, one mutex and is going to unlock another. */
  predicate Astray(s: State) {
    match s.setter
    case Locking(at) => at != s.usedThread
    case Unlocking(at) => s.held != Some(at)
    case _ => s.held.Some? && s.held != Some(s.usedThread)
  }

  ghost predicate AstrayWhenStruck(s: State, struck: bool) {
    && (Astray(s) <==> struck)
    && (struck ==> s.usedThread == 0 && Target(s).Some? && Target(s).value != 0)
    && (s.setter.Undefined? ==> struck)
  }

  lemma AstrayStep(s: State, a: Action, struck: bool)
    requires Inv(s) && Next(s, a).Some? && AstrayWhenStruck(s, struck)
    ensures AstrayWhenStruck(
      Next(s, a).value,
      struck || (a.AlarmBegin? && Target(s).Some? && Target(s).value != 0 && !s.setter.Unlocking?))
  {
  }

  lemma {:induction false} AstrayIff(schedule: seq<Action>)
    ensures AstrayWhenStruck(Exec(INIT, schedule), StruckInWindow(INIT, schedule))
  {
    if schedule != [] {
      var front, a := schedule[..|schedule| - 1], schedule[|schedule| - 1];
      AstrayIff(front);
      ExecInv(INIT, front);
      if Next(Exec(INIT, front), a).Some? { AstrayStep(Exec(INIT, front), a, StruckInWindow(INIT, front)); }
    }
  }

  /** The setter unlocks a mutex it does not hold if and only if an alarm struck between the evaluation of
      the argument of its lock and that of its unlock, for a worker other than the first, be it while it
      was still waiting for that mutex; from then on it is bound to, and once it has locked the
      worker's mutex nobody unlocks it. */
  lemma UndefinedUnlockIff(schedule: seq<Action>)
    ensures var s := Exec(INIT, schedule);
      && (s.setter.Unlocking? ==>
            (Next(s, SetterStep) == Some(s.(setter := Undefined)) <==> StruckInWindow(INIT, schedule)))
      && (StruckInWindow(INIT, schedule) ==>
            && Target(s).Some? && 0 < Target(s).value < WFA_THREADS_NUM
            && (s.setter.Locking? || s.workers[Target(s).value].mutex.Setter?))
  {
    AstrayIff(schedule);
    ExecInv(INIT, schedule);
    var s := Exec(INIT, schedule);
    if s.held.Some? { assert WorkerInv(s, s.held.value); }
  }
}
