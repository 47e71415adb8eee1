/** What becomes of a started stream id: when it survives until its worker reads it, and that it is then
    picked up, exactly once. */
module HandoffFate {
  import opened Options
  import opened Handoff

  // Survival: exactly when an id in a worker's flag is not lost.

  /** The actions that take an unread id out of worker k's flag: the store of another id, the alarm
      clearing the flag, the end of the thread's previous work, and the clearing that follows its
      previous read. */
  predicate Drops(s: State, a: Action, k: nat)
    requires k < |s.workers|
  {
    || (a == SetterStep && s.setter.Aimed? && s.setter.at == k)
    || (a.AlarmStep? && s.alarm == Some(k))
    || a == Finish(k, true)
    || (a == WorkerStep(k) && s.workers[k].pc.ToClear?)
  }

  /** Worker k has read the id that was in its flag in s0. */
  predicate ReadYet(s0: State, schedule: seq<Action>, k: nat)
    requires k < |s0.workers|
  {
    if schedule == [] then s0.workers[k].pc == ToClear(s0.workers[k].flag)
    else
      var front, a := schedule[..|schedule| - 1], schedule[|schedule| - 1];
      ReadYet(s0, front, k)
      || (a == WorkerStep(k) && Next(Exec(s0, front), a).Some? && Exec(s0, front).workers[k].pc.ToRead?)
  }

  /** One of these actions has happened before the read. */
  predicate DroppedUnread(s0: State, schedule: seq<Action>, k: nat)
    requires k < |s0.workers|
  {
    schedule != [] &&
    var front, a := schedule[..|schedule| - 1], schedule[|schedule| - 1];
    || DroppedUnread(s0, front, k)
    || (!ReadYet(s0, front, k) && Next(Exec(s0, front), a).Some? && Drops(Exec(s0, front), a, k))
  }

  predicate AimedWith(s: State, id: int) { s.setter.Aimed? && s.setter.id == id }

  predicate NeverStarted(schedule: seq<Action>, id: int) {
    schedule == [] || (schedule[|schedule| - 1] != Start(id) && NeverStarted(schedule[..|schedule| - 1], id))
  }

  /** The id is in the flag, or in the thread's hand, or is what the thread took up next after base. */
  predicate Here(me: Worker, id: int, base: seq<int>) {
    || (me.picked == base && (me.flag == id || me.pc == ToClear(id)))
    || base + [id] <= me.picked
  }

  /** Where the id is, given what has happened; once says that nobody started it again. */
  predicate Tracked(me: Worker, id: int, base: seq<int>, read: bool, dropped: bool, once: bool) {
    if dropped then
      once ==> me.flag != id && me.pc != ToClear(id) && base <= me.picked && id !in me.picked[|base|..]
    else if !read then me.flag == id && me.picked == base && me.pc != ToClear(id)
    else
      || (me.picked == base && me.pc == ToClear(id))
      || (base + [id] <= me.picked
          && (once ==> me.flag != id && me.pc != ToClear(id) && id !in me.picked[|base| + 1..]))
  }

  lemma TrackStep(s: State, a: Action, k: nat, id: int, base: seq<int>, read: bool, dropped: bool, once: bool)
    requires k < |s.workers| && Next(s, a).Some? && id != 0
    requires once ==> a != Start(id) && !AimedWith(s, id)
    ensures once ==> !AimedWith(Next(s, a).value, id)
    requires Tracked(s.workers[k], id, base, read, dropped, once)
    ensures Tracked(Next(s, a).value.workers[k], id, base,
                    read || (a == WorkerStep(k) && s.workers[k].pc.ToRead?),
                    dropped || (!read && Drops(s, a, k)), once)
  {
  }

  lemma {:induction false} Track(s0: State, schedule: seq<Action>, k: nat, once: bool)
    requires k < |s0.workers| && s0.workers[k].flag != 0
    requires once ==> NeverStarted(schedule, s0.workers[k].flag) && !AimedWith(s0, s0.workers[k].flag)
    ensures once ==> !AimedWith(Exec(s0, schedule), s0.workers[k].flag)
    ensures Tracked(Exec(s0, schedule).workers[k], s0.workers[k].flag, s0.workers[k].picked,
                    ReadYet(s0, schedule, k), DroppedUnread(s0, schedule, k), once)
  {
    if schedule != [] {
      var front, a := schedule[..|schedule| - 1], schedule[|schedule| - 1];
      Track(s0, front, k, once);
      var s, me := Exec(s0, front), s0.workers[k];
      if Next(s, a).Some? {
        TrackStep(s, a, k, me.flag, me.picked, ReadYet(s0, front, k), DroppedUnread(s0, front, k), once);
      }
    }
  }

  lemma AllInTail(xs: seq<int>, n: nat)
    requires n <= |xs|
    ensures forall i :: n <= i < |xs| ==> xs[i] in xs[n..]
  {
    forall i | n <= i < |xs| ensures xs[i] in xs[n..] { assert xs[n..][i - n] == xs[i]; }
  }

  /** Exactly when an id survives: from any state in which worker k's flag holds an id, whatever the
      thread is doing, and along any schedule that does not start that id again, with any alarms,
      resets and other starts, the id is still in the flag, in the thread's hand or taken up next if
      and only if none of the four dropping actions hit worker k before it read the flag; and it is
      not taken up any other time. */
  lemma IdSurvivesIff(s0: State, schedule: seq<Action>, k: nat)
    requires k < |s0.workers| && s0.workers[k].flag != 0
    requires NeverStarted(schedule, s0.workers[k].flag) && !AimedWith(s0, s0.workers[k].flag)
    ensures var me := s0.workers[k];
      Here(Exec(s0, schedule).workers[k], me.flag, me.picked) <==> !DroppedUnread(s0, schedule, k)
    ensures var base, picked := s0.workers[k].picked, Exec(s0, schedule).workers[k].picked;
      forall i :: |base| <= i < |picked| && picked[i] == s0.workers[k].flag ==> i == |base|
  {
    Track(s0, schedule, k, true);
    var me, now := s0.workers[k], Exec(s0, schedule).workers[k];
    var n := |me.picked|;
    if n < |now.picked| { AllInTail(now.picked, n + 1); }
    if n <= |now.picked| { AllInTail(now.picked, n); }
    if me.picked + [me.flag] <= now.picked { assert now.picked[n] == me.flag; }
  }

  /** For the alarm: when it comes to a worker's flag, the id in it is lost if and only if the worker has
      not read it yet. */
  lemma AlarmDropsIffUnread(s: State, k: nat)
    requires k < |s.workers| && s.workers[k].flag != 0 && s.alarm == Some(k) && !s.setter.Undefined?
    ensures Next(s, AlarmStep).Some?
    ensures var me := s.workers[k];
      Here(Next(s, AlarmStep).value.workers[k], me.flag, me.picked) <==> me.pc == ToClear(me.flag)
  {
    var read := s.workers[k].pc == ToClear(s.workers[k].flag);
    TrackStep(s, AlarmStep, k, s.workers[k].flag, s.workers[k].picked, read, false, false);
  }

  // Progress: an id that is not dropped is picked up.

  /** How far worker k is from taking up a pending id. */
  function WorkerRank(pc: WorkerPc): nat {
    match pc
    case ToWait => 7
    case Blocked => 6
    case ToLock => 5
    case Woken => 5
    case Testing => 4
    case ToUnlock => 3
    case ToRead => 2
    case ToClear(_) => 1
    case Working => 0
  }

  /** The setter has stored an id and is locking, signalling or unlocking worker k. */
  predicate SetterAt(s: State, k: nat) {
    match s.setter
    case Stored => s.usedThread == k
    case Locking(at) => at == k
    case _ => s.held == Some(k)
  }

  function SetterRank(s: State, k: nat): nat {
    if !SetterAt(s, k) then 0
    else match s.setter
      case Stored => 6
      case Locking(_) => 5
      case Locked => 4
      case Signalling(_) => 3
      case Signalled => 2
      case _ => 1
  }

  function Rank(s: State, k: nat): nat
    requires k < |s.workers|
  {
    var pc := s.workers[k].pc;
    if pc.ToClear? then 1 else WorkerRank(pc) + SetterRank(s, k)
  }

  /** The setter is about to do to one and the same worker all it has to do: no alarm has come between. */
  predicate OnCourse(s: State) {
    match s.setter
    case Aimed(at, _) => at == s.usedThread
    case Locking(at) => at == s.usedThread
    case Signalling(at) => s.held == Some(at) && at == s.usedThread
    case Unlocking(at) => s.held == Some(at)
    case Undefined => false
    case _ => s.held.Some? ==> s.held.value == s.usedThread
  }

  /** No alarm is running, nor has one left the setter off its course, and worker k has an id to take up
      and does not wait for a signal that has been missed. */
  ghost predicate Live(s: State, k: nat) {
    && Inv(s) && k < |s.workers| && s.alarm.None? && OnCourse(s)
    && (s.workers[k].pc.ToClear? || (s.workers[k].flag != 0 && !s.workers[k].pc.Working?))
    && (Waits(s.workers[k].pc) ==> SignalComing(s, k) && !s.setter.Aimed?)
  }

  predicate CanStep(s: State, k: nat) { Next(s, WorkerStep(k)).Some? }

  /** No deadlock: whenever the worker with the pending id has to wait, it is for the setter, and the
      setter can step. */
  lemma WorkerOrSetterCanStep(s: State, k: nat)
    requires Live(s, k)
    ensures CanStep(s, k) || (SetterAt(s, k) && Next(s, SetterStep).Some?)
  {
    assert WorkerInv(s, k);
  }

  /** Until the pickup the worker stays live, and no other step than its own read and clearing takes the
      id or brings the setter back. */
  lemma StaysLive(s: State, a: Action, k: nat)
    requires Live(s, k) && Next(s, a).Some? && !a.AlarmBegin?
    requires s.workers[k].pc.ToClear? || !Drops(s, a, k)
    ensures var me, t := s.workers[k], Next(s, a).value;
      if me.pc.ToClear? && a == WorkerStep(k) then t.workers[k].picked == me.picked + [me.pc.id]
      else Live(t, k) && t.workers[k].picked == me.picked && (SetterAt(t, k) ==> SetterAt(s, k) || me.pc.ToClear?)
  {
    NextKeepsInv(s, a);
    assert WorkerInv(s, k);
  }

  /** Every step of the worker, and of the setter while it is at the worker, brings the pickup nearer; no
      other step takes it further away or makes the worker wait. */
  lemma StepDown(s: State, a: Action, k: nat)
    requires Live(s, k) && Next(s, a).Some? && !a.AlarmBegin?
    requires s.workers[k].pc.ToClear? || !Drops(s, a, k)
    ensures var me, t := s.workers[k], Next(s, a).value;
      (me.pc.ToClear? && a == WorkerStep(k))
      || Rank(t, k) < Rank(s, k)
      || (Rank(t, k) == Rank(s, k) && CanStep(t, k) == CanStep(s, k) && a != WorkerStep(k)
          && (CanStep(s, k) || a != SetterStep))
  {
    WorkerOrSetterCanStep(s, k);
    assert WorkerInv(s, k);
  }

  predicate NoAlarm(schedule: seq<Action>) {
    schedule == [] || (!schedule[|schedule| - 1].AlarmBegin? && NoAlarm(schedule[..|schedule| - 1]))
  }

  /** Complete rounds in which both worker k and the setter were given a turn, possible or not, and whose
      turns have come since the last one. */
  datatype Turns = Turns(rounds: nat, worker: bool, setter: bool)

  function NextTurns(t: Turns, a: Action, k: nat): Turns {
    var worker, setter := t.worker || a == WorkerStep(k), t.setter || a == SetterStep;
    if worker && setter then Turns(t.rounds + 1, false, false) else Turns(t.rounds, worker, setter)
  }

  function TurnsOf(schedule: seq<Action>, k: nat): Turns {
    if schedule == [] then Turns(0, false, false)
    else NextTurns(TurnsOf(schedule[..|schedule| - 1], k), schedule[|schedule| - 1], k)
  }

  /** The rank has gone down once a round, and in the round under way too unless the one that can step
      has not had its turn. */
  ghost predicate Keeping(s: State, k: nat, turns: Turns, rank0: nat) {
    && Live(s, k)
    && (Rank(s, k) + turns.rounds + 1 <= rank0
        || (Rank(s, k) + turns.rounds <= rank0 && !(if CanStep(s, k) then turns.worker else turns.setter)))
  }

  ghost predicate Taken(s: State, k: nat, s0: State)
    requires k < |s0.workers| == |s.workers|
  {
    s0.workers[k].picked + [s0.workers[k].flag] <= s.workers[k].picked
  }

  /** The id that was in worker k's flag in s0 is still there, or in its hand. */
  predicate StillThere(s: State, k: nat, s0: State)
    requires k < |s0.workers| == |s.workers|
  {
    var me, id := s.workers[k], s0.workers[k].flag;
    me.picked == s0.workers[k].picked && (if me.pc.ToClear? then me.pc.id == id else me.flag == id)
  }

  lemma TakenStays(s: State, a: Action, k: nat, s0: State)
    requires k < |s0.workers| == |s.workers| && Next(s, a).Some? && Taken(s, k, s0)
    ensures Taken(Next(s, a).value, k, s0)
  {
  }

  /** An id that is still there and not dropped by a has been read, or a does not drop it. */
  lemma NotDropped(s0: State, schedule: seq<Action>, k: nat)
    requires schedule != [] && k < |s0.workers| && s0.workers[k].flag != 0 && !DroppedUnread(s0, schedule, k)
    ensures var s, a := Exec(s0, schedule[..|schedule| - 1]), schedule[|schedule| - 1];
      StillThere(s, k, s0) && Next(s, a).Some? ==> s.workers[k].pc.ToClear? || !Drops(s, a, k)
  {
    Track(s0, schedule[..|schedule| - 1], k, false);
  }

  lemma KeepingStep(s0: State, s: State, a: Action, k: nat, turns: Turns, rank0: nat)
    requires k < |s0.workers| == |s.workers| && Keeping(s, k, turns, rank0) && !a.AlarmBegin?
    requires StillThere(s, k, s0)
    requires Next(s, a).Some? ==> s.workers[k].pc.ToClear? || !Drops(s, a, k)
    ensures var t := if Next(s, a).Some? then Next(s, a).value else s;
      Taken(t, k, s0) || (Keeping(t, k, NextTurns(turns, a, k), rank0) && StillThere(t, k, s0))
  {
    WorkerOrSetterCanStep(s, k);
    if Next(s, a).Some? {
      StaysLive(s, a, k);
      StepDown(s, a, k);
    }
  }

  lemma {:induction false} RoundsLead(s0: State, schedule: seq<Action>, k: nat)
    requires Live(s0, k) && StillThere(s0, k, s0) && s0.workers[k].flag != 0
    requires NoAlarm(schedule) && !DroppedUnread(s0, schedule, k)
    ensures var s := Exec(s0, schedule);
      Taken(s, k, s0) || (Keeping(s, k, TurnsOf(schedule, k), Rank(s0, k)) && StillThere(s, k, s0))
  {
    if schedule != [] {
      var front, a := schedule[..|schedule| - 1], schedule[|schedule| - 1];
      RoundsLead(s0, front, k);
      NotDropped(s0, schedule, k);
      var s := Exec(s0, front);
      if Taken(s, k, s0) {
        if Next(s, a).Some? { TakenStays(s, a, k, s0); }
      } else {
        KeepingStep(s0, s, a, k, TurnsOf(front, k), Rank(s0, k));
      }
    }
  }

  /** A pending id that is not dropped is picked up: from any state with no alarm running, along any
      schedule without a new alarm, thirteen rounds in which the worker and the setter both get a turn
      are enough, whatever the other threads do and however often the worker wakes spuriously. */
  lemma PickedUpInThirteenRounds(s0: State, schedule: seq<Action>, k: nat)
    requires Live(s0, k) && StillThere(s0, k, s0) && s0.workers[k].flag != 0
    requires NoAlarm(schedule) && !DroppedUnread(s0, schedule, k)
    requires TurnsOf(schedule, k).rounds >= 13
    ensures Taken(Exec(s0, schedule), k, s0)
  {
    RoundsLead(s0, schedule, k);
  }

  // Progress once the setter is through with the worker.

  function WorkerTurns(schedule: seq<Action>, k: nat): nat {
    if schedule == [] then 0
    else WorkerTurns(schedule[..|schedule| - 1], k) + if schedule[|schedule| - 1] == WorkerStep(k) then 1 else 0
  }

  ghost predicate OnItsOwn(s: State, k: nat) { Live(s, k) && (s.workers[k].pc.ToClear? || !SetterAt(s, k)) }

  lemma OwnStep(s0: State, s: State, a: Action, k: nat)
    requires k < |s0.workers| == |s.workers| && OnItsOwn(s, k) && !a.AlarmBegin? && StillThere(s, k, s0)
    requires Next(s, a).Some? ==> s.workers[k].pc.ToClear? || !Drops(s, a, k)
    ensures var t := if Next(s, a).Some? then Next(s, a).value else s;
      Taken(t, k, s0)
      || (OnItsOwn(t, k) && StillThere(t, k, s0) && Rank(t, k) + (if a == WorkerStep(k) then 1 else 0) <= Rank(s, k))
  {
    WorkerOrSetterCanStep(s, k);
    if Next(s, a).Some? {
      StaysLive(s, a, k);
      StepDown(s, a, k);
    }
  }

  lemma {:induction false} OwnTurnsLead(s0: State, schedule: seq<Action>, k: nat)
    requires OnItsOwn(s0, k) && StillThere(s0, k, s0) && s0.workers[k].flag != 0
    requires NoAlarm(schedule) && !DroppedUnread(s0, schedule, k)
    ensures var s := Exec(s0, schedule);
      Taken(s, k, s0)
      || (OnItsOwn(s, k) && StillThere(s, k, s0) && Rank(s, k) + WorkerTurns(schedule, k) <= Rank(s0, k))
  {
    if schedule != [] {
      var front, a := schedule[..|schedule| - 1], schedule[|schedule| - 1];
      OwnTurnsLead(s0, front, k);
      NotDropped(s0, schedule, k);
      var s := Exec(s0, front);
      if Taken(s, k, s0) {
        if Next(s, a).Some? { TakenStays(s, a, k, s0); }
      } else {
        OwnStep(s0, s, a, k);
      }
    }
  }

  /** Once the setter is through with the worker, five turns of the worker are enough, whatever all the
      others do. */
  lemma PickedUpInFiveTurns(s0: State, schedule: seq<Action>, k: nat)
    requires Live(s0, k) && StillThere(s0, k, s0) && s0.workers[k].flag != 0 && !SetterAt(s0, k)
    requires NoAlarm(schedule) && !DroppedUnread(s0, schedule, k)
    requires WorkerTurns(schedule, k) >= 5
    ensures Taken(Exec(s0, schedule), k, s0)
  {
    assert WorkerInv(s0, k);
    OwnTurnsLead(s0, schedule, k);
  }

  // Exactly once, in runs in which no thread is re-targeted (no alarm strikes and the generator is not
  // reset) and no stream of id 0 is started.

  predicate Disturbs(a: Action) { a.AlarmBegin? || a.Reset? || a == Start(0) }

  predicate Undisturbed(schedule: seq<Action>) {
    schedule == [] || (!Disturbs(schedule[|schedule| - 1]) && Undisturbed(schedule[..|schedule| - 1]))
  }

  /** Worker w was given id and has not taken it up, or has taken it up once. */
  predicate Given(me: Worker, id: int) {
    if me.picked == [] then me.flag == id && !me.pc.Working? && (me.pc.ToClear? ==> me.pc.id == id)
    else me.picked == [id] && me.flag == 0 && !me.pc.ToUnlock? && !me.pc.ToRead? && !me.pc.ToClear?
  }

  predicate NotGiven(me: Worker) {
    && me.picked == [] && me.flag == 0
    && (me.pc.ToLock? || me.pc.Testing? || me.pc.ToWait? || me.pc.Blocked? || me.pc.Woken?)
  }

  /** The k-th started id went to the k-th worker. */
  ghost predicate Assigned(s: State) {
    && Inv(s) && s.alarm.None? && OnCourse(s)
    && |s.started| == s.usedThread + (if s.setter.Idle? || s.setter.Aimed? then 0 else 1) <= WFA_THREADS_NUM
    && (s.setter.Bumping? ==> s.setter.read == s.usedThread)
    && (s.setter.Aimed? ==> s.setter.id != 0)
    && (forall w :: 0 <= w < WFA_THREADS_NUM ==> Heard(s, w, false))
    && (forall k :: 0 <= k < |s.started| ==> s.started[k] != 0 && Given(s.workers[k], s.started[k]))
    && (forall k :: |s.started| <= k < WFA_THREADS_NUM ==> NotGiven(s.workers[k]))
  }

  lemma NextKeepsAssigned(s: State, a: Action)
    requires Assigned(s) && !Disturbs(a) && Next(s, a).Some?
    ensures Assigned(Next(s, a).value) && s.started <= Next(s, a).value.started
  {
    var t := Next(s, a).value;
    NextKeepsInv(s, a);
    forall w | 0 <= w < WFA_THREADS_NUM ensures Heard(t, w, false) { HeardStep(s, a, w, false); }
    StartsInOrder(s, a);
  }

  lemma StartsInOrder(s: State, a: Action)
    requires Assigned(s) && !Disturbs(a) && Next(s, a).Some?
    ensures var t := Next(s, a).value;
      && t.alarm.None? && OnCourse(t) && s.started <= t.started
      && |t.started| == t.usedThread + (if t.setter.Idle? || t.setter.Aimed? then 0 else 1) <= |t.workers|
      && (t.setter.Bumping? ==> t.setter.read == t.usedThread)
      && (t.setter.Aimed? ==> t.setter.id != 0)
      && (forall k :: 0 <= k < |t.started| ==> t.started[k] != 0 && Given(t.workers[k], t.started[k]))
      && (forall k :: |t.started| <= k < |t.workers| ==> NotGiven(t.workers[k]))
  {
    var t := Next(s, a).value;
    forall k | 0 <= k < |t.started|
      ensures t.started[k] != 0 && Given(t.workers[k], t.started[k])
    {
      if k < |s.started| { assert Given(s.workers[k], s.started[k]); } else { assert NotGiven(s.workers[k]); }
    }
    forall k | |t.started| <= k < WFA_THREADS_NUM
      ensures NotGiven(t.workers[k])
    {
      assert NotGiven(s.workers[k]);
    }
  }

  /** A state in which a round of starts can begin, INIT among them: every worker is on its way to
      the wait with a clear flag, and the ledgers picked and started count from here. */
  ghost predicate Ready(s: State) {
    && Inv(s) && s.setter.Idle? && s.usedThread == 0 && s.alarm.None? && s.started == []
    && forall w :: 0 <= w < |s.workers| ==> NotGiven(s.workers[w])
  }

  lemma {:induction false} ExecAssigned(s0: State, schedule: seq<Action>)
    requires Assigned(s0) && Undisturbed(schedule)
    ensures Assigned(Exec(s0, schedule)) && s0.started <= Exec(s0, schedule).started
  {
    if schedule != [] {
      var front, a := schedule[..|schedule| - 1], schedule[|schedule| - 1];
      ExecAssigned(s0, front);
      if Next(Exec(s0, front), a).Some? { NextKeepsAssigned(Exec(s0, front), a); }
    }
  }

  /** In such a run no id that waits for its pickup is dropped. */
  lemma {:induction false} UndisturbedDropsNothing(s0: State, schedule: seq<Action>, k: nat)
    requires Assigned(s0) && Undisturbed(schedule) && k < |s0.started| && s0.workers[k].picked == []
    ensures !DroppedUnread(s0, schedule, k) && NoAlarm(schedule)
  {
    assert Given(s0.workers[k], s0.started[k]);
    if schedule != [] {
      var front, a := schedule[..|schedule| - 1], schedule[|schedule| - 1];
      UndisturbedDropsNothing(s0, front, k);
      ExecAssigned(s0, front);
      Track(s0, front, k, false);
      var s := Exec(s0, front);
      assert Given(s.workers[k], s.started[k]);
    }
  }

  /** Thirteen rounds of turns for worker and setter, or five turns of the worker if the setter is through. */
  predicate EnoughTurns(s: State, post: seq<Action>, k: nat) {
    TurnsOf(post, k).rounds >= 13 || (!SetterAt(s, k) && WorkerTurns(post, k) >= 5)
  }

  /** Exactly once: in an undisturbed run every started id is picked up by its own worker and no other
      thread, never twice, and it has been picked up once worker and setter have had their turns. */
  lemma PickedUpExactlyOnce(s0: State, pre: seq<Action>, post: seq<Action>, k: nat)
    requires Ready(s0) && Undisturbed(pre) && Undisturbed(post) && k < |Exec(s0, pre).started|
    ensures var s, id := Exec(Exec(s0, pre), post), Exec(s0, pre).started[k];
      && k < |s.started| && s.started[k] == id && |s.started| <= |s.workers|
      && (EnoughTurns(Exec(s0, pre), post, k) ==> s.workers[k].picked == [id])
      && forall j :: 0 <= j < |s.workers| ==>
           s.workers[j].picked == [] || (j < |s.started| && s.workers[j].picked == [s.started[j]])
  {
    assert Assigned(s0);
    ExecAssigned(s0, pre);
    var p := Exec(s0, pre);
    ExecAssigned(p, post);
    var s := Exec(p, post);
    assert forall j :: 0 <= j < |s.started| ==> Given(s.workers[j], s.started[j]);
    assert forall j :: |s.started| <= j < |s.workers| ==> NotGiven(s.workers[j]);
    assert Given(p.workers[k], p.started[k]);
    if EnoughTurns(p, post, k) { PickedUpAfter(s0, pre, post, k); }
  }

  lemma PendingIsLive(s: State, k: nat)
    requires Assigned(s) && k < |s.started| && s.workers[k].picked == []
    ensures Live(s, k) && StillThere(s, k, s) && s.workers[k].flag != 0
  {
    assert Given(s.workers[k], s.started[k]) && Heard(s, k, false);
  }

  lemma PickedUpAfter(s0: State, pre: seq<Action>, post: seq<Action>, k: nat)
    requires Ready(s0) && Undisturbed(pre) && Undisturbed(post) && Assigned(Exec(s0, pre))
    requires k < |Exec(s0, pre).started| && EnoughTurns(Exec(s0, pre), post, k)
    ensures Exec(Exec(s0, pre), post).workers[k].picked != []
  {
    var p := Exec(s0, pre);
    if p.workers[k].picked == [] {
      PendingIsLive(p, k);
      UndisturbedDropsNothing(p, post, k);
      if TurnsOf(post, k).rounds >= 13 {
        PickedUpInThirteenRounds(p, post, k);
      } else {
        PickedUpInFiveTurns(p, post, k);
      }
    } else {
      PicksStay(p, post, k);
    }
  }

  lemma NextKeepsPicks(s: State, a: Action, k: nat)
    requires k < |s.workers| && Next(s, a).Some?
    ensures s.workers[k].picked <= Next(s, a).value.workers[k].picked
  {
  }

  lemma {:induction false} PicksStay(s0: State, schedule: seq<Action>, k: nat)
    requires k < |s0.workers|
    ensures s0.workers[k].picked <= Exec(s0, schedule).workers[k].picked
  {
    if schedule != [] {
      var front, a := schedule[..|schedule| - 1], schedule[|schedule| - 1];
      PicksStay(s0, front, k);
      if Next(Exec(s0, front), a).Some? { NextKeepsPicks(Exec(s0, front), a, k); }
    }
  }
}
