/** Runs of the hand-off in which something goes wrong: a lost wakeup, an undefined unlock, a dropped id. */
module HandoffRuns {
  import opened Options
  import opened Handoff

  function Do(s: State, a: Action): State { if Next(s, a).Some? then Next(s, a).value else s }

  /** Appends an action to a schedule that leads to s. */
  lemma Act(run: seq<Action>, s: State, a: Action) returns (run': seq<Action>, s': State)
    requires s == Exec(INIT, run)
    ensures s' == Do(s, a) && s' == Exec(INIT, run')
  {
    run', s' := run + [a], Do(s, a);
    assert run'[..|run|] == run;
  }

  /** The first half of a start: from reading usedThread to holding the mutex. */
  lemma StoreAndLock(run: seq<Action>, s: State, id: int) returns (run': seq<Action>, s': State)
    requires s == Exec(INIT, run) && id != 0 && s.setter.Idle? && s.usedThread < |s.workers|
    requires s.workers[s.usedThread].mutex.Free?
    ensures s' == Exec(INIT, run')
    ensures s' == s.(setter := Locked, held := Some(s.usedThread), started := s.started + [id],
                     workers := s.workers[s.usedThread := s.workers[s.usedThread].(flag := id, mutex := Setter)])
  {
    run', s' := Act(run, s, Start(id));
    run', s' := Act(run', s', SetterStep);
    run', s' := Act(run', s', SetterStep);
    run', s' := Act(run', s', SetterStep);
  }

  /** The second half, for a worker that does not wait. */
  lemma SignalAndUnlock(run: seq<Action>, s: State) returns (run': seq<Action>, s': State)
    requires s == Exec(INIT, run) && s.setter.Locked? && s.held == Some(s.usedThread) && s.usedThread < |s.workers|
    requires !s.workers[s.usedThread].pc.Blocked?
    ensures s' == Exec(INIT, run')
    ensures s' == s.(setter := Idle, held := None, usedThread := s.usedThread + 1,
                     workers := s.workers[s.usedThread := s.workers[s.usedThread].(mutex := Free)])
  {
    run', s' := Act(run, s, SetterStep);
    run', s' := Act(run', s', SetterStep);
    assert s' == s.(setter := Signalled);
    run', s' := UnlockAndBump(run', s');
  }

  lemma UnlockAndBump(run: seq<Action>, s: State) returns (run': seq<Action>, s': State)
    requires s == Exec(INIT, run) && s.setter.Signalled? && s.held == Some(s.usedThread) && s.usedThread < |s.workers|
    ensures s' == Exec(INIT, run')
    ensures s' == s.(setter := Idle, held := None, usedThread := s.usedThread + 1,
                     workers := s.workers[s.usedThread := s.workers[s.usedThread].(mutex := Free)])
  {
    run', s' := Act(run, s, SetterStep);
    run', s' := Act(run', s', SetterStep);
    run', s' := Act(run', s', SetterStep);
    run', s' := Act(run', s', SetterStep);
  }

  /** A run that stores its first id for the first worker, whose thread has not begun to run. */
  lemma FirstStart(id: int) returns (run: seq<Action>, s: State)
    requires id != 0
    ensures s == Exec(INIT, run)
    ensures s == INIT.(usedThread := 1, started := [id], workers := INIT.workers[0 := IDLE_WORKER.(flag := id)])
  {
    run, s := [], INIT;
    run, s := StoreAndLock(run, s, id);
    run, s := SignalAndUnlock(run, s);
    assert s.workers == INIT.workers[0 := IDLE_WORKER.(flag := id)];
  }

  /** A run in which a wakeup is lost: the alarm clears the flags after the setter has read usedThread, the
      setter then stores the id all the same and signals another worker, and in the end the setter is
      idle, no alarm is running, and the second worker is blocked with the id in its flag. */
  lemma WakeupIsLost(id: int) returns (run: seq<Action>, s: State)
    requires id != 0
    ensures s == Exec(INIT, run) && s.setter.Idle? && s.alarm.None?
    ensures s.workers[1].pc.Blocked? && s.workers[1].flag == id
  {
    run, s := FirstStart(id);
    run, s := Act(run, s, WorkerStep(1));
    run, s := Act(run, s, WorkerStep(1));
    run, s := Act(run, s, WorkerStep(1));
    assert s.workers[1] == Worker(0, Free, Blocked, []);
    run, s := StoreAfterAlarm(run, s, id);
    run, s := Act(run, s, SetterStep);
    run, s := Act(run, s, SetterStep);
    run, s := SignalAndUnlock(run, s);
  }

  lemma StoreAfterAlarm(run: seq<Action>, s: State, id: int) returns (run': seq<Action>, s': State)
    requires s == Exec(INIT, run) && id != 0 && s.setter.Idle? && s.usedThread == 1 && s.alarm.None?
    requires |s.workers| > 1 && s.workers[0].(flag := 0) == IDLE_WORKER && s.workers[1] == Worker(0, Free, Blocked, [])
    ensures s' == Exec(INIT, run')
    ensures s' == s.(usedThread := 0, setter := Stored, workers := s'.workers, started := s.started + [id])
    ensures |s'.workers| == |s.workers|
    ensures s'.workers[0] == IDLE_WORKER && s'.workers[1] == Worker(id, Free, Blocked, [])
  {
    run', s' := Act(run, s, Start(id));
    run', s' := AlarmPasses(run', s');
    run', s' := Act(run', s', SetterStep);
  }

  /** The whole of the alarm handler. */
  lemma AlarmPasses(run: seq<Action>, s: State) returns (run': seq<Action>, s': State)
    requires s == Exec(INIT, run) && s.alarm.None? && !s.setter.Undefined?
    ensures s' == Exec(INIT, run')
    ensures s' == s.(usedThread := 0, workers := s'.workers)
    ensures forall w :: 0 <= w < |s.workers| ==> s'.workers[w] == s.workers[w].(flag := 0)
  {
    run', s' := Act(run, s, AlarmBegin);
    while s'.alarm.value < |s.workers|
      invariant s' == Exec(INIT, run') && s'.alarm.Some? && s'.alarm.value <= |s.workers|
      invariant s' == s.(usedThread := 0, workers := s'.workers, alarm := s'.alarm) && |s'.workers| == |s.workers|
      invariant forall w :: 0 <= w < |s.workers| ==>
        s'.workers[w] == if w < s'.alarm.value then s.workers[w].(flag := 0) else s.workers[w]
    {
      run', s' := Act(run', s', AlarmStep);
    }
    run', s' := Act(run', s', AlarmStep);
  }

  /** A run that ends in an undefined unlock, struck while the setter was waiting for the mutex. */
  lemma UnlockIsUndefined(id: int) returns (run: seq<Action>, s: State)
    requires id != 0
    ensures s == Exec(INIT, run) && s.setter.Undefined? && s.workers[1].mutex.Setter?
  {
    run, s := FirstStart(id);
    run, s := Act(run, s, Start(id));
    run, s := Act(run, s, SetterStep);
    run, s := Act(run, s, SetterStep);
    run, s := Act(run, s, AlarmBegin);
    run, s := Act(run, s, SetterStep);
    run, s := UnlockAnother(run, s);
  }

  lemma UnlockAnother(run: seq<Action>, s: State) returns (run': seq<Action>, s': State)
    requires s == Exec(INIT, run) && s.setter.Locked? && s.usedThread == 0
    requires |s.workers| > 1 && s.held == Some(1) && s.workers[1].mutex.Setter?
    ensures s' == Exec(INIT, run') && s'.setter.Undefined? && s'.workers[1].mutex.Setter?
  {
    run', s' := Act(run, s, SetterStep);
    run', s' := Act(run', s', SetterStep);
    run', s' := Act(run', s', SetterStep);
    run', s' := Act(run', s', SetterStep);
  }

  /** A run in which a started id is dropped: the alarm clears its flag before anybody reads it, and the id
      is nowhere any more. */
  lemma AlarmDropsId(id: int) returns (run: seq<Action>, s: State)
    requires id != 0
    ensures s == Exec(INIT, run) && s.started == [id] && s.alarm.None? && s.setter.Idle?
    ensures forall w :: 0 <= w < |s.workers| ==> s.workers[w].flag == 0 && s.workers[w].picked == []
  {
    run, s := FirstStart(id);
    run, s := AlarmPasses(run, s);
  }
}
