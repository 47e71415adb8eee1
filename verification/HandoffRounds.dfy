/** Rounds of starts: what a reset of the generator and the end of an alarm are for. Once a round is over, either
    of them makes the threads usable again from the first one on. */
module HandoffRounds {
  import opened Options
  import opened Handoff
  import opened HandoffFate

  /** The worker is on its way to the wait with a clear flag, whatever it has done before. */
  predicate Parked(me: Worker) {
    me.flag == 0 && (me.pc.ToLock? || me.pc.Testing? || me.pc.ToWait? || me.pc.Blocked? || me.pc.Woken?)
  }

  /** No start is under way, no alarm is running, and every worker is parked. */
  ghost predicate AllParked(s: State) {
    && Inv(s) && s.setter.Idle? && s.alarm.None?
    && forall w :: 0 <= w < |s.workers| ==> Parked(s.workers[w])
  }

  /** An undisturbed round is over when every started id has been picked up and no thread is at work. */
  lemma RoundIsOver(s0: State, round: seq<Action>)
    requires Ready(s0) && Undisturbed(round) && Exec(s0, round).setter.Idle?
    requires var s := Exec(s0, round);
      forall w :: 0 <= w < |s.workers| ==> !s.workers[w].pc.Working? && (w < |s.started| ==> s.workers[w].picked != [])
    ensures AllParked(Exec(s0, round))
  {
    ExecAssigned(s0, round);
    var s := Exec(s0, round);
    forall w | 0 <= w < |s.workers| ensures Parked(s.workers[w]) {
      assert if w < |s.started| then Given(s.workers[w], s.started[w]) else NotGiven(s.workers[w]);
    }
  }

  /** A thread that is through with its work goes back to its wait. */
  lemma FinishParks(s: State, w: nat, clears: bool)
    requires w < |s.workers| && s.workers[w].pc.Working? && !s.setter.Undefined?
    requires clears || s.workers[w].flag == 0
    ensures Next(s, Finish(w, clears)).Some? && Parked(Next(s, Finish(w, clears)).value.workers[w])
  {
  }

  // Ledgers count from anywhere.

  /** s with its ledgers emptied. */
  function Emptied(s: State): State {
    s.(started := [],
       workers := seq(|s.workers|, w requires 0 <= w < |s.workers| => s.workers[w].(picked := [])))
  }

  /** t is f with the ledgers of s in front. */
  ghost predicate Continues(s: State, f: State, t: State) {
    && |s.workers| == |f.workers| == |t.workers|
    && t == f.(started := s.started + f.started, workers := t.workers)
    && forall w :: 0 <= w < |t.workers| ==>
         t.workers[w] == f.workers[w].(picked := s.workers[w].picked + f.workers[w].picked)
  }

  lemma ContinuesStep(s: State, f: State, t: State, a: Action)
    requires Continues(s, f, t)
    ensures Next(f, a).Some? <==> Next(t, a).Some?
    ensures Next(f, a).Some? ==> Continues(s, Next(f, a).value, Next(t, a).value)
  {
  }

  lemma {:induction false} ContinuesRun(s: State, t: State, schedule: seq<Action>)
    requires Continues(s, Emptied(t), t)
    ensures Continues(s, Exec(Emptied(t), schedule), Exec(t, schedule))
  {
    if schedule != [] {
      var front := schedule[..|schedule| - 1];
      ContinuesRun(s, t, front);
      ContinuesStep(s, Exec(Emptied(t), front), Exec(t, front), schedule[|schedule| - 1]);
    }
  }

  lemma EmptiedIsReady(s: State)
    requires AllParked(s) && s.usedThread == 0
    ensures Ready(Emptied(s)) && Continues(s, Emptied(s), s)
  {
    var e := Emptied(s);
    forall w | 0 <= w < |e.workers| ensures WorkerInv(e, w) && NotGiven(e.workers[w]) {
      assert WorkerInv(s, w) && Parked(s.workers[w]);
    }
  }

  // Between two rounds.

  predicate NoStart(mid: seq<Action>) { mid == [] || (!mid[|mid| - 1].Start? && NoStart(mid[..|mid| - 1])) }

  /** The schedule holds a reset or the beginning of an alarm. */
  predicate CleansUp(mid: seq<Action>) {
    mid != [] && (mid[|mid| - 1].Reset? || mid[|mid| - 1].AlarmBegin? || CleansUp(mid[..|mid| - 1]))
  }

  /** s, but that the workers may have moved around their waits, and an alarm may be running. */
  ghost predicate Rests(s: State, t: State, cleaned: bool) {
    && Inv(t) && t.setter.Idle? && t.started == s.started && |t.workers| == |s.workers|
    && t.usedThread == (if cleaned then 0 else s.usedThread) && (t.alarm.Some? ==> cleaned)
    && forall w :: 0 <= w < |t.workers| ==> Parked(t.workers[w]) && t.workers[w].picked == s.workers[w].picked
  }

  lemma RestsOn(s: State, t: State, cleaned: bool, a: Action)
    requires Rests(s, t, cleaned) && !a.Start? && Next(t, a).Some?
    ensures Rests(s, Next(t, a).value, cleaned || a.Reset? || a.AlarmBegin?)
  {
    NextKeepsInv(t, a);
  }

  /** Without a start nothing happens but that a reset or an alarm sets usedThread to 0. */
  lemma {:induction false} NothingStarts(s: State, mid: seq<Action>)
    requires AllParked(s) && NoStart(mid)
    ensures Rests(s, Exec(s, mid), CleansUp(mid))
  {
    if mid != [] {
      var front, a := mid[..|mid| - 1], mid[|mid| - 1];
      NothingStarts(s, front);
      var t := Exec(s, front);
      if Next(t, a).Some? { RestsOn(s, t, CleansUp(front), a); }
    }
  }

  /** s was at rest, and mid has cleaned up: it holds a reset or an alarm, no alarm is left running, and
      there was no start. */
  ghost predicate CleanedUp(s: State, mid: seq<Action>) {
    AllParked(s) && NoStart(mid) && CleansUp(mid) && Exec(s, mid).alarm.None?
  }

  /** A new round: all threads being parked, however many starts they have seen, after a reset or an alarm
      and along any undisturbed schedule, the k-th id stored is for worker k; it is picked up by that
      worker once at most, no other ids are, and it has been picked up once worker and setter have had
      their turns. */
  lemma NewRound(s: State, mid: seq<Action>, pre: seq<Action>, post: seq<Action>, k: nat)
    requires CleanedUp(s, mid) && Undisturbed(pre) && Undisturbed(post)
    requires |s.started| + k < |Exec(Exec(s, mid), pre).started|
    ensures var p := Exec(Exec(s, mid), pre);
      var t, n, id := Exec(p, post), |s.started|, p.started[|s.started| + k];
      && n + k < |t.started| <= n + WFA_THREADS_NUM && t.started[n + k] == id && k < |t.workers| == |s.workers|
      && (EnoughTurns(p, post, k) ==> t.workers[k].picked == s.workers[k].picked + [id])
      && forall j :: 0 <= j < |t.workers| ==>
           t.workers[j].picked == s.workers[j].picked
           || (n + j < |t.started| && t.workers[j].picked == s.workers[j].picked + [t.started[n + j]])
  {
    NothingStarts(s, mid);
    RoundFrom(Exec(s, mid), pre, post, k);
  }

  lemma RoundFrom(r: State, pre: seq<Action>, post: seq<Action>, k: nat)
    requires AllParked(r) && r.usedThread == 0 && Undisturbed(pre) && Undisturbed(post)
    requires |r.started| + k < |Exec(r, pre).started|
    ensures var p := Exec(r, pre);
      var t, n, id := Exec(p, post), |r.started|, p.started[|r.started| + k];
      && n + k < |t.started| <= n + WFA_THREADS_NUM && t.started[n + k] == id && k < |t.workers| == |r.workers|
      && (EnoughTurns(p, post, k) ==> t.workers[k].picked == r.workers[k].picked + [id])
      && forall j :: 0 <= j < |t.workers| ==>
           t.workers[j].picked == r.workers[j].picked
           || (n + j < |t.started| && t.workers[j].picked == r.workers[j].picked + [t.started[n + j]])
  {
    EmptiedIsReady(r);
    ContinuesRun(r, r, pre);
    ExecJoin(Emptied(r), pre, post);
    ExecJoin(r, pre, post);
    ContinuesRun(r, r, pre + post);
    PickedUpExactlyOnce(Emptied(r), pre, post, k);
    SameTurns(r, Exec(Emptied(r), pre), Exec(r, pre), post, k);
  }

  lemma SameTurns(s: State, f: State, t: State, post: seq<Action>, k: nat)
    requires Continues(s, f, t)
    ensures EnoughTurns(f, post, k) <==> EnoughTurns(t, post, k)
  {
  }

  /** Eight of them can be started: whenever the setter is idle the next start is possible if and only if
      fewer than eight have been started since the clean-up, and it aims at the next worker. */
  lemma EightStartsInNewRound(s: State, mid: seq<Action>, post: seq<Action>, id: int)
    requires CleanedUp(s, mid) && Undisturbed(post)
    ensures var t := Exec(Exec(s, mid), post);
      var n := |t.started| - |s.started|;
      && 0 <= n <= WFA_THREADS_NUM
      && (t.setter.Idle? ==>
            && (Next(t, Start(id)).Some? <==> n < WFA_THREADS_NUM)
            && (n < WFA_THREADS_NUM ==> Next(t, Start(id)) == Some(t.(setter := Aimed(n, id)))))
  {
    NothingStarts(s, mid);
    var r := Exec(s, mid);
    EmptiedIsReady(r);
    ContinuesRun(r, r, post);
    ExecAssigned(Emptied(r), post);
  }

  /** Without a clean-up there is no new round: after eight starts no thread is left. */
  lemma NoNinthStart(s: State, mid: seq<Action>, id: int)
    requires AllParked(s) && s.usedThread == WFA_THREADS_NUM && NoStart(mid)
    ensures Next(Exec(s, mid), Start(id)).Some? <==> CleansUp(mid)
  {
    NothingStarts(s, mid);
  }
}
