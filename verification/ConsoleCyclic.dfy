/** Runs of the console for L.1, where several stations take part: the cached count, and the discipline
    of quitting and resetting. */
module ConsoleCyclic {
  import opened CInt
  import opened Options
  import opened ConsoleScript
  import opened Console
  import opened ConsoleTables

  predicate IsL1(cfg: Config) { cfg.Valid() && cfg.test == L_1 }

  // The count of echoed messages.

  function Total(ts: seq<Station>): nat {
    if ts == [] then 0 else Total(ts[..|ts| - 1]) + ts[|ts| - 1].msgno
  }

  lemma {:induction false} TotalUpdate(ts: seq<Station>, id: nat, st: Station)
    requires id < |ts|
    ensures Total(ts[id := st]) == Total(ts) - ts[id].msgno + st.msgno
  {
    var front := ts[..|ts| - 1];
    if id == |ts| - 1 {
      assert ts[id := st][..id] == front;
    } else {
      TotalUpdate(front, id, st);
      assert ts[id := st][..|ts| - 1] == front[id := st];
    }
  }

  lemma {:induction false} TotalPrefix(ts: seq<Station>, k: nat)
    requires k <= |ts| && forall i :: k <= i < |ts| ==> ts[i].msgno == 0
    ensures Total(ts) == Total(ts[..k])
  {
    if k < |ts| {
      TotalPrefix(ts[..|ts| - 1], k);
      assert ts[..|ts| - 1][..k] == ts[..k];
    } else {
      assert ts[..k] == ts;
    }
  }

  lemma {:induction false} TallyFrom(ts: seq<Station>, i: nat)
    requires Table(ts) && i <= |ts|
    ensures Total(ts[..i]) + Tally(ts, i) == Total(ts)
    decreases |ts| - i
  {
    if i == |ts| {
      assert ts[..i] == ts;
    } else if ts[i].addr == 0 {
      TotalPrefix(ts, i);
    } else {
      TallyFrom(ts, i + 1);
      assert ts[..i + 1][..i] == ts[..i];
    }
  }

  /** The sum up to the first free slot is the sum over the whole table. */
  lemma TallyIsTotal(ts: seq<Station>)
    requires Table(ts)
    ensures Tally(ts) == Total(ts)
  {
    TallyFrom(ts, 0);
  }

  ghost predicate Counted(s: State) {
    s.numRetry == 0 ==> !s.reset && s.awaiting == 0 && s.count == Total(s.stations)
  }

  lemma DispatchDelta(cfg: Config, s: State, id: nat, m: Msg)
    requires IsL1(cfg) && id < |s.stations| && s.stations[id].state <= Terminal(cfg.test)
    ensures var n := Dispatch(cfg, s, id, m);
      n.numRetry == 0 ==>
        && n.reset == s.reset && n.awaiting == s.awaiting && s.numRetry == 0
        && (n.count == s.count + n.stations[id].msgno - s.stations[id].msgno
            || (n.count == Tally(s.stations) && n.stations == s.stations))
  {
  }

  lemma DispatchCounts(cfg: Config, s: State, id: nat, m: Msg)
    requires IsL1(cfg) && Table(s.stations) && OnScript(cfg, s.stations) && Counted(s) && id < NSTA
    ensures Counted(Dispatch(cfg, s, id, m))
  {
    var n := Dispatch(cfg, s, id, m);
    DispatchDelta(cfg, s, id, m);
    DispatchChanges(cfg, s, id, m);
    TotalUpdate(s.stations, id, n.stations[id]);
    TallyIsTotal(s.stations);
  }

  lemma RegisterCounts(cfg: Config, s: State, m: Msg)
    requires IsL1(cfg) && Table(s.stations) && OnScript(cfg, s.stations) && Counted(s) && s.from != 0
    ensures Counted(Register(cfg, s, m))
  {
    var slot := SlotFor(s);
    if slot.Some? {
      var id := slot.value;
      TotalUpdate(s.stations, id, Station(s.from, 0, 0));
      var e := Enrolled(s, id);
      if s.numRetry == 0 {
        assert OneChanged(cfg, s.stations, e.stations, id, e.stations[id]);
        TableUpdate(cfg, s.stations, e.stations, id, e.stations[id]);
        DispatchCounts(cfg, e, id, m);
      } else {
        assert Dispatch(cfg, e, id, m).numRetry >= s.numRetry;
      }
    }
  }

  lemma NextCounts(cfg: Config, s: State, d: Datagram)
    requires IsL1(cfg) && Table(s.stations) && OnScript(cfg, s.stations) && Counted(s)
    ensures Counted(Next(cfg, s, d))
  {
    var r := s.(from := if s.sta.None? || cfg.keepFrom then d.src else s.from);
    if s.exit.None? && s.awaiting == 0 && !Ignored(cfg, r.from, d.msg) {
      var slot := SlotOf(r.stations, r.from);
      if d.msg.kind == APTS_HELLO {
        RegisterCounts(cfg, r, d.msg);
      } else if slot.Some? {
        DispatchCounts(cfg, r.(sta := slot), slot.value, d.msg);
      }
    }
  }

  lemma {:induction false} RunCounts(cfg: Config, ds: seq<Datagram>)
    requires IsL1(cfg)
    ensures Counted(Run(cfg, INIT, ds))
  {
    if ds == [] {
      TotalPrefix(INIT.stations, 0);
    } else {
      var front := ds[..|ds| - 1];
      RunCounts(cfg, front);
      RunTable(cfg, front);
      NextCounts(cfg, Run(cfg, INIT, front), ds[|ds| - 1]);
    }
  }

  /** In every L.1 run without a reset, with any number of stations, the running count is the sum of all
      stations' msgno, so recomputing it on a STOP changes nothing. */
  lemma CountIsTotal(cfg: Config, ds: seq<Datagram>)
    requires IsL1(cfg) && Run(cfg, INIT, ds).numRetry == 0
    ensures var s := Run(cfg, INIT, ds);
      s.count == Total(s.stations) == Tally(s.stations)
  {
    RunCounts(cfg, ds);
    RunTable(cfg, ds);
    TallyIsTotal(Run(cfg, INIT, ds).stations);
  }

  /** After a reset it can differ: a station that registers again takes its msgno out of the sum and
      leaves the count as it was. */
  lemma ReregistrationDrifts(cfg: Config, s: State, d: Datagram, id: nat)
    requires IsL1(cfg) && s.exit.None? && s.awaiting == 0 && s.reset && id < |s.stations|
    requires var from := if s.sta.None? || cfg.keepFrom then d.src else s.from;
      SlotOf(s.stations, from) == Some(id) && !Ignored(cfg, from, d.msg) && d.msg.kind == APTS_HELLO
    ensures var n := Next(cfg, s, d);
      && n.count == s.count && Total(n.stations) == Total(s.stations) - s.stations[id].msgno
      && (s.count == Total(s.stations) ==> (n.count == Total(n.stations) <==> s.stations[id].msgno == 0))
  {
    var n := Next(cfg, s, d);
    assert n.stations == s.stations[id := n.stations[id]] && n.stations[id].msgno == 0;
    TotalUpdate(s.stations, id, n.stations[id]);
  }

  // Resetting.

  lemma NextFreezes(cfg: Config, s: State, d: Datagram)
    requires s.reset && d.msg.kind != APTS_HELLO
    ensures var n := Next(cfg, s, d);
      && n.reset && n.stations == s.stations && n.count == s.count && n.canQuit == s.canQuit && n.sta == s.sta
      && (n.exit == s.exit || n.exit == Some(Dead))
      && (n.out == s.out || n.out == s.out + [Sent(Some(n.from), Msg(n.tx, ToUInt(cfg.be), APTS_RESET), n.dscp)])
  {
  }

  /** While a reset is under way, and after it until a HELLO comes, nothing happens to the stations, the
      count or the quitting: only RESETs are sent. */
  lemma {:induction false} ResetFreezes(cfg: Config, s: State, ds: seq<Datagram>)
    requires s.reset && forall i :: 0 <= i < |ds| ==> ds[i].msg.kind != APTS_HELLO
    ensures var n := Run(cfg, s, ds);
      && n.reset && n.stations == s.stations && n.count == s.count && n.canQuit == s.canQuit && n.sta == s.sta
      && (n.exit == s.exit || n.exit == Some(Dead))
      && |s.out| <= |n.out| && n.out[..|s.out|] == s.out
      && forall i :: |s.out| <= i < |n.out| ==> n.out[i].msg.kind == APTS_RESET
  {
    if ds != [] {
      var front := ds[..|ds| - 1];
      ResetFreezes(cfg, s, front);
      NextFreezes(cfg, Run(cfg, s, front), ds[|ds| - 1]);
    }
  }

  /** The handler a datagram is passed to, if any. */
  function Called(cfg: Config, s: State, d: Datagram): Option<Handler> {
    var from := if s.sta.None? || cfg.keepFrom then d.src else s.from;
    var id := SlotOf(s.stations, from);
    if s.exit.Some? || s.awaiting > 0 || s.reset || Ignored(cfg, from, d.msg) || id.None? then None
    else if d.msg.kind in {APTS_HELLO, APTS_RESET, APTS_RESET_STOP} then None
    else if s.stations[id.value].state >= |Script(cfg.test)| then None
    else Some(Script(cfg.test)[s.stations[id.value].state])
  }

  /** The message is one that the cyclic handler takes for neither data nor a STOP. */
  predicate BadMessage(cfg: Config, s: State, d: Datagram) {
    Called(cfg, s, d) == Some(Cyclic) && !ExpectedL1(d.msg, APTS_DEFAULT) && d.msg.kind != APTS_STOP
  }

  function BadMessages(cfg: Config, s: State, ds: seq<Datagram>): nat {
    if ds == [] then 0
    else
      var front := ds[..|ds| - 1];
      BadMessages(cfg, s, front) + if BadMessage(cfg, Run(cfg, s, front), ds[|ds| - 1]) then 1 else 0
  }

  /** Each bad message costs two retries, the second of them once the RESET is answered. */
  predicate Paid(s: State, bad: nat) {
    s.exit.None? ==>
      s.awaiting <= 2 && s.numRetry <= MAXRETRY && s.numRetry == 2 * bad - if s.awaiting == 2 then 1 else 0
  }

  lemma PaysAwaiting(cfg: Config, s: State, d: Datagram, bad: nat)
    requires Paid(s, bad) && s.exit.None? && s.awaiting > 0
    ensures var n := Next(cfg, s, d);
      Paid(n, bad) && (n.exit == Some(Dead) <==> bad == 2 && s.awaiting == 2 && d.msg.kind == APTS_RESET_RESP)
  {
  }

  lemma PaysOnHello(cfg: Config, s: State, d: Datagram, bad: nat)
    requires IsL1(cfg) && Paid(s, bad) && s.exit.None? && s.awaiting == 0 && d.msg.kind == APTS_HELLO
    ensures Paid(Next(cfg, s, d), bad) && Next(cfg, s, d).exit != Some(Dead)
  {
  }

  lemma PaysOnReset(cfg: Config, s: State, d: Datagram, bad: nat)
    requires IsL1(cfg) && Paid(s, bad) && s.exit.None? && s.awaiting == 0
    requires d.msg.kind == APTS_RESET || d.msg.kind == APTS_RESET_STOP
    ensures Paid(Next(cfg, s, d), bad) && Next(cfg, s, d).exit != Some(Dead)
  {
  }

  lemma PaysOnMessage(cfg: Config, s: State, d: Datagram, bad: nat)
    requires IsL1(cfg) && OnScript(cfg, s.stations) && Paid(s, bad) && s.exit.None? && s.awaiting == 0
    requires d.msg.kind != APTS_HELLO && d.msg.kind != APTS_RESET && d.msg.kind != APTS_RESET_STOP
    ensures var n := Next(cfg, s, d);
      Paid(n, bad + if BadMessage(cfg, s, d) then 1 else 0) && n.exit != Some(Dead)
  {
  }

  lemma NextPays(cfg: Config, s: State, d: Datagram, bad: nat)
    requires IsL1(cfg) && OnScript(cfg, s.stations) && Paid(s, bad)
    ensures var n := Next(cfg, s, d);
      && Paid(n, bad + if BadMessage(cfg, s, d) then 1 else 0)
      && (s.exit.None? ==>
            (n.exit == Some(Dead) <==> bad == 2 && s.awaiting == 2 && d.msg.kind == APTS_RESET_RESP))
  {
    if s.exit.None? {
      if s.awaiting > 0 { PaysAwaiting(cfg, s, d, bad); }
      else if d.msg.kind == APTS_HELLO { PaysOnHello(cfg, s, d, bad); }
      else if d.msg.kind == APTS_RESET || d.msg.kind == APTS_RESET_STOP { PaysOnReset(cfg, s, d, bad); }
      else { PaysOnMessage(cfg, s, d, bad); }
    }
  }

  lemma {:induction false} RunPays(cfg: Config, ds: seq<Datagram>)
    requires IsL1(cfg)
    ensures Paid(Run(cfg, INIT, ds), BadMessages(cfg, INIT, ds))
  {
    if ds != [] {
      var front := ds[..|ds| - 1];
      RunPays(cfg, front);
      RunTable(cfg, front);
      NextPays(cfg, Run(cfg, INIT, front), ds[|ds| - 1], BadMessages(cfg, INIT, front));
    }
  }

  /** A running L.1 console has taken at most two bad messages, and one that is back in its main loop at
      most one; it dies exactly when the RESET it sent for the second is answered. */
  lemma SurvivesOneBadMessage(cfg: Config, ds: seq<Datagram>, d: Datagram)
    requires IsL1(cfg) && Run(cfg, INIT, ds).exit.None?
    ensures var s, bad := Run(cfg, INIT, ds), BadMessages(cfg, INIT, ds);
      && bad <= 2 && (s.awaiting == 0 ==> bad <= 1 && s.numRetry == 2 * bad)
      && (Next(cfg, s, d).exit == Some(Dead) <==> bad == 2 && d.msg.kind == APTS_RESET_RESP)
  {
    RunPays(cfg, ds);
    RunTable(cfg, ds);
    NextPays(cfg, Run(cfg, INIT, ds), d, BadMessages(cfg, INIT, ds));
  }

  // Quitting.

  predicate TakesStop(cfg: Config, s: State, d: Datagram) {
    || (Called(cfg, s, d) == Some(Cyclic) && ExpectedL1(d.msg, APTS_STOP))
    || (Called(cfg, s, d) == Some(WaitStop) && Expected(d.msg, APTS_STOP, cfg.be))
  }

  function StopsTaken(cfg: Config, s: State, ds: seq<Datagram>): nat {
    if ds == [] then 0
    else
      var front := ds[..|ds| - 1];
      StopsTaken(cfg, s, front) + if TakesStop(cfg, Run(cfg, s, front), ds[|ds| - 1]) then 1 else 0
  }

  /** With can_quit clear it takes one STOP to set it and another to exit. */
  predicate Stops(s: State, taken: nat) {
    (s.exit == Some(Stopped) ==> taken >= 2) && (s.exit.None? && s.canQuit ==> taken >= 1)
  }

  lemma NextStops(cfg: Config, s: State, d: Datagram, taken: nat)
    requires Stops(s, taken)
    ensures Stops(Next(cfg, s, d), taken + if TakesStop(cfg, s, d) then 1 else 0)
  {
  }

  lemma {:induction false} RunStops(cfg: Config, s: State, ds: seq<Datagram>)
    requires s.exit.None? && !s.canQuit
    ensures Stops(Run(cfg, s, ds), StopsTaken(cfg, s, ds))
  {
    if ds != [] {
      var front := ds[..|ds| - 1];
      RunStops(cfg, s, front);
      NextStops(cfg, Run(cfg, s, front), ds[|ds| - 1], StopsTaken(cfg, s, front));
    }
  }

  /** After any station has registered in a slot other than the first, the console exits through a STOP
      only at the second STOP it accepts from then on, at the earliest. */
  lemma QuitNeedsTwoStops(cfg: Config, pre: seq<Datagram>, d: Datagram, post: seq<Datagram>, id: nat)
    requires cfg.Valid() && 0 < id < NSTA
    ensures var s, n := Run(cfg, INIT, pre), Run(cfg, INIT, pre + [d]);
      s.stations[id].addr == 0 && n.stations[id].addr != 0 && n.exit.None?
      && Run(cfg, INIT, pre + [d] + post).exit == Some(Stopped)
      ==> StopsTaken(cfg, n, post) >= 2
  {
    RunSnoc(cfg, INIT, pre, d);
    RunJoin(cfg, INIT, pre + [d], post);
    var s, n := Run(cfg, INIT, pre), Run(cfg, INIT, pre + [d]);
    if s.stations[id].addr == 0 && n.stations[id].addr != 0 && n.exit.None? {
      NewSlotClearsCanQuit(cfg, s, d, id);
      RunStops(cfg, n, post);
    }
  }

  lemma NewSlotClearsCanQuit(cfg: Config, s: State, d: Datagram, id: nat)
    requires cfg.Valid() && 0 < id < |s.stations|
    requires s.stations[id].addr == 0 && Next(cfg, s, d).stations[id].addr != 0
    requires Next(cfg, s, d).exit.None?
    ensures !Next(cfg, s, d).canQuit
  {
  }
}
