/** How the console ends and begins again: the STOP it exits on, a station's RESET, and what a HELLO is for,
    the first one of a station or one after a reset. */
module ConsoleExits {
  import opened CInt
  import opened Options
  import opened ConsoleScript
  import opened Console
  import opened ConsoleTables
  import opened ConsoleCyclic

  /** Whose message the main loop takes this for. */
  function Sender(cfg: Config, s: State, d: Datagram): nat { if s.sta.None? || cfg.keepFrom then d.src else s.from }

  predicate Listens(cfg: Config, s: State, d: Datagram) {
    s.exit.None? && s.awaiting == 0 && !Ignored(cfg, Sender(cfg, s, d), d.msg)
  }

  // Quitting.

  /** d registers a new station in a slot other than the first. */
  predicate AnotherStation(cfg: Config, s: State, d: Datagram) {
    Listens(cfg, s, d) && d.msg.kind == APTS_HELLO && SlotOf(s.stations, Sender(cfg, s, d)).None? &&
    var slot := SlotOf(s.stations, 0);
    slot.Some? && slot.value > 0
  }

  /** One for the single station of most tests; then the STOPs accepted since the last other one registered. */
  function StopsPending(cfg: Config, ds: seq<Datagram>): nat {
    if ds == [] then 1
    else
      var front, d := ds[..|ds| - 1], ds[|ds| - 1];
      var s := Run(cfg, INIT, front);
      if AnotherStation(cfg, s, d) then 0
      else StopsPending(cfg, front) + if TakesStop(cfg, s, d) then 1 else 0
  }

  predicate Pends(s: State, pending: nat) {
    && pending <= 2 && (s.exit == Some(Stopped) <==> pending == 2)
    && (s.exit.None? ==> (s.canQuit <==> pending == 1))
  }

  lemma HelloPends(cfg: Config, s: State, d: Datagram, pending: nat)
    requires cfg.Valid() && Pends(s, pending) && d.msg.kind == APTS_HELLO
    ensures Pends(Next(cfg, s, d), if AnotherStation(cfg, s, d) then 0 else pending)
  {
  }

  lemma MessagePends(cfg: Config, s: State, d: Datagram, pending: nat)
    requires cfg.Valid() && OnScript(cfg, s.stations) && Pends(s, pending) && d.msg.kind != APTS_HELLO
    ensures Pends(Next(cfg, s, d), pending + if TakesStop(cfg, s, d) then 1 else 0)
  {
  }

  lemma NextPends(cfg: Config, s: State, d: Datagram, pending: nat)
    requires cfg.Valid() && OnScript(cfg, s.stations) && Pends(s, pending)
    ensures Pends(Next(cfg, s, d), if AnotherStation(cfg, s, d) then 0
                                   else pending + if TakesStop(cfg, s, d) then 1 else 0)
  {
    if d.msg.kind == APTS_HELLO { HelloPends(cfg, s, d, pending); } else { MessagePends(cfg, s, d, pending); }
  }

  /** In every run of every test the console exits through a STOP exactly when it accepts one with another
      pending: the first one it accepts, or the second one since another station registered. */
  lemma {:induction false} StopsOnSecondPending(cfg: Config, ds: seq<Datagram>)
    requires cfg.Valid()
    ensures var s, pending := Run(cfg, INIT, ds), StopsPending(cfg, ds);
      && pending <= 2 && (s.exit == Some(Stopped) <==> pending == 2)
      && (s.exit.None? ==> (s.canQuit <==> pending == 1))
  {
    if ds != [] {
      var front := ds[..|ds| - 1];
      StopsOnSecondPending(cfg, front);
      RunTable(cfg, front);
      NextPends(cfg, Run(cfg, INIT, front), ds[|ds| - 1], StopsPending(cfg, front));
    }
  }

  // A station's RESET and RESET_STOP.

  predicate FromStation(cfg: Config, s: State, d: Datagram) {
    Listens(cfg, s, d) && !s.reset && SlotOf(s.stations, Sender(cfg, s, d)).Some?
  }

  function ResetResponse(cfg: Config, s: State, to: nat): Sent {
    Sent(Some(to), Msg(s.tx, ToUInt(cfg.be), APTS_RESET_RESP), Low(cfg.be))
  }

  predicate Unretried(s: State) { s.exit.None? ==> s.numRetry == 0 && s.awaiting == 0 && !s.reset }

  lemma NextUnretried(cfg: Config, s: State, d: Datagram)
    requires cfg.Valid() && cfg.test != L_1 && OnScript(cfg, s.stations) && Unretried(s)
    ensures Unretried(Next(cfg, s, d))
  {
  }

  lemma {:induction false} RunUnretried(cfg: Config, ds: seq<Datagram>)
    requires cfg.Valid() && cfg.test != L_1
    ensures Unretried(Run(cfg, INIT, ds))
  {
    if ds != [] {
      var front := ds[..|ds| - 1];
      RunUnretried(cfg, front);
      RunTable(cfg, front);
      NextUnretried(cfg, Run(cfg, INIT, front), ds[|ds| - 1]);
    }
  }

  lemma EndsByStation(cfg: Config, s: State, d: Datagram)
    requires cfg.Valid() && OnScript(cfg, s.stations) && s.exit.None? && (s.awaiting == 0 ==> s.numRetry < MAXRETRY)
    ensures var n, from := Next(cfg, s, d), Sender(cfg, s, d);
      && (n.exit == Some(ResetByStation) <==> FromStation(cfg, s, d) && d.msg.kind == APTS_RESET)
      && (n.exit == Some(Killed) <==> FromStation(cfg, s, d) && d.msg.kind == APTS_RESET_STOP)
      && (n.exit == Some(ResetByStation) ==> n.out == s.out + [ResetResponse(cfg, s, from)])
      && (n.exit == Some(Killed) ==> n.out == s.out)
  {
  }

  /** In every run of every test a registered station ends the console with a RESET, which is answered
      with one RESET_RESP whatever resets went before, or with a RESET_STOP, which is not; and nothing
      else has these endings. */
  lemma StationEndsIt(cfg: Config, ds: seq<Datagram>, d: Datagram)
    requires cfg.Valid() && Run(cfg, INIT, ds).exit.None?
    ensures var s := Run(cfg, INIT, ds);
      var n, from := Next(cfg, s, d), Sender(cfg, s, d);
      && (n.exit == Some(ResetByStation) <==> FromStation(cfg, s, d) && d.msg.kind == APTS_RESET)
      && (n.exit == Some(Killed) <==> FromStation(cfg, s, d) && d.msg.kind == APTS_RESET_STOP)
      && (n.exit == Some(ResetByStation) ==> n.out == s.out + [ResetResponse(cfg, s, from)])
      && (n.exit == Some(Killed) ==> n.out == s.out)
  {
    RunTable(cfg, ds);
    if cfg.test == L_1 { SurvivesOneBadMessage(cfg, ds, d); } else { RunUnretried(cfg, ds); }
    EndsByStation(cfg, Run(cfg, INIT, ds), d);
  }

  // Resetting on a bad message.

  function ResetTo(cfg: Config, s: State, to: nat): Sent {
    Sent(Some(to), Msg(s.tx, ToUInt(cfg.be), APTS_RESET), s.dscp)
  }

  predicate NoAnswer(ds: seq<Datagram>) { forall i :: 0 <= i < |ds| ==> ds[i].msg.kind != APTS_RESET_RESP }

  /** While the console waits for the answer to a RESET it notes the sender of what it receives, and nothing else. */
  lemma {:induction false} WaitsOnly(cfg: Config, s: State, ds: seq<Datagram>)
    requires s.exit.None? && s.awaiting > 0 && NoAnswer(ds)
    ensures Run(cfg, s, ds) == s.(from := if ds == [] then s.from else ds[|ds| - 1].src)
  {
    if ds != [] { WaitsOnly(cfg, s, ds[..|ds| - 1]); }
  }

  lemma AnsweredWait(cfg: Config, s: State, ds: seq<Datagram>, answer: Datagram)
    requires s.exit.None? && s.awaiting > 0 && NoAnswer(ds) && answer.msg.kind == APTS_RESET_RESP
    ensures Run(cfg, s, ds + [answer]) == Next(cfg, s, answer)
  {
    WaitsOnly(cfg, s, ds);
    RunSnoc(cfg, s, ds, answer);
  }

  /** The whole of a bad message to an L.1 console that has not been reset: a RESET to its sender, one more to
      whoever answers that, and the end of the waiting with the next answer. Nothing else happens, whatever
      is received in between. */
  lemma TwoResets(cfg: Config, s: State, bad: Datagram, a: seq<Datagram>, first: Datagram,
                  b: seq<Datagram>, second: Datagram)
    requires IsL1(cfg) && BadMessage(cfg, s, bad) && s.numRetry == 0 && s.awaiting == 0
    requires NoAnswer(a) && NoAnswer(b)
    requires first.msg.kind == APTS_RESET_RESP && second.msg.kind == APTS_RESET_RESP
    ensures var sender := Sender(cfg, s, bad);
      Run(cfg, s, [bad] + (a + [first]) + (b + [second]))
      == s.(sta := SlotOf(s.stations, sender), reset := true, numRetry := 2, from := second.src,
            out := s.out + [ResetTo(cfg, s, sender)] + [ResetTo(cfg, s, first.src)])
  {
    var none: seq<Datagram> := [];
    RunSnoc(cfg, s, none, bad);
    assert none + [bad] == [bad];
    var t := Next(cfg, s, bad);
    assert t.awaiting == 2 && t.exit.None?;
    RunJoin(cfg, s, [bad], a + [first]);
    AnsweredWait(cfg, t, a, first);
    var u := Next(cfg, t, first);
    RunJoin(cfg, s, [bad] + (a + [first]), b + [second]);
    AnsweredWait(cfg, u, b, second);
  }

  function StopsSent(out: seq<Sent>): nat {
    if out == [] then 0 else StopsSent(out[..|out| - 1]) + if out[|out| - 1].msg.kind == APTS_STOP then 1 else 0
  }

  /** At most one frame more, a STOP if and only if it has to be one. */
  predicate SendsAtMostOne(out: seq<Sent>, out': seq<Sent>, stop: bool) {
    || (out' == out && !stop)
    || (|out'| == |out| + 1 && out'[..|out|] == out && (out'[|out|].msg.kind == APTS_STOP <==> stop))
  }

  lemma DispatchStops(cfg: Config, s: State, id: nat, m: Msg)
    requires IsL1(cfg) && id < |s.stations| && s.stations[id].state <= Terminal(cfg.test)
    ensures var stop := m.kind == APTS_STOP && s.stations[id].state == 2 && ExpectedL1(m, APTS_STOP);
      SendsAtMostOne(s.out, Dispatch(cfg, s, id, m).out, stop)
  {
    assert Script(cfg.test)[0] == Hello && Script(cfg.test)[1] == Conf && Script(cfg.test)[2] == Cyclic;
  }

  lemma HelloStops(cfg: Config, s: State, d: Datagram)
    requires IsL1(cfg) && (d.msg.kind == APTS_HELLO || s.awaiting > 0)
    ensures SendsAtMostOne(s.out, Next(cfg, s, d).out, false)
  {
    var r := s.(from := Sender(cfg, s, d));
    var slot := SlotFor(r);
    if Listens(cfg, s, d) && slot.Some? { DispatchStops(cfg, Enrolled(r, slot.value), slot.value, d.msg); }
  }

  lemma MessageStops(cfg: Config, s: State, d: Datagram)
    requires IsL1(cfg) && OnScript(cfg, s.stations) && d.msg.kind != APTS_HELLO && s.awaiting == 0
    ensures SendsAtMostOne(s.out, Next(cfg, s, d).out, TakesStop(cfg, s, d))
  {
    var r := s.(from := Sender(cfg, s, d));
    var slot := SlotOf(r.stations, r.from);
    if FromStation(cfg, s, d) {
      DispatchStops(cfg, r.(sta := slot), slot.value, d.msg);
      assert Script(cfg.test)[0] == Hello && Script(cfg.test)[1] == Conf && Script(cfg.test)[2] == Cyclic;
    }
  }

  /** In every L.1 run, resets or not, as many STOPs are sent as are accepted. */
  lemma {:induction false} EveryStopIsAnswered(cfg: Config, ds: seq<Datagram>)
    requires IsL1(cfg)
    ensures StopsSent(Run(cfg, INIT, ds).out) == StopsTaken(cfg, INIT, ds)
  {
    if ds != [] {
      var front := ds[..|ds| - 1];
      EveryStopIsAnswered(cfg, front);
      RunTable(cfg, front);
      var s, d := Run(cfg, INIT, front), ds[|ds| - 1];
      if d.msg.kind == APTS_HELLO || s.awaiting > 0 { HelloStops(cfg, s, d); } else { MessageStops(cfg, s, d); }
    }
  }

  // Registering, for the first time or again.

  /** The first n frames echoed to a station. */
  function Echoed(cfg: Config, to: nat, n: nat): seq<Sent> {
    if n == 0 then [] else Echoed(cfg, to, n - 1) + [Echo(to, n, cfg.vo)]
  }

  /** Station `to` in slot id of an L.1 console has come to this state, and has been echoed n frames since s. */
  ghost predicate Serves(cfg: Config, s: State, t: State, to: nat, id: nat, state: nat, n: nat)
    requires id < |s.stations|
  {
    && t.exit.None? && t.awaiting == 0 && !t.reset && t.numRetry == s.numRetry && t.sta.Some? && t.from == to
    && t.stations == s.stations[id := Station(to, state, n)] && t.count == s.count + n
    && t.out == s.out + [Sent(Some(to), Msg(s.tx, 0, cfg.test), s.dscp)] + Echoed(cfg, to, n)
  }

  predicate IsClient(cfg: Config, to: nat) { to != 0 && to != cfg.local && to != cfg.target }

  lemma FirstSlot(ts: seq<Station>, id: nat, to: nat, st: Station)
    requires id < |ts| && st.addr == to && (SlotOf(ts, to) == Some(id) || SlotOf(ts, to).None?)
    ensures SlotOf(ts[id := st], to) == Some(id)
  {
    assert ts[id := st][id] == st;
  }

  lemma RegistersAt(cfg: Config, s: State, hello: Datagram, to: nat, id: nat)
    requires IsL1(cfg) && IsClient(cfg, to) && s.exit.None? && s.awaiting == 0 && Sender(cfg, s, hello) == to
    requires SlotFor(s.(from := to)) == Some(id) && Accepts(cfg, Hello, hello.msg)
    ensures Serves(cfg, s, Next(cfg, s, hello), to, id, 1, 0)
  {
    assert Script(cfg.test)[0] == Hello;
    var cmd := [Sent(Some(to), Msg(s.tx, 0, cfg.test), s.dscp)];
    assert s.out + cmd + Echoed(cfg, to, 0) == s.out + cmd;
    assert s.stations[id := Station(to, 0, 0)][id := Station(to, 1, 0)] == s.stations[id := Station(to, 1, 0)];
  }

  lemma ConfirmsAt(cfg: Config, s: State, t: State, confirm: Datagram, to: nat, id: nat)
    requires IsL1(cfg) && IsClient(cfg, to) && id < |s.stations| && Serves(cfg, s, t, to, id, 1, 0)
    requires SlotOf(t.stations, to) == Some(id)
    requires Sender(cfg, t, confirm) == to && Accepts(cfg, Conf, confirm.msg)
    ensures Serves(cfg, s, Next(cfg, t, confirm), to, id, 2, 0)
  {
    assert Script(cfg.test)[1] == Conf;
    assert t.out + [] == t.out;
    assert s.stations[id := Station(to, 1, 0)][id := Station(to, 2, 0)] == s.stations[id := Station(to, 2, 0)];
  }

  lemma EchoesAt(cfg: Config, s: State, t: State, d: Datagram, to: nat, id: nat, n: nat)
    requires IsL1(cfg) && IsClient(cfg, to) && id < |s.stations| && Serves(cfg, s, t, to, id, 2, n)
    requires SlotOf(t.stations, to) == Some(id)
    requires Sender(cfg, t, d) == to && ExpectedL1(d.msg, APTS_DEFAULT)
    ensures Serves(cfg, s, Next(cfg, t, d), to, id, 2, n + 1)
  {
    assert Script(cfg.test)[2] == Cyclic;
    var cmd := [Sent(Some(to), Msg(s.tx, 0, cfg.test), s.dscp)];
    assert s.out + cmd + Echoed(cfg, to, n) + [Echo(to, n + 1, cfg.vo)] == s.out + cmd + Echoed(cfg, to, n + 1);
    assert s.stations[id := Station(to, 2, n)][id := Station(to, 2, n + 1)]
        == s.stations[id := Station(to, 2, n + 1)];
  }

  lemma TwoSteps(cfg: Config, s: State, a: Datagram, b: Datagram)
    ensures Run(cfg, s, [a, b]) == Next(cfg, Next(cfg, s, a), b)
  {
    var none: seq<Datagram> := [];
    RunSnoc(cfg, s, none, a);
    RunSnoc(cfg, s, none + [a], b);
    assert none + [a] + [b] == [a, b];
  }

  lemma OneEchoMore(cfg: Config, s: State, first: seq<Datagram>, data: seq<Datagram>, to: nat, id: nat)
    requires IsL1(cfg) && IsClient(cfg, to) && id < |s.stations| && data != []
    requires var t := Run(cfg, s, first + data[..|data| - 1]);
      Serves(cfg, s, t, to, id, 2, |data| - 1) && SlotOf(t.stations, to) == Some(id)
    requires var d := data[|data| - 1];
      ExpectedL1(d.msg, APTS_DEFAULT) && d.src == to
    requires cfg.keepFrom || s.sta.None? || s.from == to
    ensures Serves(cfg, s, Run(cfg, s, first + data), to, id, 2, |data|)
  {
    SnocJoin(first, data);
    EchoesAt(cfg, s, Run(cfg, s, first + data[..|data| - 1]), data[|data| - 1], to, id, |data| - 1);
  }

  /** A HELLO starts a station over: whether it is new or known to a console that has been reset, its HELLO and
      CONFIRM bring it to the cyclic handler, which answers its n frames with echoes 1, ..., n, and no
      other station is touched. */
  lemma {:induction false} StartsOver(cfg: Config, s: State, hello: Datagram, confirm: Datagram, data: seq<Datagram>,
                                      id: nat)
    requires IsL1(cfg) && IsClient(cfg, hello.src) && s.exit.None? && s.awaiting == 0
    requires cfg.keepFrom || s.sta.None? || s.from == hello.src
    requires SlotFor(s.(from := hello.src)) == Some(id)
    requires Accepts(cfg, Hello, hello.msg) && Accepts(cfg, Conf, confirm.msg) && confirm.src == hello.src
    requires forall i :: 0 <= i < |data| ==> ExpectedL1(data[i].msg, APTS_DEFAULT) && data[i].src == hello.src
    ensures var t := Run(cfg, s, [hello, confirm] + data);
      && Serves(cfg, s, t, hello.src, id, 2, |data|) && SlotOf(t.stations, hello.src) == Some(id)
    decreases |data|
  {
    var to := hello.src;
    FirstSlot(s.stations, id, to, Station(to, 2, |data|));
    if data == [] {
      assert [hello, confirm] + data == [hello, confirm];
      TwoSteps(cfg, s, hello, confirm);
      RegistersAt(cfg, s, hello, to, id);
      FirstSlot(s.stations, id, to, Station(to, 1, 0));
      ConfirmsAt(cfg, s, Next(cfg, s, hello), confirm, to, id);
    } else {
      var front := data[..|data| - 1];
      StartsOver(cfg, s, hello, confirm, front, id);
      OneEchoMore(cfg, s, [hello, confirm], data, to, id);
    }
  }

  // The number of stations.

  /** nsta counts the registered stations, as long as there was no reset. */
  ghost predicate Enumerated(s: State) {
    s.numRetry == 0 ==>
      && !s.reset && s.awaiting == 0 && s.nsta <= NSTA == |s.stations|
      && forall i :: 0 <= i < NSTA ==> (s.stations[i].addr != 0 <==> i < s.nsta)
  }

  lemma DispatchEnumerated(cfg: Config, s: State, id: nat, m: Msg)
    requires cfg.Valid() && Enumerated(s) && id < |s.stations| && s.stations[id].state <= Terminal(cfg.test)
    ensures Enumerated(Dispatch(cfg, s, id, m))
  {
    var n := Dispatch(cfg, s, id, m);
    DispatchChanges(cfg, s, id, m);
    assert n.nsta == s.nsta
      && (n.numRetry == 0 ==> s.numRetry == 0 && n.reset == s.reset && n.awaiting == s.awaiting);
    forall i | 0 <= i < |s.stations| ensures n.stations[i].addr == s.stations[i].addr {
    }
  }

  lemma FirstFree(ts: seq<Station>, n: nat)
    requires n <= |ts| && forall i :: 0 <= i < |ts| ==> (ts[i].addr != 0 <==> i < n)
    ensures SlotOf(ts, 0) == if n < |ts| then Some(n) else None
  {
    if n < |ts| { assert ts[n].addr == 0; }
  }

  lemma RegisterEnumerated(cfg: Config, s: State, m: Msg)
    requires cfg.Valid() && Enumerated(s) && s.from != 0
    ensures Enumerated(Register(cfg, s, m))
  {
    var slot := SlotFor(s);
    if slot.Some? {
      if s.numRetry == 0 { FirstFree(s.stations, s.nsta); }
      DispatchEnumerated(cfg, Enrolled(s, slot.value), slot.value, m);
    }
  }

  lemma NextEnumerated(cfg: Config, s: State, d: Datagram)
    requires cfg.Valid() && OnScript(cfg, s.stations) && Enumerated(s)
    ensures Enumerated(Next(cfg, s, d))
  {
    var r := s.(from := Sender(cfg, s, d));
    if Listens(cfg, s, d) {
      if d.msg.kind == APTS_HELLO {
        RegisterEnumerated(cfg, r, d.msg);
      } else {
        var id := SlotOf(r.stations, r.from);
        if id.Some? { DispatchEnumerated(cfg, r.(sta := id), id.value, d.msg); }
      }
    }
  }

  /** In every run of every test without a reset nsta is the number of registered stations. */
  lemma {:induction false} StationsAreCounted(cfg: Config, ds: seq<Datagram>)
    requires cfg.Valid()
    ensures Enumerated(Run(cfg, INIT, ds))
  {
    if ds == [] {
      assert forall i :: 0 <= i < |INIT.stations| ==> INIT.stations[i].addr == 0;
    } else {
      var front := ds[..|ds| - 1];
      StationsAreCounted(cfg, front);
      RunTable(cfg, front);
      NextEnumerated(cfg, Run(cfg, INIT, front), ds[|ds| - 1]);
    }
  }
}
