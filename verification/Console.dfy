/** The console's receive loop and state handlers (console_src/wfa_con.c, console_src/wfa_sndrcv.c,
    console_src/wfa_util.c). One Step takes one datagram. The receive loop nested in WfaConResetAll is
    the same blocking receive, so the state says how many RESET_RESP the handler still waits for. */
module Console {
  import opened CInt
  import opened Options
  import opened ConsoleScript

  const NSTA: nat := 20
  const MAXRETRY: nat := 3

  /** addr 0 marks a free slot. */
  datatype Station = Station(addr: nat, state: nat, msgno: nat)

  const FREE := Station(0, 0, 0)

  datatype Datagram = Datagram(src: nat, msg: Msg)

  /** NullCall: the call through an empty table entry. */
  datatype Exit = Stopped | Killed | ResetByStation | Dead | NullCall

  /** tx is word 0 of txmsg, dscp the TOS of the socket, out everything sent so far. */
  datatype State = State(
    stations: seq<Station>, nsta: nat, sta: Option<nat>, from: nat,
    reset: bool, numRetry: nat, awaiting: nat, canQuit: bool, count: int,
    tx: int, dscp: int, out: seq<Sent>, exit: Option<Exit>)

  const INIT := State(
    [FREE, FREE, FREE, FREE, FREE, FREE, FREE, FREE, FREE, FREE,
     FREE, FREE, FREE, FREE, FREE, FREE, FREE, FREE, FREE, FREE],
    0, None, 0, false, 0, 0, true, 0, 0, 0, [], None)

  /** The first slot at or after i that holds addr. */
  function SlotOf(stations: seq<Station>, addr: nat, i: nat := 0): (r: Option<nat>)
    ensures r.Some? ==> i <= r.value < |stations| && stations[r.value].addr == addr
    ensures forall k :: i <= k < (if r.Some? then r.value else |stations|) ==> stations[k].addr != addr
    decreases |stations| - i
  {
    if i >= |stations| then None
    else if stations[i].addr == addr then Some(i)
    else SlotOf(stations, addr, i + 1)
  }

  /** The messages numbered so far, over the stations before the first free slot. */
  function Tally(stations: seq<Station>, i: nat := 0): nat
    decreases |stations| - i
  {
    if i >= |stations| || stations[i].addr == 0 then 0 else stations[i].msgno + Tally(stations, i + 1)
  }

  function Send(s: State, m: Msg): State { s.(out := s.out + [Sent(Some(s.from), m, s.dscp)]) }

  /** One more retry: the console dies of the fourth, and otherwise sends a RESET and waits for the
      answer; pending is how many answers the handler waits for in all. */
  function Retry(cfg: Config, s: State, pending: nat): State {
    var r := s.(reset := true, numRetry := s.numRetry + 1);
    if r.numRetry > MAXRETRY then r.(exit := Some(Dead))
    else Send(r.(awaiting := pending), Msg(r.tx, ToUInt(cfg.be), APTS_RESET))
  }

  /** The answer to a station's RESET, after which the console exits. */
  function AnswerReset(cfg: Config, s: State): State {
    var r := s.(reset := true, numRetry := s.numRetry + 1);
    if r.numRetry > MAXRETRY then r.(exit := Some(Dead))
    else Send(r.(dscp := Low(cfg.be)), Msg(r.tx, ToUInt(cfg.be), APTS_RESET_RESP)).(exit := Some(ResetByStation))
  }

  function Quit(s: State): State { if s.canQuit then s.(exit := Some(Stopped)) else s.(canQuit := true) }

  /** Station id after an answer; step is how far its state moves. */
  function Answered(s: State, id: nat, a: Answer, step: nat): State
    requires id < |s.stations|
  {
    s.(stations := s.stations[id := s.stations[id].(state := s.stations[id].state + step, msgno := a.msgno)],
       tx := a.tx, dscp := a.dscp, out := s.out + a.frames)
  }

  /** The L.1 handler: echoes VO and BE frames, answers a STOP with the total, and resets on anything
      else, twice because it checks twice. */
  function CyclicStep(cfg: Config, s: State, id: nat, m: Msg): (r: State)
    requires id < |s.stations|
    ensures |r.stations| == |s.stations|
  {
    if ExpectedL1(m, APTS_DEFAULT) then
      var n := s.stations[id].msgno + 1;
      Answered(s, id, Answer([Echo(s.from, n, cfg.vo)], n, s.tx, Low(cfg.vo)), 0).(count := s.count + 1)
    else if m.kind != APTS_STOP then Retry(cfg, s, 2)
    else if !ExpectedL1(m, APTS_STOP) then s
    else
      var total := Tally(s.stations);
      Quit(Send(s.(count := total, tx := total, dscp := Low(cfg.be)), Msg(total, ToUInt(cfg.be), APTS_STOP)))
  }

  /** What handler h does with message m of station id. */
  function Handle(cfg: Config, s: State, id: nat, h: Handler, m: Msg): (r: State)
    requires id < |s.stations|
    ensures |r.stations| == |s.stations|
  {
    if h.Cyclic? then CyclicStep(cfg, s, id, m)
    else
      var a := Reply(cfg, h, s.from, s.stations[id].msgno, s.tx, s.dscp);
      if h.WaitStop? then
        var t := Answered(s, id, a, 0);
        if Expected(m, APTS_STOP, cfg.be) then Quit(t) else t
      else if Accepts(cfg, h, m) then Answered(s, id, a, 1)
      else s
  }

  function Dispatch(cfg: Config, s: State, id: nat, m: Msg): (r: State)
    requires id < |s.stations|
    ensures |r.stations| == |s.stations|
  {
    var state := s.stations[id].state;
    if m.kind == APTS_RESET then AnswerReset(cfg, s)
    else if m.kind == APTS_RESET_STOP then s.(exit := Some(Killed))
    else if state >= |Script(cfg.test)| then s.(exit := Some(NullCall))
    else Handle(cfg, s, id, Script(cfg.test)[state], m)
  }

  /** The slot a HELLO registers in: a new station takes the first free one, a known one registers
      anew only after a reset. */
  function SlotFor(s: State): (r: Option<nat>)
    ensures r.Some? ==> r.value < |s.stations|
  {
    var known := SlotOf(s.stations, s.from);
    if known.None? then SlotOf(s.stations, 0) else if s.reset then known else None
  }

  /** A new station in any slot but the first clears can_quit. */
  function Enrolled(s: State, id: nat): State
    requires id < |s.stations|
  {
    s.(stations := s.stations[id := Station(s.from, 0, 0)], sta := Some(id),
       canQuit := s.canQuit && (id == 0 || SlotOf(s.stations, s.from).Some?),
       nsta := if s.reset then s.nsta else s.nsta + 1, reset := false)
  }

  function Register(cfg: Config, s: State, m: Msg): (r: State)
    ensures |r.stations| == |s.stations|
  {
    var id := SlotFor(s);
    if id.None? then s else Dispatch(cfg, Enrolled(s, id.value), id.value, m)
  }

  /** From these the console does not process anything. */
  predicate Ignored(cfg: Config, from: nat, m: Msg) {
    from == 0 || from == cfg.local || from == cfg.target || m.kind == APTS_BCST
  }

  /** The state after one more datagram. Once a station has registered, the sender's address is taken
      only in L.1AP mode; an exit is final. */
  function Next(cfg: Config, s: State, d: Datagram): (r: State)
    ensures |r.stations| == |s.stations|
  {
    if s.exit.Some? then s
    else if s.awaiting > 0 then
      var r := s.(from := d.src);
      if d.msg.kind != APTS_RESET_RESP then r
      else if s.awaiting > 1 then Retry(cfg, r, s.awaiting - 1)
      else r.(awaiting := 0)
    else
      var r := s.(from := if s.sta.None? || cfg.keepFrom then d.src else s.from);
      if Ignored(cfg, r.from, d.msg) then r
      else if d.msg.kind == APTS_HELLO then Register(cfg, r, d.msg)
      else if r.reset then r
      else
        var id := SlotOf(r.stations, r.from);
        if id.None? then r else Dispatch(cfg, r.(sta := id), id.value, d.msg)
  }

  function Run(cfg: Config, s: State, ds: seq<Datagram>): (r: State)
    ensures |r.stations| == |s.stations|
  {
    if ds == [] then s else Next(cfg, Run(cfg, s, ds[..|ds| - 1]), ds[|ds| - 1])
  }

  lemma RunSnoc(cfg: Config, s: State, ds: seq<Datagram>, d: Datagram)
    ensures Run(cfg, s, ds + [d]) == Next(cfg, Run(cfg, s, ds), d)
  {
    assert (ds + [d])[..|ds|] == ds;
  }

  lemma SnocJoin<T>(a: seq<T>, b: seq<T>)
    requires b != []
    ensures a + b != [] && (a + b)[..|a + b| - 1] == a + b[..|b| - 1] && (a + b)[|a + b| - 1] == b[|b| - 1]
  {
  }

  lemma {:induction false} RunJoin(cfg: Config, s: State, a: seq<Datagram>, b: seq<Datagram>)
    ensures Run(cfg, s, a + b) == Run(cfg, Run(cfg, s, a), b)
  {
    if b == [] {
      assert a + b == a;
    } else {
      SnocJoin(a, b);
      RunJoin(cfg, s, a, b[..|b| - 1]);
    }
  }

  class ConsoleProcess {
    const cfg: Config
    var stations: seq<Station>
    var nsta: nat
    var sta: Option<nat>
    var from: nat
    var reset: bool
    var numRetry: nat
    var awaiting: nat
    var canQuit: bool
    var count: int
    var rmsg: Msg
    var txmsg: Msg
    var dscp: int
    var out: seq<Sent>
    var exit: Option<Exit>

    ghost function View(): State
      reads this
    {
      State(stations, nsta, sta, from, reset, numRetry, awaiting, canQuit, count, txmsg.number, dscp, out, exit)
    }

    constructor (cfg: Config)
      ensures this.cfg == cfg && View() == INIT
    {
      this.cfg := cfg;
      stations := INIT.stations;
      nsta, sta, from, reset, numRetry, awaiting := 0, None, 0, false, 0, 0;
      canQuit, count, dscp, out, exit := true, 0, 0, [], None;
      rmsg, txmsg := Msg(0, 0, 0), Msg(0, 0, 0);
    }

    method GetStaId(addr: nat) returns (id: Option<nat>)
      ensures id == SlotOf(stations, addr)
    {
      var i := 0;
      while i < |stations|
        invariant i <= |stations|
        invariant SlotOf(stations, addr) == SlotOf(stations, addr, i)
      {
        if stations[i].addr == addr { return Some(i); }
        i := i + 1;
      }
      return None;
    }

    method AssignStaId(addr: nat) returns (id: Option<nat>)
      modifies this
      ensures id == old(SlotOf(stations, 0))
      ensures View() == (if id.None? then old(View()) else
        old(View()).(stations := old(stations)[id.value := old(stations)[id.value].(addr := addr)],
                     canQuit := old(canQuit) && id.value == 0))
      ensures rmsg == old(rmsg)
    {
      id := GetStaId(0);
      if id.Some? {
        stations := stations[id.value := stations[id.value].(addr := addr)];
        if id.value > 0 { canQuit := false; }
      }
    }

    method SetDscp(tos: int)
      modifies this`dscp, this`rmsg
      ensures dscp == Low(tos) && rmsg == old(rmsg).(tos := Low(tos))
    {
      dscp := tos % 256;
      rmsg := rmsg.(tos := dscp);
    }

    method CreateAptsMsg(kind: int)
      modifies this`txmsg
      ensures txmsg == Msg(old(txmsg).number, 0, kind)
    {
      txmsg := txmsg.(tos := 0, kind := kind);
    }

    method SendTo(m: Msg)
      modifies this`out
      ensures out == old(out) + [Sent(Some(from), m, dscp)]
    {
      out := out + [Sent(Some(from), m, dscp)];
    }

    method Broadcast()
      modifies this`out
      ensures out == old(out) + [Sent(None, rmsg, 0)]
    {
      out := out + [Sent(None, rmsg, 0)];
    }

    method NextNumber(id: nat) returns (n: nat)
      requires id < |stations|
      modifies this`stations
      ensures n == old(stations)[id].msgno + 1 && stations == old(stations)[id := old(stations)[id].(msgno := n)]
    {
      n := stations[id].msgno + 1;
      stations := stations[id := stations[id].(msgno := n)];
    }

    method Advance(id: nat)
      requires id < |stations|
      modifies this`stations
      ensures stations == old(stations)[id := old(stations)[id].(state := old(stations)[id].state + 1)]
    {
      stations := stations[id := stations[id].(state := stations[id].state + 1)];
    }

    /** Stamps the received message with the next number and sends it back with the given TOS. */
    method EchoBack(id: nat, tos: int)
      requires id < |stations|
      modifies this`stations, this`rmsg, this`dscp, this`out
      ensures var n := old(stations)[id].msgno + 1;
        && stations == old(stations)[id := old(stations)[id].(msgno := n)]
        && rmsg == Msg(n, Low(tos), old(rmsg).kind) && dscp == Low(tos)
        && out == old(out) + [Sent(Some(from), rmsg, dscp)]
    {
      var n := NextNumber(id);
      rmsg := rmsg.(number := n);
      SetDscp(tos);
      SendTo(rmsg);
    }

    method RcvHello(id: nat)
      requires id < |stations|
      modifies this
      ensures View() == Handle(cfg, old(View()), id, Hello, old(rmsg))
    {
      if Expected(rmsg, APTS_HELLO, cfg.be) {
        CreateAptsMsg(cfg.test);
        SendTo(txmsg);
        Advance(id);
      }
    }

    method RcvConf(id: nat)
      requires id < |stations|
      modifies this
      ensures View() == Handle(cfg, old(View()), id, Conf, old(rmsg))
    {
      if Expected(rmsg, APTS_CONFIRM, cfg.be) { Advance(id); }
    }

    method RcvConfSndVI(id: nat)
      requires id < |stations|
      modifies this
      ensures View() == Handle(cfg, old(View()), id, ConfSndVI, old(rmsg))
    {
      if Expected(rmsg, APTS_CONFIRM, cfg.be) {
        SendVI(id);
        Advance(id);
      }
    }

    method SendVI(id: nat)
      requires id < |stations|
      modifies this`stations, this`rmsg, this`txmsg, this`dscp, this`out
      ensures var n := old(stations)[id].msgno + 1;
        && stations == old(stations)[id := old(stations)[id].(msgno := n)]
        && txmsg == Msg(n, ToUInt(cfg.vi), APTS_DEFAULT) && dscp == Low(cfg.vi)
        && out == old(out) + [Sent(Some(from), txmsg, dscp)]
    {
      SetDscp(cfg.vi);
      var n := NextNumber(id);
      txmsg := txmsg.(number := n);
      CreateAptsMsg(APTS_DEFAULT);
      txmsg := txmsg.(tos := ToUInt(cfg.vi));
      SendTo(txmsg);
    }

    method RcvOnly(id: nat, ac: Ac)
      requires id < |stations|
      modifies this
      ensures View() == Handle(cfg, old(View()), id, Rcv(ac), old(rmsg))
    {
      if Expected(rmsg, APTS_DEFAULT, cfg.Tos(ac)) { Advance(id); }
    }

    method RcvThenSnd(id: nat, ac: Ac, reply: Ac)
      requires id < |stations|
      modifies this
      ensures View() == Handle(cfg, old(View()), id, RcvSnd(ac, reply), old(rmsg))
    {
      if Expected(rmsg, APTS_DEFAULT, cfg.Tos(ac)) {
        EchoBack(id, cfg.Tos(reply));
        Advance(id);
      }
    }

    method RcvSnd2VO(id: nat)
      requires id < |stations|
      modifies this
      ensures View() == Handle(cfg, old(View()), id, RcvVOSnd2VO, old(rmsg))
    {
      if Expected(rmsg, APTS_DEFAULT, cfg.vo) {
        EchoTwice(id);
        Advance(id);
      }
    }

    method EchoTwice(id: nat)
      requires id < |stations| && rmsg.kind == APTS_DEFAULT
      modifies this`stations, this`rmsg, this`dscp, this`out
      ensures var n := old(stations)[id].msgno;
        && stations == old(stations)[id := old(stations)[id].(msgno := n + 2)]
        && dscp == Low(cfg.vo) && out == old(out) + [Echo(from, n + 1, cfg.vo), Echo(from, n + 2, cfg.vo)]
    {
      EchoBack(id, cfg.vo);
      var n := NextNumber(id);
      rmsg := rmsg.(number := n);
      SendTo(rmsg);
    }

    method RcvSndAllE(id: nat)
      requires id < |stations|
      modifies this
      ensures View() == Handle(cfg, old(View()), id, RcvVOSndAllE, old(rmsg))
    {
      if Expected(rmsg, APTS_DEFAULT, cfg.vo) {
        EchoAll(id);
        SendStop(id, cfg.bk, true);
        Advance(id);
      }
    }

    method EchoAll(id: nat)
      requires id < |stations| && rmsg.kind == APTS_DEFAULT
      modifies this`stations, this`rmsg, this`dscp, this`out
      ensures var n := old(stations)[id].msgno;
        && stations == old(stations)[id := old(stations)[id].(msgno := n + 4)]
        && dscp == Low(cfg.bk)
        && out == old(out) + [Echo(from, n + 1, cfg.vo), Echo(from, n + 2, cfg.vi),
                              Echo(from, n + 3, cfg.be), Echo(from, n + 4, cfg.bk)]
    {
      EchoBack(id, cfg.vo);
      EchoBack(id, cfg.vi);
      EchoBack(id, cfg.be);
      EchoBack(id, cfg.bk);
    }

    /** A STOP that carries the next number. */
    method SendStop(id: nat, tos: int, stamped: bool)
      requires id < |stations|
      modifies this`stations, this`rmsg, this`txmsg, this`dscp, this`out
      ensures var n := old(stations)[id].msgno + 1;
        && stations == old(stations)[id := old(stations)[id].(msgno := n)]
        && txmsg.number == n && dscp == Low(tos)
        && out == old(out) + [Stop(from, n, if stamped then ToUInt(tos) else 0, Low(tos))]
    {
      var n := NextNumber(id);
      txmsg := txmsg.(number := n);
      SetDscp(tos);
      CreateAptsMsg(APTS_STOP);
      if stamped { txmsg := txmsg.(tos := ToUInt(tos)); }
      SendTo(txmsg);
    }

    method RcvThenSndE(id: nat, ac: Ac, reply: Ac, stamped: bool)
      requires id < |stations|
      modifies this
      ensures View() == Handle(cfg, old(View()), id, RcvSndE(ac, reply, stamped), old(rmsg))
    {
      if Expected(rmsg, APTS_DEFAULT, cfg.Tos(ac)) {
        EchoBack(id, cfg.Tos(reply));
        SendStop(id, cfg.be, stamped);
        Advance(id);
      }
    }

    /** Stamps the received message with the next number and broadcasts it. */
    method SendToAll(id: nat)
      requires id < |stations|
      modifies this`stations, this`rmsg, this`dscp, this`out
      ensures var n := old(stations)[id].msgno + 1;
        && stations == old(stations)[id := old(stations)[id].(msgno := n)]
        && dscp == Low(cfg.be) && out == old(out) + [Sent(None, Msg(n, Low(cfg.be), old(rmsg).kind), 0)]
    {
      var n := NextNumber(id);
      rmsg := rmsg.(number := n);
      SetDscp(cfg.be);
      Broadcast();
    }

    method RcvThenBcast(id: nat, ac: Ac)
      requires id < |stations|
      modifies this
      ensures View() == Handle(cfg, old(View()), id, RcvSndBcast(ac), old(rmsg))
    {
      if Expected(rmsg, APTS_DEFAULT, cfg.Tos(ac)) {
        EchoBack(id, cfg.Tos(ac));
        SendToAll(id);
        Advance(id);
      }
    }

    method RcvThenBcastE(id: nat, ac: Ac)
      requires id < |stations|
      modifies this
      ensures View() == Handle(cfg, old(View()), id, RcvSndBcastE(ac), old(rmsg))
    {
      if Expected(rmsg, APTS_DEFAULT, cfg.Tos(ac)) {
        SendToAll(id);
        SendStop(id, cfg.be, false);
        Advance(id);
      }
    }

    method RcvVOThenStop(id: nat)
      requires id < |stations|
      modifies this
      ensures View() == Handle(cfg, old(View()), id, RcvVOE, old(rmsg))
    {
      if Expected(rmsg, APTS_DEFAULT, cfg.vo) {
        SendStop(id, cfg.be, false);
        Advance(id);
      }
    }

    /** A STOP for which the number goes into the received message; txmsg leaves with the one it had. */
    method SendStaleStop(id: nat, tos: Option<int>)
      requires id < |stations|
      modifies this`stations, this`rmsg, this`txmsg, this`dscp, this`out
      ensures var n := old(stations)[id].msgno + 1;
        && stations == old(stations)[id := old(stations)[id].(msgno := n)]
        && txmsg.number == old(txmsg).number && dscp == (if tos.Some? then Low(tos.value) else old(dscp))
        && out == old(out) + [Stop(from, txmsg.number, 0, dscp)]
        && rmsg.kind == old(rmsg).kind && (tos.None? ==> rmsg.tos == old(rmsg).tos)
    {
      var n := NextNumber(id);
      rmsg := rmsg.(number := n);
      CreateAptsMsg(APTS_STOP);
      if tos.Some? { SetDscp(tos.value); }
      SendTo(txmsg);
    }

    method RcvVIThenStop(id: nat)
      requires id < |stations|
      modifies this
      ensures View() == Handle(cfg, old(View()), id, RcvVIE, old(rmsg))
    {
      if Expected(rmsg, APTS_DEFAULT, cfg.vi) {
        SendStaleStop(id, Some(cfg.be));
        Advance(id);
      }
    }

    method RcvBKThenStop(id: nat)
      requires id < |stations|
      modifies this
      ensures View() == Handle(cfg, old(View()), id, RcvBKE, old(rmsg))
    {
      if Expected(rmsg, APTS_DEFAULT, cfg.bk) {
        SendStaleStop(id, None);
        Advance(id);
      }
    }

    method TryQuit()
      modifies this`exit, this`canQuit
      ensures View() == Quit(old(View()))
    {
      if canQuit { exit := Some(Stopped); } else { canQuit := true; }
    }

    method AwaitStop(id: nat)
      requires id < |stations|
      modifies this
      ensures View() == Handle(cfg, old(View()), id, WaitStop, old(rmsg))
    {
      SendStaleStop(id, None);
      if Expected(rmsg, APTS_STOP, cfg.be) { TryQuit(); }
    }

    /** Sends a new message in txmsg that carries the BE TOS. */
    method SendBE(kind: int)
      modifies this`txmsg, this`out
      ensures txmsg == Msg(old(txmsg).number, ToUInt(cfg.be), kind)
      ensures out == old(out) + [Sent(Some(from), txmsg, dscp)]
    {
      CreateAptsMsg(kind);
      txmsg := txmsg.(tos := ToUInt(cfg.be));
      SendTo(txmsg);
    }

    /** The branch of WfaConResetAll that asks the station to reset, up to its first receive. */
    method SendReset(pending: nat)
      modifies this`reset, this`numRetry, this`exit, this`txmsg, this`out, this`awaiting
      ensures View() == Retry(cfg, old(View()), pending)
    {
      reset := true;
      numRetry := numRetry + 1;
      if numRetry > MAXRETRY {
        exit := Some(Dead);
      } else {
        SendBE(APTS_RESET);
        awaiting := pending;
      }
    }

    /** The branch of WfaConResetAll that answers a station's RESET, and the exit after it. */
    method SendResetResp()
      modifies this
      ensures View() == AnswerReset(cfg, old(View()))
    {
      reset := true;
      numRetry := numRetry + 1;
      if numRetry > MAXRETRY {
        exit := Some(Dead);
      } else {
        SetDscp(cfg.be);
        SendBE(APTS_RESET_RESP);
        exit := Some(ResetByStation);
      }
    }

    method SumMsgno() returns (total: nat)
      ensures total == Tally(stations)
    {
      total := 0;
      var i := 0;
      while i < |stations|
        invariant i <= |stations|
        invariant Tally(stations) == total + Tally(stations, i)
      {
        if stations[i].addr == 0 { break; }
        total := total + stations[i].msgno;
        i := i + 1;
      }
    }

    method RcvCyclic(id: nat)
      requires id < |stations|
      modifies this
      ensures View() == Handle(cfg, old(View()), id, Cyclic, old(rmsg))
    {
      if ExpectedL1(rmsg, APTS_DEFAULT) {
        count := count + 1;
        EchoBack(id, cfg.vo);
      } else if rmsg.kind != APTS_STOP {
        SendReset(2);
      } else if ExpectedL1(rmsg, APTS_STOP) {
        SendTotal();
        TryQuit();
      }
    }

    method SendTotal()
      modifies this`count, this`rmsg, this`txmsg, this`dscp, this`out
      ensures var total := Tally(stations);
        View() == Send(old(View()).(count := total, tx := total, dscp := Low(cfg.be)),
                       Msg(total, ToUInt(cfg.be), APTS_STOP))
    {
      var total := SumMsgno();
      count := total;
      txmsg := txmsg.(number := total);
      SetDscp(cfg.be);
      SendBE(APTS_STOP);
    }

    method CallHandler(id: nat, h: Handler)
      requires id < |stations|
      modifies this
      ensures View() == Handle(cfg, old(View()), id, h, old(rmsg))
    {
      match h
      case Hello => RcvHello(id);
      case Conf => RcvConf(id);
      case ConfSndVI => RcvConfSndVI(id);
      case Rcv(ac) => RcvOnly(id, ac);
      case RcvSnd(ac, reply) => RcvThenSnd(id, ac, reply);
      case RcvVOSnd2VO => RcvSnd2VO(id);
      case RcvVOSndAllE => RcvSndAllE(id);
      case RcvSndE(ac, reply, stamped) => RcvThenSndE(id, ac, reply, stamped);
      case RcvSndBcast(ac) => RcvThenBcast(id, ac);
      case RcvSndBcastE(ac) => RcvThenBcastE(id, ac);
      case RcvVOE => RcvVOThenStop(id);
      case RcvVIE => RcvVIThenStop(id);
      case RcvBKE => RcvBKThenStop(id);
      case Cyclic => RcvCyclic(id);
      case WaitStop => AwaitStop(id);
    }

    method DispatchMsg(id: nat)
      requires id < |stations|
      modifies this
      ensures View() == Dispatch(cfg, old(View()), id, old(rmsg))
    {
      if rmsg.kind == APTS_RESET {
        SendResetResp();
      } else if rmsg.kind == APTS_RESET_STOP {
        exit := Some(Killed);
      } else if stations[id].state >= |Script(cfg.test)| {
        exit := Some(NullCall);
      } else {
        CallHandler(id, Script(cfg.test)[stations[id].state]);
      }
    }

    /** Finds or assigns the station of a HELLO. */
    method ChooseSlot() returns (id: Option<nat>)
      modifies this
      ensures id == SlotFor(old(View()))
      ensures View() == (if id.None? || SlotOf(old(stations), from).Some? then old(View()) else
        old(View()).(stations := old(stations)[id.value := old(stations)[id.value].(addr := from)],
                     canQuit := old(canQuit) && id.value == 0))
      ensures rmsg == old(rmsg)
    {
      id := GetStaId(from);
      if id.Some? {
        if !reset { return None; }
      } else {
        id := AssignStaId(from);
      }
    }

    method InitStation(id: nat)
      requires id < |stations|
      modifies this
      ensures View() == old(View()).(stations := old(stations)[id := Station(from, 0, 0)], sta := Some(id),
                                     nsta := if old(reset) then old(nsta) else old(nsta) + 1, reset := false)
      ensures rmsg == old(rmsg)
    {
      sta := Some(id);
      stations := stations[id := Station(from, 0, 0)];
      if reset { reset := false; } else { nsta := nsta + 1; }
    }

    method RcvNewStation()
      modifies this
      ensures View() == Register(cfg, old(View()), old(rmsg))
    {
      ghost var s := View();
      var id := ChooseSlot();
      if id.Some? {
        InitStation(id.value);
        assert stations == s.stations[id.value := Station(from, 0, 0)];
        assert View() == Enrolled(s, id.value);
        DispatchMsg(id.value);
      }
    }

    /** The receive loop of WfaConResetAll gets one datagram. */
    method Resume(d: Datagram)
      requires exit.None? && awaiting > 0
      modifies this
      ensures View() == Next(cfg, old(View()), d)
    {
      rmsg, from := d.msg, d.src;
      if rmsg.kind == APTS_RESET_RESP {
        if awaiting > 1 { SendReset(awaiting - 1); } else { awaiting := 0; }
      }
    }

    /** One turn of the main loop, or of the nested one. */
    method Step(d: Datagram)
      modifies this
      ensures View() == Next(cfg, old(View()), d)
    {
      if exit.Some? { return; }
      if awaiting > 0 {
        Resume(d);
        return;
      }
      if sta.None? || cfg.keepFrom { from := d.src; }
      rmsg := d.msg;
      if Ignored(cfg, from, rmsg) { return; }
      if rmsg.kind == APTS_HELLO {
        RcvNewStation();
      } else if !reset {
        var id := GetStaId(from);
        if id.Some? {
          sta := id;
          DispatchMsg(id.value);
        }
      }
    }

    method Serve(ds: seq<Datagram>)
      modifies this
      ensures View() == Run(cfg, old(View()), ds)
    {
      var i := 0;
      while i < |ds|
        invariant i <= |ds| && View() == Run(cfg, old(View()), ds[..i])
      {
        Step(ds[i]);
        i := i + 1;
        assert ds[..i][..i - 1] == ds[..i - 1];
      }
      assert ds[..|ds|] == ds;
    }
  }
}
