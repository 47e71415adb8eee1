/** What the frames of the console carry: their numbers, and the class they are sent with. */
module ConsoleNumbers {
  import opened CInt
  import opened Options
  import opened ConsoleScript
  import opened Console
  import opened ConsoleMatching
  import opened ConsoleTables
  import opened ConsoleCyclic

  // One station.

  /** The handlers that end a script with a STOP that counts in rmsg, and so leaves with an old number. */
  predicate StopsStale(h: Handler) { h.RcvVIE? || h.RcvBKE? }

  predicate EndsScript(h: Handler) {
    StopsStale(h) || h.RcvSndE? || h.RcvSndBcastE? || h.RcvVOSndAllE? || h.RcvVOE?
  }

  /** A handler's answers continue the count, one number a frame, except a stale STOP. */
  lemma ReplyNumbers(cfg: Config, h: Handler, to: nat, n: nat, tx: int, dscp: int)
    requires Advancing(h) && !h.Hello?
    ensures var a := Reply(cfg, h, to, n, tx, dscp);
      && (forall i :: 0 <= i < |a.frames| ==>
            var m := a.frames[i].msg;
            if i == |a.frames| - 1 && EndsScript(h)
            then m.kind == APTS_STOP && m.number == if StopsStale(h) then tx else n + 1 + i
            else m.kind == APTS_DEFAULT && m.number == n + 1 + i)
      && a.tx == if (EndsScript(h) && !StopsStale(h)) || h.ConfSndVI? then a.msgno else tx
  {
  }

  /** Only the last handler of a script sends a STOP, and no txmsg goes out before one that counts in rmsg. */
  lemma ScriptEndsOnce(test: nat)
    requires 1 <= test <= LAST_TEST && test != L_1
    ensures var hs, w := Script(test), Terminal(test);
      && EndsScript(hs[w - 1])
      && forall i :: 0 < i < w - 1 ==> !EndsScript(hs[i]) && (StopsStale(hs[w - 1]) ==> !hs[i].ConfSndVI?)
  {
  }

  /** The number that all STOPs of a test carry. */
  function StopNumber(cfg: Config, to: nat): int
    requires SingleStation(cfg)
  {
    var w := Terminal(cfg.test);
    if StopsStale(Script(cfg.test)[w - 1]) then 0 else Transcript(cfg, to, w).msgno
  }

  /** The answer to the first HELLO: the test's number, without a TOS. */
  function Command(cfg: Config, to: nat): Sent { Sent(Some(to), Msg(0, 0, cfg.test), 0) }

  /** Frame i has number i, but for the STOPs. */
  ghost predicate Positions(frames: seq<Sent>, stop: int) {
    forall i :: 1 <= i < |frames| ==>
      var m := frames[i].msg;
      (m.kind == APTS_DEFAULT && m.number == i) || (m.kind == APTS_STOP && m.number == stop)
  }

  lemma {:induction false} TranscriptBeforeStop(cfg: Config, to: nat, k: nat)
    requires SingleStation(cfg) && 1 <= k < Terminal(cfg.test)
    ensures var p := Transcript(cfg, to, k);
      && |p.frames| == p.msgno + 1
      && (forall i :: 1 <= i < |p.frames| ==> p.frames[i].msg.kind == APTS_DEFAULT && p.frames[i].msg.number == i)
      && (StopsStale(Script(cfg.test)[Terminal(cfg.test) - 1]) ==> p.tx == 0)
  {
    TranscriptIsCounted(cfg, to, k);
    if k > 1 {
      TranscriptBeforeStop(cfg, to, k - 1);
      ScriptEndsOnce(cfg.test);
      var p := Transcript(cfg, to, k - 1);
      ReplyNumbers(cfg, Script(cfg.test)[k - 1], to, p.msgno, p.tx, p.dscp);
    }
  }

  lemma LastAnswer(frames: seq<Sent>, answer: seq<Sent>, stop: int)
    requires |frames| >= 1 && |answer| >= 1
    requires forall i :: 1 <= i < |frames| ==> frames[i].msg.kind == APTS_DEFAULT && frames[i].msg.number == i
    requires forall i :: 0 <= i < |answer| - 1 ==>
      answer[i].msg.kind == APTS_DEFAULT && answer[i].msg.number == |frames| + i
    requires answer[|answer| - 1].msg.kind == APTS_STOP && answer[|answer| - 1].msg.number == stop
    ensures Positions(frames + answer, stop)
  {
  }

  lemma WholeTranscript(cfg: Config, to: nat)
    requires SingleStation(cfg)
    ensures var p := Transcript(cfg, to, Terminal(cfg.test));
      Positions(p.frames, StopNumber(cfg, to)) && p.tx == StopNumber(cfg, to)
  {
    var w := Terminal(cfg.test);
    var p := Transcript(cfg, to, w - 1);
    var h := Script(cfg.test)[w - 1];
    TranscriptBeforeStop(cfg, to, w - 1);
    ScriptEndsOnce(cfg.test);
    ReplyNumbers(cfg, h, to, p.msgno, p.tx, p.dscp);
    ReplyIsCounted(cfg, h, to, p.msgno, p.tx, p.dscp);
    LastAnswer(p.frames, Reply(cfg, h, to, p.msgno, p.tx, p.dscp).frames, StopNumber(cfg, to));
  }

  lemma RepeatedStops(frames: seq<Sent>, x: Sent, j: nat, stop: int)
    requires Positions(frames, stop) && |frames| >= 1 && x.msg.kind == APTS_STOP && x.msg.number == stop
    ensures Positions(frames + Repeated(x, j), stop)
  {
    if j == 0 {
      assert frames + [] == frames;
    } else {
      RepeatedStops(frames, x, j - 1, stop);
      assert frames + Repeated(x, j) == frames + Repeated(x, j - 1) + [x];
    }
  }

  lemma StateIsNumbered(cfg: Config, to: nat, k: nat, j: nat)
    requires SingleStation(cfg) && 1 <= k <= Terminal(cfg.test) && (k < Terminal(cfg.test) ==> j == 0)
    ensures var out := StateAt(cfg, to, k, j).out;
      |out| >= 1 && out[0] == Command(cfg, to) && Positions(out, StopNumber(cfg, to))
  {
    StartsWithCommand(cfg, to, k);
    if k < Terminal(cfg.test) {
      TranscriptBeforeStop(cfg, to, k);
    } else {
      var t := Transcript(cfg, to, k);
      WholeTranscript(cfg, to);
      RepeatedStops(t.frames, Stop(to, t.tx, 0, t.dscp), j, StopNumber(cfg, to));
    }
  }

  /** In every run with one station that is still going, the frames since the registration are the test command
      and then frames numbered by their position: frame i carries number i. Only the STOPs all carry the
      number of the first of them, or 0 in the tests whose last handler counts in the wrong buffer. */
  lemma FramesAreNumbered(cfg: Config, pre: seq<Datagram>, hello: Datagram, post: seq<Datagram>)
    requires SingleStation(cfg) && NoneRegisters(cfg, pre) && Registers(cfg, hello)
    requires Accepts(cfg, Hello, hello.msg)
    requires Run(cfg, INIT, pre + [hello] + post).exit.None?
    ensures var out := Run(cfg, INIT, pre + [hello] + post).out;
      |out| >= 1 && out[0] == Command(cfg, hello.src) && Positions(out, StopNumber(cfg, hello.src))
  {
    SplitRun(cfg, pre, hello, post);
    AfterGoodHello(cfg, hello.src, post);
    StateIsNumbered(cfg, hello.src, 1 + Progress(cfg, post).0, Progress(cfg, post).1);
  }

  lemma {:induction false} StartsWithCommand(cfg: Config, to: nat, k: nat)
    requires SingleStation(cfg) && 1 <= k <= Terminal(cfg.test)
    ensures var frames := Transcript(cfg, to, k).frames;
      |frames| >= 1 && frames[0] == Command(cfg, to)
  {
    if k > 1 { StartsWithCommand(cfg, to, k - 1); }
  }

  /** The classes of the data frames a handler is there to send, in order. */
  function Downlink(h: Handler): seq<Ac> {
    match h
    case ConfSndVI => [VI]
    case RcvSnd(_, reply) => [reply]
    case RcvVOSnd2VO => [VO, VO]
    case RcvVOSndAllE => [VO, VI, BE, BK]
    case RcvSndE(_, reply, _) => [reply]
    case RcvSndBcast(ac) => [ac, BE]
    case RcvSndBcastE(_) => [BE]
    case _ => []
  }

  /** The low bytes of the TOS words of the data frames. */
  function DataTos(frames: seq<Sent>): seq<int> {
    if frames == [] then []
    else
      var last := frames[|frames| - 1].msg;
      DataTos(frames[..|frames| - 1]) + if last.kind == APTS_DEFAULT then [Low(last.tos)] else []
  }

  function TosOf(cfg: Config, classes: seq<Ac>): seq<int> {
    if classes == [] then []
    else TosOf(cfg, classes[..|classes| - 1]) + [Low(cfg.Tos(classes[|classes| - 1]))]
  }

  function ScriptClasses(hs: seq<Handler>): seq<Ac> {
    if hs == [] then [] else ScriptClasses(hs[..|hs| - 1]) + Downlink(hs[|hs| - 1])
  }

  lemma AllButLast<T>(a: seq<T>, b: seq<T>)
    requires b != []
    ensures (a + b)[..|a + b| - 1] == a + b[..|b| - 1] && (a + b)[|a + b| - 1] == b[|b| - 1]
  {
  }

  lemma Regroup<T>(a: seq<T>, b: seq<T>, c: seq<T>)
    ensures (a + b) + c == a + (b + c)
  {
  }

  lemma {:induction false} DataTosJoin(a: seq<Sent>, b: seq<Sent>)
    ensures DataTos(a + b) == DataTos(a) + DataTos(b)
  {
    if b == [] {
      assert a + b == a;
    } else {
      var front, last := b[..|b| - 1], b[|b| - 1].msg;
      DataTosJoin(a, front);
      AllButLast(a, b);
      Regroup(DataTos(a), DataTos(front), if last.kind == APTS_DEFAULT then [Low(last.tos)] else []);
    }
  }

  lemma {:induction false} TosOfJoin(cfg: Config, a: seq<Ac>, b: seq<Ac>)
    ensures TosOf(cfg, a + b) == TosOf(cfg, a) + TosOf(cfg, b)
  {
    if b == [] {
      assert a + b == a;
    } else {
      var front := b[..|b| - 1];
      TosOfJoin(cfg, a, front);
      AllButLast(a, b);
      Regroup(TosOf(cfg, a), TosOf(cfg, front), [Low(cfg.Tos(b[|b| - 1]))]);
    }
  }

  lemma LowOfWord(tos: int)
    ensures Low(Low(tos)) == Low(tos) && Low(ToUInt(tos)) == Low(tos)
  {
    var q, r := tos / TWO_32, ToUInt(tos);
    LowOfSum(0x100_0000 * q, r);
    assert tos == 256 * (0x100_0000 * q) + r;
  }

  lemma LowOfSum(k: int, r: int)
    ensures Low(256 * k + r) == Low(r)
  {
  }

  lemma {:induction false} DataTosFrom(cfg: Config, frames: seq<Sent>, classes: seq<Ac>)
    requires |classes| <= |frames|
    requires forall i :: 0 <= i < |classes| ==>
      frames[i].msg.kind == APTS_DEFAULT && Low(frames[i].msg.tos) == Low(cfg.Tos(classes[i]))
    requires forall i :: |classes| <= i < |frames| ==> frames[i].msg.kind != APTS_DEFAULT
    ensures DataTos(frames) == TosOf(cfg, classes)
  {
    if |frames| > |classes| {
      DataTosFrom(cfg, frames[..|frames| - 1], classes);
    } else if classes != [] {
      DataTosFrom(cfg, frames[..|frames| - 1], classes[..|classes| - 1]);
    }
  }

  lemma ReplyClasses(cfg: Config, h: Handler, to: nat, n: nat, tx: int, dscp: int)
    requires (Advancing(h) || h.WaitStop?) && cfg.Valid()
    ensures DataTos(Reply(cfg, h, to, n, tx, dscp).frames) == TosOf(cfg, Downlink(h))
  {
    forall tos: int ensures Low(Low(tos)) == Low(tos) && Low(ToUInt(tos)) == Low(tos) { LowOfWord(tos); }
    DataTosFrom(cfg, Reply(cfg, h, to, n, tx, dscp).frames, Downlink(h));
  }

  lemma ScriptClassesNext(hs: seq<Handler>, k: nat)
    requires 0 < k <= |hs|
    ensures ScriptClasses(hs[..k]) == ScriptClasses(hs[..k - 1]) + Downlink(hs[k - 1])
  {
    assert hs[..k][..k - 1] == hs[..k - 1];
  }

  lemma AnswerClasses(cfg: Config, h: Handler, to: nat, p: Answer, classes: seq<Ac>)
    requires (Advancing(h) || h.WaitStop?) && cfg.Valid()
    requires DataTos(p.frames) == TosOf(cfg, classes)
    ensures DataTos(p.frames + Reply(cfg, h, to, p.msgno, p.tx, p.dscp).frames) == TosOf(cfg, classes + Downlink(h))
  {
    ReplyClasses(cfg, h, to, p.msgno, p.tx, p.dscp);
    DataTosJoin(p.frames, Reply(cfg, h, to, p.msgno, p.tx, p.dscp).frames);
    TosOfJoin(cfg, classes, Downlink(h));
  }

  lemma {:induction false} TranscriptClasses(cfg: Config, to: nat, k: nat)
    requires SingleStation(cfg) && k <= Terminal(cfg.test)
    ensures DataTos(Transcript(cfg, to, k).frames) == TosOf(cfg, ScriptClasses(Script(cfg.test)[..k]))
  {
    if k > 0 {
      TranscriptClasses(cfg, to, k - 1);
      var hs := Script(cfg.test);
      ScriptClassesNext(hs, k);
      AnswerClasses(cfg, hs[k - 1], to, Transcript(cfg, to, k - 1), ScriptClasses(hs[..k - 1]));
    }
  }

  lemma {:induction false} StopsAreNoData(x: Sent, j: nat)
    requires x.msg.kind != APTS_DEFAULT
    ensures DataTos(Repeated(x, j)) == []
  {
    if j > 0 { StopsAreNoData(x, j - 1); }
  }

  /** In every run with one station that is still going, the data frames sent since the registration have
      the classes that the handlers of the script so far are there to send, in order. */
  lemma DataIsClassed(cfg: Config, pre: seq<Datagram>, hello: Datagram, post: seq<Datagram>)
    requires SingleStation(cfg) && NoneRegisters(cfg, pre) && Registers(cfg, hello)
    requires Accepts(cfg, Hello, hello.msg)
    requires Run(cfg, INIT, pre + [hello] + post).exit.None?
    ensures var s := Run(cfg, INIT, pre + [hello] + post);
      && s.stations[0].state <= |Script(cfg.test)|
      && DataTos(s.out) == TosOf(cfg, ScriptClasses(Script(cfg.test)[..s.stations[0].state]))
  {
    SplitRun(cfg, pre, hello, post);
    AfterGoodHello(cfg, hello.src, post);
    StateIsClassed(cfg, hello.src, 1 + Progress(cfg, post).0, Progress(cfg, post).1);
  }

  lemma StateIsClassed(cfg: Config, to: nat, k: nat, j: nat)
    requires SingleStation(cfg) && k <= Terminal(cfg.test)
    ensures DataTos(StateAt(cfg, to, k, j).out) == TosOf(cfg, ScriptClasses(Script(cfg.test)[..k]))
  {
    var p := Transcript(cfg, to, k);
    var stop := Stop(to, p.tx, 0, p.dscp);
    TranscriptClasses(cfg, to, k);
    DataTosJoin(p.frames, Repeated(stop, j));
    StopsAreNoData(stop, j);
  }

  /** Every frame goes to the station, but data to all through the socket whose TOS is never set; what goes
      to the station leaves on its own class if it is data, or a STOP that carries one. */
  predicate Addressed(x: Sent, to: nat) {
    && (x.to == Some(to) || (x.to.None? && x.msg.kind == APTS_DEFAULT && x.dscp == 0))
    && (x.to.Some? && (x.msg.kind == APTS_DEFAULT || (x.msg.kind == APTS_STOP && x.msg.tos != 0)) ==>
          x.dscp == Low(x.msg.tos))
  }

  ghost predicate AllAddressed(frames: seq<Sent>, to: nat) {
    forall i :: 0 <= i < |frames| ==> Addressed(frames[i], to)
  }

  lemma ReplyAddressed(cfg: Config, h: Handler, to: nat, n: nat, tx: int, dscp: int)
    requires (Advancing(h) || h.WaitStop?) && cfg.test != APTS_DEFAULT && cfg.test != APTS_STOP
    ensures AllAddressed(Reply(cfg, h, to, n, tx, dscp).frames, to)
  {
    LowOfWord(cfg.vi);
    LowOfWord(cfg.bk);
    LowOfWord(cfg.be);
    forall ac ensures Low(Low(cfg.Tos(ac))) == Low(cfg.Tos(ac)) { LowOfWord(cfg.Tos(ac)); }
  }

  lemma {:induction false} TranscriptAddressed(cfg: Config, to: nat, k: nat)
    requires SingleStation(cfg) && k <= Terminal(cfg.test)
    ensures AllAddressed(Transcript(cfg, to, k).frames, to)
  {
    if k > 0 {
      TranscriptAddressed(cfg, to, k - 1);
      var p := Transcript(cfg, to, k - 1);
      ReplyAddressed(cfg, Script(cfg.test)[k - 1], to, p.msgno, p.tx, p.dscp);
    }
  }

  lemma {:induction false} RepeatedIs(x: Sent, j: nat)
    ensures forall i :: 0 <= i < j ==> Repeated(x, j)[i] == x
  {
    if j > 0 { RepeatedIs(x, j - 1); }
  }

  lemma {:induction false} RepeatedAddressed(x: Sent, to: nat, j: nat)
    requires Addressed(x, to)
    ensures AllAddressed(Repeated(x, j), to)
  {
    if j > 0 { RepeatedAddressed(x, to, j - 1); }
  }

  /** In every run with one station that is still going, whatever other addresses send, all frames go to the
      station that registered, or to all, and leave on their own class, and all STOPs on that of the test. */
  lemma FramesAreAddressed(cfg: Config, pre: seq<Datagram>, hello: Datagram, post: seq<Datagram>)
    requires SingleStation(cfg) && NoneRegisters(cfg, pre) && Registers(cfg, hello)
    requires Accepts(cfg, Hello, hello.msg)
    requires Run(cfg, INIT, pre + [hello] + post).exit.None?
    ensures var out := Run(cfg, INIT, pre + [hello] + post).out;
      AllAddressed(out, hello.src) && StopsLeaveOn(out, StopClass(cfg))
  {
    SplitRun(cfg, pre, hello, post);
    AfterGoodHello(cfg, hello.src, post);
    var p := Transcript(cfg, hello.src, 1 + Progress(cfg, post).0);
    TranscriptAddressed(cfg, hello.src, 1 + Progress(cfg, post).0);
    RepeatedAddressed(Stop(hello.src, p.tx, 0, p.dscp), hello.src, Progress(cfg, post).1);
    TranscriptLeavesOn(cfg, hello.src, 1 + Progress(cfg, post).0);
    RepeatedIs(Stop(hello.src, p.tx, 0, p.dscp), Progress(cfg, post).1);
  }

  /** The class that the STOPs of a test leave on: BK where the last handler sends all classes, none at all where it
      sends its STOP before anything else was sent, and BE otherwise. */
  function StopClass(cfg: Config): int
    requires SingleStation(cfg)
  {
    var last := Script(cfg.test)[Terminal(cfg.test) - 1];
    if last.RcvBKE? then 0 else if last.RcvVOSndAllE? then Low(cfg.bk) else Low(cfg.be)
  }

  ghost predicate StopsLeaveOn(frames: seq<Sent>, dscp: int) {
    forall i :: 0 <= i < |frames| && frames[i].msg.kind == APTS_STOP ==> frames[i].dscp == dscp
  }

  lemma ReplyLeavesOn(cfg: Config, h: Handler, to: nat, n: nat, tx: int, dscp: int)
    requires Advancing(h) && cfg.test != APTS_STOP
    ensures var a := Reply(cfg, h, to, n, tx, dscp);
      && StopsLeaveOn(a.frames, a.dscp)
      && (!EndsScript(h) ==> forall i :: 0 <= i < |a.frames| ==> a.frames[i].msg.kind != APTS_STOP)
      && (EndsScript(h) ==> a.dscp == if h.RcvBKE? then dscp else Low(if h.RcvVOSndAllE? then cfg.bk else cfg.be))
      && (h.Hello? || h.Conf? || h.Rcv? ==> a.dscp == dscp)
  {
  }

  lemma QuietBeforeBKE(test: nat)
    requires 1 <= test <= LAST_TEST && test != L_1
    ensures var hs, w := Script(test), Terminal(test);
      hs[w - 1].RcvBKE? ==> forall i :: 0 <= i < w - 1 ==> hs[i].Hello? || hs[i].Conf? || hs[i].Rcv?
  {
  }

  lemma {:induction false} TranscriptLeavesOn(cfg: Config, to: nat, k: nat)
    requires SingleStation(cfg) && 1 <= k <= Terminal(cfg.test)
    ensures var p, w := Transcript(cfg, to, k), Terminal(cfg.test);
      && StopsLeaveOn(p.frames, StopClass(cfg)) && (k == w ==> p.dscp == StopClass(cfg))
      && (Script(cfg.test)[w - 1].RcvBKE? && k < w ==> p.dscp == 0)
  {
    var w := Terminal(cfg.test);
    var p, h := Transcript(cfg, to, k - 1), Script(cfg.test)[k - 1];
    ScriptEndsOnce(cfg.test);
    QuietBeforeBKE(cfg.test);
    ReplyLeavesOn(cfg, h, to, p.msgno, p.tx, p.dscp);
    if k > 1 { TranscriptLeavesOn(cfg, to, k - 1); }
  }

  // Several stations.

  function UpTo(n: nat): seq<int> { if n == 0 then [] else UpTo(n - 1) + [n] }

  /** The numbers of the frames echoed to a station, in order. */
  function EchoNumbers(out: seq<Sent>, addr: nat): seq<int> {
    if out == [] then []
    else
      var last := out[|out| - 1];
      EchoNumbers(out[..|out| - 1], addr)
      + if last.to == Some(addr) && last.msg.kind == APTS_DEFAULT then [last.msg.number] else []
  }

  /** How many frames have been echoed, to all stations. */
  function Echoes(out: seq<Sent>): nat {
    if out == [] then 0 else Echoes(out[..|out| - 1]) + if out[|out| - 1].msg.kind == APTS_DEFAULT then 1 else 0
  }

  /** Every frame echoed is of class VO, and every STOP, of class BE, carries the number of frames echoed
      before it. */
  predicate Totals(cfg: Config, out: seq<Sent>) {
    out == [] ||
    var front, last := out[..|out| - 1], out[|out| - 1];
    && Totals(cfg, front)
    && (last.msg.kind == APTS_DEFAULT ==> last.msg.tos == last.dscp == Low(cfg.vo))
    && (last.msg.kind == APTS_STOP ==>
          last.msg.number == Echoes(front) && last.msg.tos == ToUInt(cfg.be) && last.dscp == Low(cfg.be))
  }

  function MsgnoOf(ts: seq<Station>, addr: nat): nat {
    var id := SlotOf(ts, addr);
    if id.None? then 0 else ts[id.value].msgno
  }

  ghost predicate EchoesFit(cfg: Config, s: State, addr: nat) {
    s.numRetry == 0 ==>
      && EchoNumbers(s.out, addr) == UpTo(MsgnoOf(s.stations, addr))
      && s.count == Echoes(s.out) && Totals(cfg, s.out)
  }

  lemma SentOneMore(out: seq<Sent>, x: Sent, addr: nat)
    ensures EchoNumbers(out + [x], addr)
         == EchoNumbers(out, addr) + if x.to == Some(addr) && x.msg.kind == APTS_DEFAULT then [x.msg.number] else []
    ensures Echoes(out + [x]) == Echoes(out) + if x.msg.kind == APTS_DEFAULT then 1 else 0
    ensures (out + [x])[..|out|] == out
  {
    assert (out + [x])[..|out|] == out;
  }

  /** What a handler of L.1 sends, and how its station's msgno and the count move with it. */
  ghost predicate SendsOne(cfg: Config, s: State, n: State, id: nat)
    requires id < |s.stations| == |n.stations|
  {
    var msgno := s.stations[id].msgno;
    || (n.out == s.out && n.stations[id].msgno == msgno && n.count == s.count)
    || (n.out == s.out + [Echo(s.from, msgno + 1, cfg.vo)] && n.stations[id].msgno == msgno + 1
        && n.count == s.count + 1)
    || (n.stations[id].msgno == msgno && n.count == s.count
        && exists x: Sent :: n.out == s.out + [x] && x.msg.kind == L_1)
    || (n.stations == s.stations && n.count == Tally(s.stations)
        && n.out == s.out + [Sent(Some(s.from), Msg(n.count, ToUInt(cfg.be), APTS_STOP), Low(cfg.be))])
  }

  lemma DispatchSends(cfg: Config, s: State, id: nat, m: Msg)
    requires IsL1(cfg) && id < |s.stations| && s.stations[id].state <= Terminal(cfg.test)
    ensures var n := Dispatch(cfg, s, id, m);
      |n.stations| == |s.stations| && (n.numRetry == 0 ==> SendsOne(cfg, s, n, id))
  {
  }

  /** One datagram to a console that is not resetting: at most one frame goes out, to the station that
      sent it. */
  lemma NextEchoes(cfg: Config, s: State, d: Datagram, addr: nat)
    requires IsL1(cfg) && Table(s.stations) && OnScript(cfg, s.stations) && Counted(s) && addr != 0
    requires EchoesFit(cfg, s, addr)
    ensures EchoesFit(cfg, Next(cfg, s, d), addr)
  {
    var r := s.(from := if s.sta.None? || cfg.keepFrom then d.src else s.from);
    if s.exit.None? && s.awaiting == 0 && !Ignored(cfg, r.from, d.msg) {
      var slot := SlotOf(r.stations, r.from);
      if d.msg.kind == APTS_HELLO {
        RegisterEchoes(cfg, r, d.msg, addr);
      } else if slot.Some? {
        DispatchEchoes(cfg, r.(sta := slot), slot.value, d.msg, addr);
      }
    }
  }

  lemma FitsAfter(cfg: Config, s: State, n: State, id: nat, addr: nat)
    requires id < |s.stations| == |n.stations| && s.stations[id].addr == s.from && SendsOne(cfg, s, n, id)
    requires EchoNumbers(s.out, addr) == UpTo(MsgnoOf(s.stations, addr))
    requires s.count == Echoes(s.out) == Tally(s.stations) && Totals(cfg, s.out)
    requires MsgnoOf(s.stations, s.from) == s.stations[id].msgno
    requires MsgnoOf(n.stations, addr) == if addr == s.from then n.stations[id].msgno else MsgnoOf(s.stations, addr)
    ensures EchoNumbers(n.out, addr) == UpTo(MsgnoOf(n.stations, addr))
    ensures n.count == Echoes(n.out) && Totals(cfg, n.out)
  {
    if n.out != s.out {
      var x := n.out[|s.out|];
      SentOneMore(s.out, x, addr);
      assert n.out == s.out + [x];
    }
  }

  lemma DispatchEchoes(cfg: Config, s: State, id: nat, m: Msg, addr: nat)
    requires IsL1(cfg) && Table(s.stations) && OnScript(cfg, s.stations) && Counted(s) && addr != 0
    requires id < NSTA && s.stations[id].addr == s.from != 0 && EchoesFit(cfg, s, addr)
    ensures EchoesFit(cfg, Dispatch(cfg, s, id, m), addr)
  {
    var n := Dispatch(cfg, s, id, m);
    DispatchDelta(cfg, s, id, m);
    DispatchChanges(cfg, s, id, m);
    DispatchSends(cfg, s, id, m);
    TallyIsTotal(s.stations);
    MsgnoAfter(s.stations, id, n.stations[id], addr);
    MsgnoAfter(s.stations, id, s.stations[id], s.from);
    assert s.stations[id := s.stations[id]] == s.stations;
    if n.numRetry == 0 { FitsAfter(cfg, s, n, id, addr); }
  }

  lemma MsgnoAfter(ts: seq<Station>, id: nat, st: Station, addr: nat)
    requires Table(ts) && id < NSTA && addr != 0
    requires st.addr != 0
    requires st.addr == ts[id].addr || (ts[id].addr == 0 && SlotOf(ts, st.addr).None? && st.msgno == 0)
    ensures MsgnoOf(ts[id := st], addr) == if addr == st.addr then st.msgno else MsgnoOf(ts, addr)
  {
    var us := ts[id := st];
    assert us[id] == st;
    var a, b := SlotOf(ts, addr), SlotOf(us, addr);
    if a.Some? { assert us[a.value].addr == addr; }
    if b.Some? && b.value != id { assert ts[b.value].addr == addr; }
  }

  lemma RegisterEchoes(cfg: Config, s: State, m: Msg, addr: nat)
    requires IsL1(cfg) && Table(s.stations) && OnScript(cfg, s.stations) && Counted(s) && addr != 0
    requires s.from != 0 && EchoesFit(cfg, s, addr)
    ensures EchoesFit(cfg, Register(cfg, s, m), addr)
  {
    var slot := SlotFor(s);
    if slot.Some? {
      var id := slot.value;
      var e := Enrolled(s, id);
      if s.numRetry == 0 {
        MsgnoAfter(s.stations, id, Station(s.from, 0, 0), addr);
        TotalUpdate(s.stations, id, Station(s.from, 0, 0));
        assert OneChanged(cfg, s.stations, e.stations, id, e.stations[id]);
        TableUpdate(cfg, s.stations, e.stations, id, e.stations[id]);
        DispatchEchoes(cfg, e, id, m, addr);
      } else {
        assert Dispatch(cfg, e, id, m).numRetry >= s.numRetry;
      }
    }
  }

  lemma {:induction false} RunEchoes(cfg: Config, ds: seq<Datagram>, addr: nat)
    requires IsL1(cfg) && addr != 0
    ensures EchoesFit(cfg, Run(cfg, INIT, ds), addr)
  {
    if ds == [] {
      assert forall i :: 0 <= i < |INIT.stations| ==> INIT.stations[i].addr == 0;
    } else {
      var front := ds[..|ds| - 1];
      RunEchoes(cfg, front, addr);
      RunCounts(cfg, front);
      RunTable(cfg, front);
      NextEchoes(cfg, Run(cfg, INIT, front), ds[|ds| - 1], addr);
    }
  }

  /** In every L.1 run without a reset the frames echoed to a station carry 1, 2, ..., msgno in order, all
      are sent with class VO, and every STOP, of class BE, carries the number of all frames echoed before it. */
  lemma EchoesAreNumbered(cfg: Config, ds: seq<Datagram>, i: nat)
    requires IsL1(cfg) && i < NSTA && Run(cfg, INIT, ds).numRetry == 0
    ensures var s := Run(cfg, INIT, ds);
      && (s.stations[i].addr != 0 ==> EchoNumbers(s.out, s.stations[i].addr) == UpTo(s.stations[i].msgno))
      && s.count == Echoes(s.out) && Totals(cfg, s.out)
  {
    var s := Run(cfg, INIT, ds);
    RunTable(cfg, ds);
    TableInverts(s.stations, i);
    RunEchoes(cfg, ds, if s.stations[i].addr != 0 then s.stations[i].addr else 1);
  }
}
