/** The WMM-PS console's messages, acceptance checks and per-test scripts (console_src/wfa_con.h,
    console_src/wfa_con.c, console_src/wfa_util.c), and what each state handler answers. */
module ConsoleScript {
  import opened CInt
  import opened Options

  const LAST_TEST: nat := 19
  const L_1: nat := 8

  const APTS_DEFAULT: int := 20
  const APTS_HELLO: int := 21
  const APTS_BCST: int := 22
  const APTS_CONFIRM: int := 23
  const APTS_STOP: int := 24
  const APTS_RESET: int := 29
  const APTS_RESET_RESP: int := 30
  const APTS_RESET_STOP: int := 31

  const TOS_VO_CODES: set<int> := {0xE0, 0xD0, 0xC0, 0xB8}
  const TOS_VI_CODES: set<int> := {0xA0, 0x80, 0x88}
  const TOS_BE_CODES: set<int> := {0x00, 0x60}
  const TOS_BK_CODES: set<int> := {0x20, 0x40}

  datatype Ac = VO | VI | BE | BK

  /** The words of a message that the console reads or sets: 0, 1 and 10. */
  datatype Msg = Msg(number: int, tos: int, kind: int)

  /** The test named on the command line, whether it is L.1AP (keepFrom), the four configured TOS
      values, and the local and broadcast addresses. */
  datatype Config = Config(test: nat, keepFrom: bool, vo: int, vi: int, be: int, bk: int, local: nat, target: nat) {
    predicate Valid() { 1 <= test <= LAST_TEST && (keepFrom ==> test == L_1) }

    function Tos(ac: Ac): int {
      match ac case VO => vo case VI => vi case BE => be case BK => bk
    }
  }

  /** A TOS value the table does not know matches nothing, not even itself. */
  predicate SameClass(tos: int, got: int) {
    || (tos in TOS_VO_CODES && got in TOS_VO_CODES)
    || (tos in TOS_VI_CODES && got in TOS_VI_CODES)
    || (tos in TOS_BE_CODES && got in TOS_BE_CODES)
    || (tos in TOS_BK_CODES && got in TOS_BK_CODES)
  }

  predicate Expected(m: Msg, kind: int, tos: int) { m.kind == kind && SameClass(tos, m.tos) }

  /** The check of the L.1 test accepts VO and BE alike, whatever it is asked for. */
  predicate ExpectedL1(m: Msg, kind: int) {
    m.kind == kind && (m.tos in TOS_VO_CODES || m.tos in TOS_BE_CODES)
  }

  /** The state handlers. Rcv(ac) takes a frame of class ac; Snd answers with a frame of class reply,
      Bcast with a broadcast, and E ends with a STOP; stamped says that the STOP carries its TOS. */
  datatype Handler =
    | Hello | Conf | ConfSndVI
    | Rcv(ac: Ac) | RcvSnd(ac: Ac, reply: Ac) | RcvVOSnd2VO | RcvVOSndAllE
    | RcvSndE(ac: Ac, reply: Ac, stamped: bool)
    | RcvSndBcast(ac: Ac) | RcvSndBcastE(ac: Ac)
    | RcvVOE | RcvVIE | RcvBKE
    | Cyclic | WaitStop

  /** consoleProcStatetbl without the null entries at the end of each row. */
  function Script(test: nat): seq<Handler> {
    var vo, vi, be := RcvSnd(VO, VO), RcvSnd(VI, VI), RcvSnd(BE, BE);
    match test
    case 0 => [Hello, Conf, vo, WaitStop]
    case 1 => [Hello, Conf, vo, RcvVOE, WaitStop, WaitStop]
    case 2 => [Hello, Conf, RcvVOSnd2VO, RcvVOE, WaitStop, WaitStop]
    case 3 => [Hello, Conf, Rcv(VO), Rcv(VI), Rcv(BE), RcvBKE, WaitStop]
    case 4 => [Hello, Conf, RcvVIE, WaitStop]
    case 5 => [Hello, Conf, RcvSnd(VI, BE), RcvSnd(VI, BK), vi, RcvSndE(VI, VO, false), WaitStop]
    case 6 => [Hello, ConfSndVI, RcvSndBcastE(VO), WaitStop]
    case 7 => [Hello, Conf, vi, Rcv(VO), be, RcvSndBcastE(BE), WaitStop]
    case 8 => [Hello, Conf, Cyclic, WaitStop]
    case 9 => [Hello, Conf, vi, Rcv(VO), be, Rcv(BE), RcvSndBcastE(BE), WaitStop]
    case 10 => [Hello, Conf, RcvSndBcast(VI), RcvSndBcast(VI), RcvVIE, WaitStop]
    case 11 => [Hello, Conf, Rcv(VO), RcvVOSndAllE, WaitStop]
    case 12 => [Hello, Conf, vi, be, RcvSndE(VI, VI, false), WaitStop]
    case 13 => [Hello, Conf, vi, be, vo, RcvSndE(VO, VO, true), WaitStop]
    case 14 => [Hello, Conf, vi, Rcv(BE), be, Rcv(BE), vo, RcvVOE, WaitStop]
    case 15 => [Hello, Conf, RcvSndE(BE, BE, false), WaitStop]
    case 16 => [Hello, Conf, vi, be, RcvVIE, WaitStop]
    case 17 => [Hello, Conf, Rcv(VO), Rcv(VI), Rcv(BE), RcvBKE, WaitStop]
    case 18 => [Hello, Conf, vi, be, RcvVIE, WaitStop]
    case 19 => [Hello, Conf, RcvSndBcast(VI), RcvSndBcast(BE), RcvVIE, WaitStop]
    case _ => []
  }

  predicate Advancing(h: Handler) { !h.Cyclic? && !h.WaitStop? }

  function Wants(h: Handler): Ac
    requires Advancing(h)
  {
    match h
    case Hello | Conf | ConfSndVI => BE
    case Rcv(ac) => ac
    case RcvSnd(ac, _) => ac
    case RcvSndE(ac, _, _) => ac
    case RcvSndBcast(ac) => ac
    case RcvSndBcastE(ac) => ac
    case RcvVOSnd2VO | RcvVOSndAllE | RcvVOE => VO
    case RcvVIE => VI
    case RcvBKE => BK
  }

  /** A handler that is not the last one moves its station on exactly on these messages. */
  predicate Accepts(cfg: Config, h: Handler, m: Msg) {
    && Advancing(h)
    && Expected(m, if h.Hello? then APTS_HELLO else if h.Conf? || h.ConfSndVI? then APTS_CONFIRM else APTS_DEFAULT,
                cfg.Tos(Wants(h)))
  }

  /** A message on the wire: its destination (None: the broadcast socket, whose TOS is never set) and
      the TOS of the socket it leaves through. */
  datatype Sent = Sent(to: Option<nat>, msg: Msg, dscp: int)

  /** What a handler sends, and the station's msgno, word 0 of txmsg and the socket's TOS after it. */
  datatype Answer = Answer(frames: seq<Sent>, msgno: nat, tx: int, dscp: int)

  /** set_dscp keeps the low byte of the configured value. */
  function Low(tos: int): int { tos % 256 }

  function Echo(to: nat, number: nat, tos: int): Sent { Sent(Some(to), Msg(number, Low(tos), APTS_DEFAULT), Low(tos)) }

  function ToAll(number: nat, tos: int): Sent { Sent(None, Msg(number, Low(tos), APTS_DEFAULT), 0) }

  function Stop(to: nat, number: int, word: int, dscp: int): Sent { Sent(Some(to), Msg(number, word, APTS_STOP), dscp) }

  /** The frames a handler sends on the message it accepts. A STOP goes out with word 1 cleared unless
      the handler stamps it, and with whatever word 0 of txmsg still holds where the handler counts in
      rmsg instead. */
  function Reply(cfg: Config, h: Handler, to: nat, n: nat, tx: int, dscp: int): Answer
    requires Advancing(h) || h.WaitStop?
  {
    var be := Low(cfg.be);
    match h
    case Hello => Answer([Sent(Some(to), Msg(tx, 0, cfg.test), dscp)], n, tx, dscp)
    case Conf => Answer([], n, tx, dscp)
    case ConfSndVI =>
      Answer([Sent(Some(to), Msg(n + 1, ToUInt(cfg.vi), APTS_DEFAULT), Low(cfg.vi))], n + 1, n + 1, Low(cfg.vi))
    case Rcv(_) => Answer([], n, tx, dscp)
    case RcvSnd(_, r) => Answer([Echo(to, n + 1, cfg.Tos(r))], n + 1, tx, Low(cfg.Tos(r)))
    case RcvVOSnd2VO => Answer([Echo(to, n + 1, cfg.vo), Echo(to, n + 2, cfg.vo)], n + 2, tx, Low(cfg.vo))
    case RcvVOSndAllE =>
      Answer([Echo(to, n + 1, cfg.vo), Echo(to, n + 2, cfg.vi), Echo(to, n + 3, cfg.be), Echo(to, n + 4, cfg.bk),
              Stop(to, n + 5, ToUInt(cfg.bk), Low(cfg.bk))], n + 5, n + 5, Low(cfg.bk))
    case RcvSndE(_, r, stamped) =>
      Answer([Echo(to, n + 1, cfg.Tos(r)), Stop(to, n + 2, if stamped then ToUInt(cfg.be) else 0, be)],
             n + 2, n + 2, be)
    case RcvSndBcast(ac) => Answer([Echo(to, n + 1, cfg.Tos(ac)), ToAll(n + 2, cfg.be)], n + 2, tx, be)
    case RcvSndBcastE(_) => Answer([ToAll(n + 1, cfg.be), Stop(to, n + 2, 0, be)], n + 2, n + 2, be)
    case RcvVOE => Answer([Stop(to, n + 1, 0, be)], n + 1, n + 1, be)
    case RcvVIE => Answer([Stop(to, tx, 0, be)], n + 1, tx, be)
    case RcvBKE => Answer([Stop(to, tx, 0, dscp)], n + 1, tx, dscp)
    case WaitStop => Answer([Stop(to, tx, 0, dscp)], n + 1, tx, dscp)
  }

  /** Every handler numbers what it sends: msgno grows by the number of frames, except that the test
      command answering a HELLO is not counted. */
  lemma ReplyIsCounted(cfg: Config, h: Handler, to: nat, n: nat, tx: int, dscp: int)
    requires Advancing(h) || h.WaitStop?
    ensures var a := Reply(cfg, h, to, n, tx, dscp);
      a.msgno == n + |a.frames| - if h.Hello? then 1 else 0
  {
  }

  /** Where the script of a test waits for good. */
  function Terminal(test: nat): (w: nat)
    requires 1 <= test <= LAST_TEST
    ensures 2 <= w < |Script(test)|
    ensures Script(test)[0].Hello? && forall i :: 0 < i < w ==> Advancing(Script(test)[i]) && !Script(test)[i].Hello?
    ensures if test == L_1 then Script(test)[w].Cyclic? && w == 2 else Script(test)[w].WaitStop?
  {
    if test in {4, 6, 15} then 3
    else if test in {1, 2, 11} then 4
    else if test in {10, 12, 16, 18, 19} then 5
    else if test in {3, 5, 7, 13, 17} then 6
    else if test == 9 then 7
    else if test == 14 then 8
    else 2
  }
}
