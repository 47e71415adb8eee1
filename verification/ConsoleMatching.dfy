/** Runs of the console for every test but L.1, where one station takes part: the console matches the
    test's script against what it receives, greedily, and what it sends depends on how far it got. */
module ConsoleMatching {
  import opened Options
  import opened ConsoleScript
  import opened Console

  predicate SingleStation(cfg: Config) { cfg.Valid() && cfg.test != L_1 }

  predicate Registers(cfg: Config, d: Datagram) { !Ignored(cfg, d.src, d.msg) && d.msg.kind == APTS_HELLO }

  predicate NoneRegisters(cfg: Config, ds: seq<Datagram>) { forall i :: 0 <= i < |ds| ==> !Registers(cfg, ds[i]) }

  // The reference: longest prefix of the script that can be found in the received messages, in order.

  /** Message idx[j] is one that handler hs[j] accepts, and idx goes up. */
  predicate Embedding(cfg: Config, hs: seq<Handler>, ds: seq<Datagram>, idx: seq<nat>) {
    && |idx| == |hs|
    && (forall j :: 0 <= j < |idx| ==> idx[j] < |ds| && Accepts(cfg, hs[j], ds[idx[j]].msg))
    && (forall i, j :: 0 <= i < j < |idx| ==> idx[i] < idx[j])
  }

  ghost predicate Embeds(cfg: Config, hs: seq<Handler>, ds: seq<Datagram>) {
    exists idx :: Embedding(cfg, hs, ds, idx)
  }

  /** How many handlers are matched when each takes the first message it accepts. */
  function Greedy(cfg: Config, hs: seq<Handler>, ds: seq<Datagram>): (g: nat)
    ensures g <= |hs|
  {
    if ds == [] then 0
    else
      var g := Greedy(cfg, hs, ds[..|ds| - 1]);
      if g < |hs| && Accepts(cfg, hs[g], ds[|ds| - 1].msg) then g + 1 else g
  }

  lemma {:induction false} GreedyEmbeds(cfg: Config, hs: seq<Handler>, ds: seq<Datagram>) returns (idx: seq<nat>)
    ensures Embedding(cfg, hs[..Greedy(cfg, hs, ds)], ds, idx)
  {
    if ds == [] {
      idx := [];
    } else {
      var front := ds[..|ds| - 1];
      idx := GreedyEmbeds(cfg, hs, front);
      if Greedy(cfg, hs, ds) > Greedy(cfg, hs, front) { idx := idx + [|ds| - 1]; }
    }
  }

  lemma {:induction false} GreedyIsMost(cfg: Config, hs: seq<Handler>, ds: seq<Datagram>, k: nat, idx: seq<nat>)
    requires k <= |hs| && Embedding(cfg, hs[..k], ds, idx)
    ensures k <= Greedy(cfg, hs, ds)
    decreases |ds|
  {
    if k > 0 {
      assert idx[k - 1] < |ds|;
      var front := ds[..|ds| - 1];
      if idx[k - 1] < |front| {
        assert Embedding(cfg, hs[..k], front, idx);
        GreedyIsMost(cfg, hs, front, k, idx);
      } else {
        assert Embedding(cfg, hs[..k - 1], front, idx[..k - 1]);
        GreedyIsMost(cfg, hs, front, k - 1, idx[..k - 1]);
      }
    }
  }

  /** Matching greedily is matching as much as possible: a prefix of the script is a subsequence of
      the messages exactly if it is no longer than what the greedy match found. */
  lemma GreedyIsLongestPrefix(cfg: Config, hs: seq<Handler>, ds: seq<Datagram>, k: nat)
    requires k <= |hs|
    ensures Embeds(cfg, hs[..k], ds) <==> k <= Greedy(cfg, hs, ds)
  {
    if k <= Greedy(cfg, hs, ds) {
      var idx := GreedyEmbeds(cfg, hs, ds);
      assert Embedding(cfg, hs[..k], ds, idx[..k]);
    }
    if Embeds(cfg, hs[..k], ds) {
      var idx :| Embedding(cfg, hs[..k], ds, idx);
      GreedyIsMost(cfg, hs, ds, k, idx);
    }
  }

  // The console's state is a function of how many handlers have been matched.

  /** The part of the script between the registration and the wait for the final STOP. */
  function Rest(cfg: Config): seq<Handler>
    requires cfg.Valid()
  {
    Script(cfg.test)[1..Terminal(cfg.test)]
  }

  /** The answers of the first k handlers to station `to`, one after the other. */
  function Transcript(cfg: Config, to: nat, k: nat): Answer
    requires SingleStation(cfg) && k <= Terminal(cfg.test)
  {
    if k == 0 then Answer([], 0, 0, 0)
    else
      var p := Transcript(cfg, to, k - 1);
      var a := Reply(cfg, Script(cfg.test)[k - 1], to, p.msgno, p.tx, p.dscp);
      a.(frames := p.frames + a.frames)
  }

  function Repeated(x: Sent, j: nat): (r: seq<Sent>)
    ensures |r| == j
  {
    if j == 0 then [] else Repeated(x, j - 1) + [x]
  }

  /** The console after k handlers were matched and j more messages were answered with a STOP. */
  function StateAt(cfg: Config, to: nat, k: nat, j: nat): State
    requires SingleStation(cfg) && k <= Terminal(cfg.test)
  {
    var p := Transcript(cfg, to, k);
    INIT.(stations := INIT.stations[0 := Station(to, k, p.msgno + j)], nsta := 1, sta := Some(0), from := to,
          tx := p.tx, dscp := p.dscp, out := p.frames + Repeated(Stop(to, p.tx, 0, p.dscp), j))
  }

  predicate Skipped(d: Datagram) { d.msg.kind == APTS_BCST || d.msg.kind == APTS_HELLO }

  predicate EndsRun(d: Datagram) { d.msg.kind == APTS_RESET || d.msg.kind == APTS_RESET_STOP }

  lemma OnlySlotZero(to: nat, st: Station)
    requires to != 0 && st.addr == to
    ensures SlotOf(INIT.stations, to) == None && SlotOf(INIT.stations, 0) == Some(0)
    ensures SlotOf(INIT.stations[0 := st], to) == Some(0)
  {
    assert forall i :: 0 <= i < |INIT.stations| ==> INIT.stations[i].addr == 0;
    assert INIT.stations[0 := st][0] == st;
  }

  lemma {:induction false} BeforeRegistration(cfg: Config, pre: seq<Datagram>)
    requires NoneRegisters(cfg, pre)
    ensures var s := Run(cfg, INIT, pre);
      s == INIT.(from := s.from)
  {
    if pre != [] {
      var front, d := pre[..|pre| - 1], pre[|pre| - 1];
      assert forall i :: 0 <= i < |front| ==> front[i] == pre[i];
      BeforeRegistration(cfg, front);
      if d.src != 0 { OnlySlotZero(d.src, Station(d.src, 0, 0)); }
      assert !Registers(cfg, d);
    }
  }

  /** The registering HELLO. */
  lemma Registration(cfg: Config, s: State, hello: Datagram)
    requires SingleStation(cfg) && s == INIT.(from := s.from) && Registers(cfg, hello)
    ensures Next(cfg, s, hello) == StateAt(cfg, hello.src, if Accepts(cfg, Hello, hello.msg) then 1 else 0, 0)
  {
    var to := hello.src;
    OnlySlotZero(to, Station(to, 0, 0));
    var r := Enrolled(s.(from := to), 0);
    assert StateAt(cfg, to, 0, 0) == r by { assert r.out == [] == Transcript(cfg, to, 0).frames; }
    assert Next(cfg, s, hello) == Handle(cfg, r, 0, Hello, hello.msg);
    if Accepts(cfg, Hello, hello.msg) { AnswerMoves(cfg, to, 0); }
  }

  /** Answering with the k-th handler leads from the k-th state to the next. */
  lemma AnswerMoves(cfg: Config, to: nat, k: nat)
    requires SingleStation(cfg) && k < Terminal(cfg.test)
    ensures var s := StateAt(cfg, to, k, 0);
      var a := Reply(cfg, Script(cfg.test)[k], to, s.stations[0].msgno, s.tx, s.dscp);
      Answered(s, 0, a, 1) == StateAt(cfg, to, k + 1, 0)
  {
    var p, q := Transcript(cfg, to, k), Transcript(cfg, to, k + 1);
    assert p.frames + [] == p.frames && q.frames + [] == q.frames;
    assert INIT.stations[0 := Station(to, k, p.msgno)][0 := Station(to, k + 1, q.msgno)]
        == INIT.stations[0 := Station(to, k + 1, q.msgno)];
  }

  /** One datagram after the registration, wherever it comes from. */
  lemma NextAt(cfg: Config, to: nat, k: nat, j: nat, d: Datagram)
    requires SingleStation(cfg) && k <= Terminal(cfg.test) && (k < Terminal(cfg.test) ==> j == 0)
    requires to != 0 && to != cfg.local && to != cfg.target
    ensures var s, n := StateAt(cfg, to, k, j), Next(cfg, StateAt(cfg, to, k, j), d);
      if Skipped(d) then n == s
      else if EndsRun(d) then n.exit.Some? && n.exit != Some(Stopped) && n.stations == s.stations
      else if k == Terminal(cfg.test) then
        n == (if Expected(d.msg, APTS_STOP, cfg.be) then StateAt(cfg, to, k, j + 1).(exit := Some(Stopped))
              else StateAt(cfg, to, k, j + 1))
      else n == (if Accepts(cfg, Script(cfg.test)[k], d.msg) then StateAt(cfg, to, k + 1, 0) else s)
  {
    var s := StateAt(cfg, to, k, j);
    OnlySlotZero(to, s.stations[0]);
    if k < Terminal(cfg.test) {
      AnswerMoves(cfg, to, k);
    } else {
      StopRepeats(cfg, to, j);
    }
  }

  lemma StopRepeats(cfg: Config, to: nat, j: nat)
    requires SingleStation(cfg)
    ensures var k := Terminal(cfg.test);
      var s := StateAt(cfg, to, k, j);
      Answered(s, 0, Reply(cfg, WaitStop, to, s.stations[0].msgno, s.tx, s.dscp), 0) == StateAt(cfg, to, k, j + 1)
  {
    var k := Terminal(cfg.test);
    var p := Transcript(cfg, to, k);
    var stop := Stop(to, p.tx, 0, p.dscp);
    assert p.frames + Repeated(stop, j) + [stop] == p.frames + Repeated(stop, j + 1);
    assert INIT.stations[0 := Station(to, k, p.msgno + j)][0 := Station(to, k, p.msgno + j + 1)]
        == INIT.stations[0 := Station(to, k, p.msgno + j + 1)];
  }

  /** One message further: g handlers of the rest matched, then j messages answered with a STOP. */
  function MovedOn(cfg: Config, g: nat, j: nat, d: Datagram): (nat, nat)
    requires cfg.Valid()
  {
    if g >= |Rest(cfg)| then (g, if Skipped(d) then j else j + 1)
    else (if Accepts(cfg, Rest(cfg)[g], d.msg) then g + 1 else g, j)
  }

  function Progress(cfg: Config, ds: seq<Datagram>): (p: (nat, nat))
    requires cfg.Valid()
    ensures p.0 <= |Rest(cfg)| && (p.0 < |Rest(cfg)| ==> p.1 == 0)
  {
    if ds == [] then (0, 0)
    else
      var p := Progress(cfg, ds[..|ds| - 1]);
      MovedOn(cfg, p.0, p.1, ds[|ds| - 1])
  }

  lemma {:induction false} ProgressIsGreedy(cfg: Config, ds: seq<Datagram>)
    requires cfg.Valid()
    ensures Progress(cfg, ds).0 == Greedy(cfg, Rest(cfg), ds)
  {
    if ds != [] { ProgressIsGreedy(cfg, ds[..|ds| - 1]); }
  }

  lemma StepFrom(cfg: Config, to: nat, g: nat, j: nat, d: Datagram)
    requires SingleStation(cfg) && to != 0 && to != cfg.local && to != cfg.target
    requires g <= |Rest(cfg)| && (g < |Rest(cfg)| ==> j == 0)
    ensures var n := Next(cfg, StateAt(cfg, to, 1 + g, j), d);
      && (n.exit == Some(Stopped) <==> g == |Rest(cfg)| && Expected(d.msg, APTS_STOP, cfg.be))
      && MovedOn(cfg, g, j, d).0 <= |Rest(cfg)|
      && (n.exit.None? ==> n == StateAt(cfg, to, 1 + MovedOn(cfg, g, j, d).0, MovedOn(cfg, g, j, d).1))
  {
    if g < |Rest(cfg)| { assert Rest(cfg)[g] == Script(cfg.test)[1 + g]; }
    NextAt(cfg, to, 1 + g, j, d);
  }

  lemma {:induction false} AfterGoodHello(cfg: Config, to: nat, post: seq<Datagram>)
    requires SingleStation(cfg) && to != 0 && to != cfg.local && to != cfg.target
    ensures var s, p := Run(cfg, StateAt(cfg, to, 1, 0), post), Progress(cfg, post);
      s.exit.None? ==> s == StateAt(cfg, to, 1 + p.0, p.1)
  {
    if post != [] {
      var front := post[..|post| - 1];
      AfterGoodHello(cfg, to, front);
      var p := Progress(cfg, front);
      StepFrom(cfg, to, p.0, p.1, post[|post| - 1]);
    }
  }

  lemma {:induction false} AfterBadHello(cfg: Config, to: nat, post: seq<Datagram>)
    requires SingleStation(cfg) && to != 0 && to != cfg.local && to != cfg.target
    ensures var s := Run(cfg, StateAt(cfg, to, 0, 0), post);
      s.stations[0].state == 0 && s.exit != Some(Stopped) && (s.exit.None? ==> s == StateAt(cfg, to, 0, 0))
  {
    if post != [] {
      AfterBadHello(cfg, to, post[..|post| - 1]);
      NextAt(cfg, to, 0, 0, post[|post| - 1]);
    }
  }

  /** A whole run up to and including its first registering HELLO, and then post. */
  lemma SplitRun(cfg: Config, pre: seq<Datagram>, hello: Datagram, post: seq<Datagram>)
    requires SingleStation(cfg) && NoneRegisters(cfg, pre) && Registers(cfg, hello)
    ensures Run(cfg, INIT, pre + [hello] + post)
         == Run(cfg, StateAt(cfg, hello.src, if Accepts(cfg, Hello, hello.msg) then 1 else 0, 0), post)
  {
    RunJoin(cfg, INIT, pre + [hello], post);
    assert (pre + [hello])[..|pre|] == pre;
    BeforeRegistration(cfg, pre);
    Registration(cfg, Run(cfg, INIT, pre), hello);
  }

  // The theorems.

  /** The console refines longest-prefix matching: while it runs, its station's state is one more than
      the length of the longest prefix of the rest of the script that is a subsequence of everything
      received since the accepted HELLO. Unexpected and repeated messages change nothing. */
  lemma StateIsLongestPrefix(cfg: Config, pre: seq<Datagram>, hello: Datagram, post: seq<Datagram>, k: nat)
    requires SingleStation(cfg) && NoneRegisters(cfg, pre) && Registers(cfg, hello)
    requires Accepts(cfg, Hello, hello.msg)
    requires Run(cfg, INIT, pre + [hello] + post).exit.None?
    requires k <= |Rest(cfg)|
    ensures var s := Run(cfg, INIT, pre + [hello] + post);
      |s.stations| == NSTA && s.stations[0].addr == hello.src
      && (Embeds(cfg, Rest(cfg)[..k], post) <==> 1 + k <= s.stations[0].state)
      && s.stations[0].state <= Terminal(cfg.test)
  {
    SplitRun(cfg, pre, hello, post);
    AfterGoodHello(cfg, hello.src, post);
    ProgressIsGreedy(cfg, post);
    GreedyIsLongestPrefix(cfg, Rest(cfg), post, k);
  }

  lemma {:induction false} TranscriptIsCounted(cfg: Config, to: nat, k: nat)
    requires SingleStation(cfg) && 1 <= k <= Terminal(cfg.test)
    ensures var p := Transcript(cfg, to, k);
      |p.frames| == p.msgno + 1
  {
    var p := Transcript(cfg, to, k - 1);
    ReplyIsCounted(cfg, Script(cfg.test)[k - 1], to, p.msgno, p.tx, p.dscp);
    if k > 1 { TranscriptIsCounted(cfg, to, k - 1); }
  }

  /** What was sent since the registration: one frame more than msgno counts; before the terminal state
      exactly the fixed answers of the first `state` handlers, and in it one STOP more for every
      message answered there. */
  lemma OutputIsConserved(cfg: Config, pre: seq<Datagram>, hello: Datagram, post: seq<Datagram>)
    requires SingleStation(cfg) && NoneRegisters(cfg, pre) && Registers(cfg, hello)
    requires Accepts(cfg, Hello, hello.msg)
    requires Run(cfg, INIT, pre + [hello] + post).exit.None?
    ensures var s := Run(cfg, INIT, pre + [hello] + post);
      var st := s.stations[0];
      && 1 <= st.state <= Terminal(cfg.test)
      && |s.out| == st.msgno + 1
      && var p := Transcript(cfg, hello.src, st.state);
         && (st.state < Terminal(cfg.test) ==> s.out == p.frames)
         && p.msgno <= st.msgno && s.out == p.frames + Repeated(Stop(hello.src, p.tx, 0, p.dscp), st.msgno - p.msgno)
  {
    SplitRun(cfg, pre, hello, post);
    AfterGoodHello(cfg, hello.src, post);
    TranscriptIsCounted(cfg, hello.src, 1 + Progress(cfg, post).0);
  }

  /** A station whose HELLO failed the TOS check never gets on, and nothing is sent to it but the answer
      to a reset. */
  lemma BadHelloIsStuck(cfg: Config, pre: seq<Datagram>, hello: Datagram, post: seq<Datagram>)
    requires SingleStation(cfg) && NoneRegisters(cfg, pre) && Registers(cfg, hello)
    requires !Accepts(cfg, Hello, hello.msg)
    ensures var s := Run(cfg, INIT, pre + [hello] + post);
      |s.stations| == NSTA && s.stations[0].state == 0 && s.exit != Some(Stopped) && (s.exit.None? ==> s.out == [])
  {
    SplitRun(cfg, pre, hello, post);
    AfterBadHello(cfg, hello.src, post);
  }

  /** A running console exits through a STOP exactly on a STOP of class BE that comes after the whole
      script was matched, in order. */
  lemma StopExitIff(cfg: Config, pre: seq<Datagram>, hello: Datagram, post: seq<Datagram>, d: Datagram)
    requires SingleStation(cfg) && NoneRegisters(cfg, pre) && Registers(cfg, hello)
    requires Run(cfg, INIT, pre + [hello] + post).exit.None?
    ensures Next(cfg, Run(cfg, INIT, pre + [hello] + post), d).exit == Some(Stopped) <==>
            Accepts(cfg, Hello, hello.msg) && Embeds(cfg, Rest(cfg), post) && Expected(d.msg, APTS_STOP, cfg.be)
  {
    SplitRun(cfg, pre, hello, post);
    var to := hello.src;
    if Accepts(cfg, Hello, hello.msg) {
      AfterGoodHello(cfg, to, post);
      ProgressIsGreedy(cfg, post);
      GreedyIsLongestPrefix(cfg, Rest(cfg), post, |Rest(cfg)|);
      assert Rest(cfg)[..|Rest(cfg)|] == Rest(cfg);
      StepFrom(cfg, to, Progress(cfg, post).0, Progress(cfg, post).1, d);
    } else {
      AfterBadHello(cfg, to, post);
      NextAt(cfg, to, 0, 0, d);
    }
  }

  /** Message i registers the station, messages i + 1 to j - 1 complete the script, and message j is a
      STOP of class BE. */
  ghost predicate Explained(cfg: Config, ds: seq<Datagram>, i: nat, j: nat)
    requires SingleStation(cfg)
  {
    && i < j < |ds|
    && NoneRegisters(cfg, ds[..i]) && Registers(cfg, ds[i]) && Accepts(cfg, Hello, ds[i].msg)
    && Embeds(cfg, Rest(cfg), ds[i + 1..j]) && Expected(ds[j].msg, APTS_STOP, cfg.be)
  }

  lemma ExplainedStays(cfg: Config, front: seq<Datagram>, d: Datagram, i: nat, j: nat)
    requires SingleStation(cfg) && Explained(cfg, front, i, j)
    ensures Explained(cfg, front + [d], i, j)
  {
    var ds := front + [d];
    assert front[..i] == ds[..i] && front[i + 1..j] == ds[i + 1..j];
  }

  lemma FirstHello(cfg: Config, ds: seq<Datagram>) returns (i: nat)
    ensures i <= |ds| && NoneRegisters(cfg, ds[..i])
    ensures if i < |ds| then Registers(cfg, ds[i]) && ds == ds[..i] + [ds[i]] + ds[i + 1..] else NoneRegisters(cfg, ds)
  {
    i := 0;
    while i < |ds| && !Registers(cfg, ds[i])
      invariant i <= |ds| && NoneRegisters(cfg, ds[..i])
    {
      i := i + 1;
    }
  }

  lemma ExplainedFrom(cfg: Config, pre: seq<Datagram>, hello: Datagram, post: seq<Datagram>, d: Datagram)
    requires SingleStation(cfg) && NoneRegisters(cfg, pre) && Registers(cfg, hello)
    requires Accepts(cfg, Hello, hello.msg) && Embeds(cfg, Rest(cfg), post) && Expected(d.msg, APTS_STOP, cfg.be)
    ensures Explained(cfg, pre + [hello] + post + [d], |pre|, |pre| + 1 + |post|)
  {
    var ds := pre + [hello] + post + [d];
    assert ds[..|pre|] == pre && ds[|pre| + 1..|pre| + 1 + |post|] == post;
  }

  /** After front the console still runs, and d makes it exit through a STOP. */
  ghost predicate StopsOn(cfg: Config, front: seq<Datagram>, d: Datagram) {
    var s := Run(cfg, INIT, front);
    s.exit.None? && Next(cfg, s, d).exit == Some(Stopped)
  }

  lemma LastMessageStops(cfg: Config, pre: seq<Datagram>, hello: Datagram, post: seq<Datagram>, d: Datagram)
    requires SingleStation(cfg) && NoneRegisters(cfg, pre) && Registers(cfg, hello)
    ensures StopsOn(cfg, pre + [hello] + post, d) ==>
      Explained(cfg, pre + [hello] + post + [d], |pre|, |pre| + 1 + |post|)
  {
    if StopsOn(cfg, pre + [hello] + post, d) {
      StopExitIff(cfg, pre, hello, post, d);
      ExplainedFrom(cfg, pre, hello, post, d);
    }
  }

  lemma StopOnLast(cfg: Config, front: seq<Datagram>, d: Datagram) returns (i: nat)
    requires SingleStation(cfg)
    ensures StopsOn(cfg, front, d) ==> Explained(cfg, front + [d], i, |front|)
  {
    i := FirstHello(cfg, front);
    if i == |front| {
      NoStopBeforeRegistration(cfg, front, d);
    } else {
      LastMessageStops(cfg, front[..i], front[i], front[i + 1..], d);
    }
  }

  /** Every run that ended through a STOP registered a station, matched the whole script and then
      received a STOP of class BE, in this order. */
  lemma {:induction false} StopExitExplained(cfg: Config, ds: seq<Datagram>) returns (i: nat, j: nat)
    requires SingleStation(cfg) && Run(cfg, INIT, ds).exit == Some(Stopped)
    ensures Explained(cfg, ds, i, j)
  {
    var front, d := ds[..|ds| - 1], ds[|ds| - 1];
    assert ds == front + [d];
    if Run(cfg, INIT, front).exit.Some? {
      i, j := StopExitExplained(cfg, front);
      ExplainedStays(cfg, front, d, i, j);
    } else {
      i := StopOnLast(cfg, front, d);
      j := |front|;
    }
  }

  lemma NoStopBeforeRegistration(cfg: Config, pre: seq<Datagram>, d: Datagram)
    requires SingleStation(cfg) && NoneRegisters(cfg, pre)
    ensures Next(cfg, Run(cfg, INIT, pre), d).exit != Some(Stopped)
  {
    BeforeRegistration(cfg, pre);
    var s := Run(cfg, INIT, pre);
    if Registers(cfg, d) {
      Registration(cfg, s, d);
    } else if d.src != 0 {
      OnlySlotZero(d.src, Station(d.src, 0, 0));
    }
  }
}
