/** wfaSendLongFile (lib/wfa_tg.c): a deadline pacer built on wfaTxSleepTime, wfa_itime_diff and
    buzz_time. The clock is any clock that does not run backwards: every reading, sleep and call
    takes an arbitrary extra delay. */
module LongFileSender {
  import opened CInt
  import opened Miscs
  import opened Options
  import opened Traffic

  const WFA_MCAST_FRATE := 50

  /** What sendto reports: bytes taken, EAGAIN or ENOBUFS, ECONNRESET or EPIPE, any other error. */
  datatype SendTo = Took(bytes: nat) | Busy | Broken | OtherError

  datatype Pace = Pace(sleepTime: int, throttledRate: int)

  /** wfaTxSleepTime, from the caller's zeros: throttledRate frames in every sleepTime microseconds. */
  function TxSleepTime(profile: ProfileKind, rate: int): Pace {
    match profile
    case Mcast =>
      if 50 <= rate < 500 then Pace(100_000, WFA_MCAST_FRATE) else Pace(100_000, rate)
    case Burst | Iptv | FileTx =>
      if rate >= 50 || rate == 0 then Pace(20_000, (if rate != 0 then rate else 20_000) / 50)
      else if rate > 0 then Pace(1_000_000 / rate, 1)
      else Pace(0, 0)
    case _ => Pace(0, 0)
  }

  lemma TxSleepTimeBounds(profile: ProfileKind, rate: int)
    ensures 0 <= TxSleepTime(profile, rate).sleepTime <= MICROSECONDS
  {
    if 0 < rate < 50 { assert MICROSECONDS / rate <= MICROSECONDS; }
  }

  method ReadClock(now: int) returns (t: int)
    ensures now <= t
  {
    var lag :| 0 <= lag;
    t := now + lag;
  }

  method USleep(now: int, usecs: nat) returns (t: int)
    ensures now + usecs <= t
  {
    t := ReadClock(now + usecs);
  }

  /** Adds microseconds to a time value with the source's loose renormalisation. */
  function Advance(tv: TimeVal, usecs: int): (r: TimeVal)
    ensures r.Micros() == tv.Micros() + usecs
    ensures tv.Loose() && 0 <= usecs <= MICROSECONDS ==> r.Loose()
  {
    var usec := tv.usec + usecs;
    if usec > MICROSECONDS then TimeVal(tv.sec + 1, usec - MICROSECONDS) else TimeVal(tv.sec, usec)
  }

  /** At the reading t the difference to stop, cut to an int, is not positive any more. */
  predicate EndsSpin(stop: int, t: int) { ToInt(stop - t) <= 0 }

  method LastReading(now: int, stop: int) returns (t: int)
    ensures now <= t && EndsSpin(stop, t)
  {
    var wait := (stop - now) % TWO_32;
    assert stop - (now + wait) == TWO_32 * ((stop - now) / TWO_32);
    assert EndsSpin(stop, now + wait);
    t :| now <= t && EndsSpin(stop, t);
  }

  /** buzz_time: spins until the difference to the end of the delay, cut to an int, is not positive. The
      clock may stand still or jump ahead at any reading; all that is known is that the spin ends. */
  method BuzzTime(now0: int, delay: nat) returns (now: int)
    requires IsInt(delay)
    ensures now0 + delay <= now
  {
    now := ReadClock(now0);
    var stop := Advance(ToTimeVal(now), delay).Micros();
    var spins :| 0 <= spins;
    var diff := 1;
    while diff > 0
      invariant now0 <= now && now0 + delay <= stop && stop - now <= INT_MAX
      invariant diff > 0 || stop <= now
      decreases diff > 0, spins
    {
      if spins == 0 { now := LastReading(now, stop); } else { now := ReadClock(now); spins := spins - 1; }
      diff := ToInt(stop - ToTimeVal(now).Micros());
      if 0 < stop - now { WrapIsIdentityOnInts(stop - now); }
    }
  }

  /** Waits until the deadline: sleeps while more than the timer latency is left, then spins. */
  method WaitForDeadline(now0: int, before: TimeVal, adjLatency: int) returns (now: int)
    requires before.Loose() && before.Micros() - now0 <= MICROSECONDS && IsInt(adjLatency)
    ensures now0 <= now && before.Micros() <= now
  {
    now := ReadClock(now0);
    var difftime := TimeLeft(now, before);
    if difftime > adjLatency {
      now := USleep(now, difftime - adjLatency);
      now := ReadClock(now);
      difftime := TimeLeft(now, before);
    }
    if difftime > 0 { now := BuzzTime(now, difftime); }
  }

  /** wfa_itime_diff of a clock reading and the deadline: exact while the deadline lies ahead. */
  method TimeLeft(now: int, before: TimeVal) returns (difftime: int)
    requires before.Loose() && before.Micros() - now <= MICROSECONDS
    ensures IsInt(difftime) && (now < before.Micros() ==> difftime == before.Micros() - now)
  {
    var after := ToTimeVal(now);
    if now < before.Micros() { ITimeDiffExactIff(after, before); }
    difftime := ITimeDiff(after, before);
  }

  /** The pacer between two frames. */
  datatype Pacer = Pacer(
    counter: int,       // the last sequence number not given back
    before: TimeVal,    // the deadline of the next throttled frame
    now: int,           // the clock
    t0: int,            // the reading that set the first deadline, anew after busy attempts before any frame
    first: int,         // the first reading of the clock
    runLoop: bool,
    frames: seq<Frame>, // what left, in order
    tries: seq<Frame>,  // every frame handed to sendto
    stats: TgStats)

  /** frame c may not leave before this instant */
  function Earliest(t0: int, pace: Pace, c: int): int
    requires pace.throttledRate > 0 && c >= 0
  {
    t0 + Times(Quotient(c, pace.throttledRate), pace.sleepTime)
  }

  ghost predicate NoneEarly(fs: seq<Frame>, t0: int, pace: Pace)
    requires pace.throttledRate > 0
  {
    forall j :: 0 <= j < |fs| ==> fs[j].sn >= 1 && Earliest(t0, pace, fs[j].sn) <= fs[j].at
  }

  /** Sequence numbers only grow from frame to frame, and so do the departure times. */
  ghost predicate Ordered(fs: seq<Frame>, counter: int, now: int) {
    && (forall j :: 0 <= j < |fs| ==> j + 1 <= fs[j].sn <= counter && fs[j].at <= now)
    && (forall i, j :: 0 <= i < j < |fs| ==> fs[i].sn < fs[j].sn && fs[i].at <= fs[j].at)
  }

  /** The deadline is a whole interval past the last throttled frame, and at most one ahead. */
  ghost predicate Deadline(p: Pacer, pace: Pace) {
    && p.counter >= 0 && p.before.Loose() && p.before.Micros() - p.now <= MICROSECONDS && p.first <= p.t0 <= p.now
    && (pace.throttledRate > 0 && p.counter + |p.tries| > 0 ==>
          && Earliest(p.t0, pace, p.counter) <= p.now
          && p.t0 + Times(Quotient(p.counter, pace.throttledRate) + 1, pace.sleepTime) <= p.before.Micros())
  }

  ghost predicate OnPace(p: Pacer, pace: Pace) {
    && Deadline(p, pace)
    && Ordered(p.frames, p.counter, p.now)
    && (pace.throttledRate > 0 ==> NoneEarly(p.tries, p.first, pace) && NoneEarly(p.frames, p.t0, pace))
    && (p.tries == [] ==> p.counter == 0 && p.frames == [])
  }

  // One trip through the sending loop, as a function of the clock.

  /** The clock during one trip: when the first deadline is set, when the waiting is over, what the frame is
      stamped with, and when the trip ends. */
  datatype Readings = Readings(start: int, turn: int, stamp: int, end: int)

  /** The deadline the trip waits for if it is throttled. */
  function Due(p: Pacer, pace: Pace, start: int): TimeVal {
    if p.counter == 0 then Advance(ToTimeVal(start), pace.sleepTime) else p.before
  }

  predicate Throttled(p: Pacer, pace: Pace) {
    pace.throttledRate != 0 && (p.counter + 1) % pace.throttledRate == 0
  }

  /** Which readings a trip can have: the clock does not run backwards, a throttled trip waits for its
      deadline, and a busy attempt is followed by a sleep of 1 ms. */
  predicate Possible(p: Pacer, pace: Pace, outcome: SendTo, c: Readings) {
    && p.now <= c.start && (p.counter != 0 ==> c.start == p.now)
    && c.start <= c.turn && (if Throttled(p, pace) then Due(p, pace, c.start).Micros() <= c.turn else c.turn == c.start)
    && c.turn <= c.stamp && c.stamp + (if outcome.Busy? then 1000 else 0) <= c.end
  }

  /** The pacer after a trip with these readings. */
  function TripAt(p: Pacer, pace: Pace, outcome: SendTo, c: Readings): Pacer {
    var frame, due := Frame(p.counter + 1, c.stamp, 0), Due(p, pace, c.start);
    Pacer(p.counter + if outcome.Busy? then 0 else 1,
          if Throttled(p, pace) then Advance(due, pace.sleepTime) else due,
          c.end,
          if p.counter == 0 then c.start else p.t0,
          if p.tries == [] then c.start else p.first,
          p.runLoop && !outcome.Broken?,
          p.frames + if outcome.Took? then [frame.(bytes := outcome.bytes)] else [],
          p.tries + [frame],
          Charge(p.stats, outcome))
  }

  /** The waiting part of one trip: sets or awaits the deadline. */
  method AwaitTurn(p: Pacer, pace: Pace, adjLatency: int) returns (start: int, turn: int, before: TimeVal)
    requires IsInt(adjLatency) && 0 <= pace.sleepTime <= MICROSECONDS
    requires p.before.Loose() && p.before.Micros() - p.now <= MICROSECONDS
    ensures p.now <= start && (p.counter != 0 ==> start == p.now)
    ensures start <= turn
    ensures if Throttled(p, pace) then Due(p, pace, start).Micros() <= turn else turn == start
    ensures before == if Throttled(p, pace) then Advance(Due(p, pace, start), pace.sleepTime) else Due(p, pace, start)
  {
    var counter := p.counter + 1;
    start, before := p.now, p.before;
    if counter == 1 {
      start := ReadClock(start);
      before := Advance(ToTimeVal(start), pace.sleepTime);
    }
    turn := start;
    if pace.throttledRate != 0 {
      if counter % pace.throttledRate == 0 {
        turn := WaitForDeadline(turn, before, adjLatency);
        before := Advance(before, pace.sleepTime);
      }
    }
  }

  /** What sendto's outcome does to the counter, the statistics and the loop. */
  method Settle(p: Pacer, frame: Frame, outcome: SendTo) returns (r: Pacer)
    ensures r == p.(counter := p.counter - (if outcome.Busy? then 1 else 0), now := r.now,
                    runLoop := p.runLoop && !outcome.Broken?, stats := Charge(p.stats, outcome),
                    frames := p.frames + if outcome.Took? then [frame.(bytes := outcome.bytes)] else [])
    ensures p.now + (if outcome.Busy? then 1000 else 0) <= r.now
  {
    r := p;
    match outcome {
      case Took(bytes) =>
        r := r.(stats := AddSent(r.stats, bytes), frames := r.frames + [frame.(bytes := bytes)]);
      case Busy =>
        var now := USleep(r.now, 1000);
        r := r.(counter := r.counter - 1, now := now, stats := r.stats.(txFrames := ToUInt(r.stats.txFrames - 1)));
      case Broken =>
        r := r.(runLoop := false);
      case OtherError =>
    }
  }

  /** The statistics after an outcome: a busy attempt takes back a frame it never counted. */
  function Charge(st: TgStats, outcome: SendTo): TgStats {
    match outcome
    case Took(bytes) => AddSent(st, bytes)
    case Busy => st.(txFrames := ToUInt(st.txFrames - 1))
    case _ => st
  }

  lemma StaysOrdered(fs: seq<Frame>, counter: int, now: int, f: Frame, counter': int, now': int)
    requires Ordered(fs, counter, now) && counter <= counter' && now <= now'
    ensures Ordered(fs, counter', now')
    ensures |fs| <= counter && f.sn == counter + 1 <= counter' && now <= f.at <= now' ==>
      Ordered(fs + [f], counter', now')
  {
  }

  /** One trip through the sending loop has the effect of some readings it can have. */
  method Trip(p: Pacer, packBuf: array<Byte>, pace: Pace, adjLatency: int, outcome: SendTo)
    returns (r: Pacer, c: Readings)
    requires packBuf.Length == HDR_LEN && p.before.Loose() && p.before.Micros() - p.now <= MICROSECONDS
    requires IsInt(adjLatency) && 0 <= pace.sleepTime <= MICROSECONDS
    modifies packBuf
    ensures Possible(p, pace, outcome, c) && r == TripAt(p, pace, outcome, c)
  {
    var start, turn, before := AwaitTurn(p, pace, adjLatency);
    var stime := ReadClock(turn);
    var frame := StampHeader(packBuf, p.counter + 1, stime);
    var now := ReadClock(stime);
    r := p.(counter := p.counter + 1, before := before, now := now,
            t0 := if p.counter == 0 then start else p.t0,
            first := if p.tries == [] then start else p.first, tries := p.tries + [frame]);
    r := Settle(r, frame, outcome);
    c := Readings(start, turn, stime, r.now);
  }

  /** A trip keeps the pace, whatever its readings. */
  lemma TripKeepsPace(p: Pacer, pace: Pace, outcome: SendTo, c: Readings)
    requires OnPace(p, pace) && Possible(p, pace, outcome, c) && 0 <= pace.sleepTime <= MICROSECONDS
    ensures OnPace(TripAt(p, pace, outcome, c), pace)
  {
    var r, frame := TripAt(p, pace, outcome, c), Frame(p.counter + 1, c.stamp, 0);
    TripKeepsDeadline(p, pace, outcome, c);
    TripOrdered(p, frame, outcome, r);
    if pace.throttledRate > 0 {
      StaysPunctual(p.tries, p.first, r.first, pace, frame);
      if p.frames != [] { assert 1 <= p.frames[0].sn <= p.counter; }
      StaysPunctual(p.frames, p.t0, r.t0, pace, if outcome.Took? then frame.(bytes := outcome.bytes) else frame);
    }
  }

  lemma TripKeepsDeadline(p: Pacer, pace: Pace, outcome: SendTo, c: Readings)
    requires Deadline(p, pace) && (p.tries == [] ==> p.counter == 0)
    requires Possible(p, pace, outcome, c) && 0 <= pace.sleepTime <= MICROSECONDS
    ensures var r := TripAt(p, pace, outcome, c);
      Deadline(r, pace) && p.now <= c.stamp <= r.now && (p.counter != 0 ==> r.t0 == p.t0)
      && (p.tries != [] ==> r.first == p.first)
      && (pace.throttledRate > 0 ==> Earliest(r.t0, pace, p.counter + 1) <= c.stamp)
  {
    var t0 := if p.counter == 0 then c.start else p.t0;
    assert pace.throttledRate > 0 ==>
      t0 + Times(Quotient(p.counter, pace.throttledRate) + 1, pace.sleepTime) <= Due(p, pace, c.start).Micros();
  }

  lemma StaysPunctual(fs: seq<Frame>, t0: int, t0': int, pace: Pace, f: Frame)
    requires pace.throttledRate > 0 && NoneEarly(fs, t0, pace) && (fs == [] || t0' == t0)
    requires f.sn >= 1 && Earliest(t0', pace, f.sn) <= f.at
    ensures NoneEarly(fs, t0', pace) && NoneEarly(fs + [f], t0', pace)
  {
  }

  lemma TripOrdered(p: Pacer, frame: Frame, outcome: SendTo, r: Pacer)
    requires Ordered(p.frames, p.counter, p.now) && p.counter >= 0
    requires frame.sn == p.counter + 1 && p.now <= frame.at <= r.now
    requires r.frames == p.frames + if outcome.Took? then [frame.(bytes := outcome.bytes)] else []
    requires r.counter == p.counter + if outcome.Busy? then 0 else 1
    ensures Ordered(r.frames, r.counter, r.now)
  {
    if p.frames != [] { assert |p.frames| <= p.frames[|p.frames| - 1].sn; }
    StaysOrdered(p.frames, p.counter, p.now, if outcome.Took? then frame.(bytes := outcome.bytes) else frame,
                 r.counter, r.now);
  }

  function ChargeAll(st: TgStats, outcomes: seq<SendTo>): TgStats {
    if outcomes == [] then st else Charge(ChargeAll(st, outcomes[..|outcomes| - 1]), outcomes[|outcomes| - 1])
  }

  /** The sizes of what sendto took, in order. */
  function Taken(outcomes: seq<SendTo>): seq<nat> {
    if outcomes == [] then []
    else
      var last := outcomes[|outcomes| - 1];
      Taken(outcomes[..|outcomes| - 1]) + if last.Took? then [last.bytes] else []
  }

  function BusyCount(outcomes: seq<SendTo>): nat {
    if outcomes == [] then 0
    else BusyCount(outcomes[..|outcomes| - 1]) + if outcomes[|outcomes| - 1].Busy? then 1 else 0
  }

  // Runs.

  datatype Event = Event(outcome: SendTo, clock: Readings)

  function Begin(now: int, stats: TgStats): Pacer { Pacer(0, ToTimeVal(now), now, now, now, true, [], [], stats) }

  /** The pacer after these trips. */
  function RunOf(pace: Pace, begin: Pacer, events: seq<Event>): Pacer {
    if events == [] then begin
    else
      var last := events[|events| - 1];
      TripAt(RunOf(pace, begin, events[..|events| - 1]), pace, last.outcome, last.clock)
  }

  /** The loop can make these trips: each begins with runLoop set and has possible readings. */
  predicate Legal(pace: Pace, begin: Pacer, events: seq<Event>) {
    events == [] ||
    var front, last := events[..|events| - 1], events[|events| - 1];
    var p := RunOf(pace, begin, front);
    Legal(pace, begin, front) && p.runLoop && Possible(p, pace, last.outcome, last.clock)
  }

  lemma {:induction false} RunsAreOnPace(pace: Pace, now: int, stats: TgStats, events: seq<Event>)
    requires Legal(pace, Begin(now, stats), events) && 0 <= pace.sleepTime <= MICROSECONDS
    ensures OnPace(RunOf(pace, Begin(now, stats), events), pace)
  {
    if events != [] {
      var front, last := events[..|events| - 1], events[|events| - 1];
      RunsAreOnPace(pace, now, stats, front);
      TripKeepsPace(RunOf(pace, Begin(now, stats), front), pace, last.outcome, last.clock);
    }
  }

  function Outcomes(events: seq<Event>): seq<SendTo> {
    if events == [] then [] else Outcomes(events[..|events| - 1]) + [events[|events| - 1].outcome]
  }

  /** The run after the outcomes it has seen. */
  ghost predicate Tallied(p: Pacer, before: TgStats, outcomes: seq<SendTo>) {
    && |p.tries| == |outcomes| && p.counter == |outcomes| - BusyCount(outcomes)
    && Sizes(p.frames) == Taken(outcomes) && p.stats == ChargeAll(before, outcomes)
  }

  lemma {:induction false} RunsAreTallied(pace: Pace, now: int, stats: TgStats, events: seq<Event>)
    ensures Tallied(RunOf(pace, Begin(now, stats), events), stats, Outcomes(events))
  {
    if events != [] {
      var front, last := events[..|events| - 1], events[|events| - 1].outcome;
      RunsAreTallied(pace, now, stats, front);
      assert Outcomes(events)[..|Outcomes(front)|] == Outcomes(front);
      var p, r := RunOf(pace, Begin(now, stats), front), RunOf(pace, Begin(now, stats), events);
      assert Sizes(r.frames) == Sizes(p.frames) + if last.Took? then [last.bytes] else [];
    }
  }

  datatype Outcome = NoStream | Invalid | Complete(run: Pacer)

  lemma StopsWhenBroken(pace: Pace, now: int, stats: TgStats, events: seq<Event>)
    requires Legal(pace, Begin(now, stats), events)
    ensures RunOf(pace, Begin(now, stats), events).runLoop <==> events == [] || !events[|events| - 1].outcome.Broken?
  {
  }

  /** The sending loop: it ends when the link breaks or, the alarm clearing runLoop, after the
      last of the outcomes. */
  method LongFileLoop(pace: Pace, stats: TgStats, outcomes: seq<SendTo>, adjLatency: int, now: int)
    returns (p: Pacer, events: seq<Event>)
    requires IsInt(adjLatency) && 0 <= pace.sleepTime <= MICROSECONDS
    ensures Legal(pace, Begin(now, stats), events) && p == RunOf(pace, Begin(now, stats), events)
    ensures |events| <= |outcomes| && Outcomes(events) == outcomes[..|events|]
    ensures |events| == |outcomes| || !p.runLoop
  {
    var packBuf := new Byte[HDR_LEN](_ => 0);
    events := [];
    p := Begin(now, stats);
    while p.runLoop && |events| < |outcomes|
      invariant Legal(pace, Begin(now, stats), events) && p == RunOf(pace, Begin(now, stats), events)
      invariant |events| <= |outcomes| && Outcomes(events) == outcomes[..|events|]
      decreases |outcomes| - |events|
    {
      p, events := NextTrip(p, events, packBuf, pace, stats, outcomes[|events|], adjLatency, now);
    }
  }

  method NextTrip(p: Pacer, events: seq<Event>, packBuf: array<Byte>, pace: Pace, ghost stats: TgStats,
                  outcome: SendTo, adjLatency: int, ghost now: int)
    returns (r: Pacer, events': seq<Event>)
    requires packBuf.Length == HDR_LEN && IsInt(adjLatency) && 0 <= pace.sleepTime <= MICROSECONDS && p.runLoop
    requires Legal(pace, Begin(now, stats), events) && p == RunOf(pace, Begin(now, stats), events)
    modifies packBuf
    ensures Legal(pace, Begin(now, stats), events') && r == RunOf(pace, Begin(now, stats), events')
    ensures |events'| == |events| + 1 && Outcomes(events') == Outcomes(events) + [outcome]
  {
    RunsAreOnPace(pace, now, stats, events);
    var c;
    r, c := Trip(p, packBuf, pace, adjLatency, outcome);
    events' := events + [Event(outcome, c)];
    OneMore(pace, Begin(now, stats), events, Event(outcome, c));
  }

  lemma OneMore(pace: Pace, begin: Pacer, events: seq<Event>, e: Event)
    ensures RunOf(pace, begin, events + [e]) == TripAt(RunOf(pace, begin, events), pace, e.outcome, e.clock)
    ensures Outcomes(events + [e]) == Outcomes(events) + [e.outcome]
    ensures Legal(pace, begin, events + [e]) <==>
      var p := RunOf(pace, begin, events);
      Legal(pace, begin, events) && p.runLoop && Possible(p, pace, e.outcome, e.clock)
  {
    assert (events + [e])[..|events|] == events;
  }

  method SendLongFile(found: Option<TgStream>, outcomes: seq<SendTo>, adjLatency: int, now: int)
    returns (r: Outcome, events: seq<Event>)
    requires IsInt(adjLatency)
    ensures r.NoStream? <==> found.None?
    ensures r.Invalid? <==> found.Some? && found.value.profile.duration == 0
    ensures r.Complete? ==>
      var pace := TxSleepTime(found.value.profile.profile, found.value.profile.rate);
      && Legal(pace, Begin(now, found.value.stats), events)
      && r.run == RunOf(pace, Begin(now, found.value.stats), events)
      && OnPace(r.run, pace) && Tallied(r.run, found.value.stats, Outcomes(events))
      && |events| <= |outcomes| && Outcomes(events) == outcomes[..|events|]
      && (|events| == |outcomes| || (events != [] && events[|events| - 1].outcome.Broken?))
  {
    if found.None? { return NoStream, []; }
    var prof := found.value.profile;
    if prof.duration == 0 { return Invalid, []; }
    TxSleepTimeBounds(prof.profile, prof.rate);
    var pace := TxSleepTime(prof.profile, prof.rate);
    var run;
    run, events := LongFileLoop(pace, found.value.stats, outcomes, adjLatency, now);
    RunsAreOnPace(pace, now, found.value.stats, events);
    RunsAreTallied(pace, now, found.value.stats, events);
    StopsWhenBroken(pace, now, found.value.stats, events);
    return Complete(run), events;
  }

  lemma ToUIntStep(x: int, step: int)
    ensures ToUInt(ToUInt(x) + step) == ToUInt(x + step)
  {
    var q := x / TWO_32;
    assert x == TWO_32 * q + ToUInt(x);
    assert (ToUInt(x) + step) % TWO_32 == (TWO_32 * q + ToUInt(x) + step) % TWO_32;
  }

  lemma {:induction false} ChargedFrames(st: TgStats, outcomes: seq<SendTo>)
    requires 0 <= st.txFrames < TWO_32
    ensures ChargeAll(st, outcomes).txFrames == ToUInt(st.txFrames + |Taken(outcomes)| - BusyCount(outcomes))
    ensures |Taken(outcomes)| + BusyCount(outcomes) <= |outcomes|
  {
    if outcomes != [] {
      var front, last := outcomes[..|outcomes| - 1], outcomes[|outcomes| - 1];
      ChargedFrames(st, front);
      var step := if last.Took? then 1 else if last.Busy? then -1 else 0;
      ToUIntStep(st.txFrames + |Taken(front)| - BusyCount(front), step);
    }
  }

  lemma {:induction false} ChargedBytes(st: TgStats, outcomes: seq<SendTo>)
    ensures var r := ChargeAll(st, outcomes);
      r == st.(txFrames := r.txFrames, txPayloadBytes := st.txPayloadBytes + Sum(Taken(outcomes)))
  {
    if outcomes != [] {
      var front, last := outcomes[..|outcomes| - 1], outcomes[|outcomes| - 1];
      ChargedBytes(st, front);
      if last.Took? { assert (Taken(front) + [last.bytes])[..|Taken(front)|] == Taken(front); }
      else { assert Taken(front) + [] == Taken(front); }
    }
  }

  /** A transient error takes back a frame that was never counted: txFrames is the number of frames
      sent if and only if there was none. The bytes are counted right in any case. */
  lemma TxFramesExactIff(st: TgStats, outcomes: seq<SendTo>)
    requires st == ZERO_STATS && |outcomes| <= INT_MAX
    ensures ChargeAll(st, outcomes).txFrames == |Taken(outcomes)| <==> BusyCount(outcomes) == 0
    ensures ChargeAll(st, outcomes).txPayloadBytes == Sum(Taken(outcomes))
  {
    ChargedFrames(st, outcomes);
    ChargedBytes(st, outcomes);
  }

  /** No frame, tried or sent, leaves before its instant: sequence number c waits for
      c / throttledRate whole intervals, whatever is retried. Those sent wait from the last time the first
      deadline was set, which busy attempts can put off. */
  lemma NoFrameEarly(p: Pacer, pace: Pace)
    requires OnPace(p, pace) && pace.throttledRate > 0
    ensures p.first <= p.t0
    ensures forall j :: 0 <= j < |p.tries| ==>
      p.first + p.tries[j].sn / pace.throttledRate * pace.sleepTime <= p.tries[j].at
    ensures forall j :: 0 <= j < |p.frames| ==>
      p.t0 + p.frames[j].sn / pace.throttledRate * pace.sleepTime <= p.frames[j].at
  {
    InDivisions(p.tries, p.first, pace);
    InDivisions(p.frames, p.t0, pace);
  }

  lemma InDivisions(fs: seq<Frame>, t0: int, pace: Pace)
    requires pace.throttledRate > 0 && NoneEarly(fs, t0, pace)
    ensures forall j :: 0 <= j < |fs| ==> t0 + fs[j].sn / pace.throttledRate * pace.sleepTime <= fs[j].at
  {
    forall j | 0 <= j < |fs| ensures t0 + fs[j].sn / pace.throttledRate * pace.sleepTime <= fs[j].at {
      QuotientIsDivision(fs[j].sn, pace.throttledRate);
      TimesIsProduct(fs[j].sn / pace.throttledRate, pace.sleepTime);
    }
  }

  /** How many frames have left by time t. */
  ghost predicate SentBy(p: Pacer, t: int, m: nat) { m <= |p.frames| && (m > 0 ==> p.frames[m - 1].at <= t) }

  lemma QuotientBound(a: int, d: int, b: int)
    requires d > 0 && a * d <= b
    ensures a <= b / d
  {
    var q := b / d;
    assert b == d * q + b % d;
    if a > q { ProductNonNegative(a - q - 1, d); }
  }

  lemma QuotientMonotone(a: int, b: int, d: int)
    requires d > 0 && a <= b
    ensures a / d <= b / d
  {
    assert a == d * (a / d) + a % d;
    assert d * (a / d) == a / d * d;
    QuotientBound(a / d, d, b);
  }

  /** By time t at most throttledRate frames have left for every whole interval, and throttledRate - 1 more. */
  lemma ThrottleBound(p: Pacer, pace: Pace, t: int, m: nat)
    requires OnPace(p, pace) && pace.throttledRate > 0 && pace.sleepTime > 0
    requires m > 0 && SentBy(p, t, m)
    ensures p.t0 <= t
    ensures m <= pace.throttledRate * ((t - p.t0) / pace.sleepTime) + pace.throttledRate - 1
  {
    var f, d := p.frames[m - 1], pace.throttledRate;
    NoFrameEarly(p, pace);
    assert m <= f.sn;
    QuotientMonotone(0, f.sn, d);
    ProductNonNegative(f.sn / d, pace.sleepTime);
    QuotientBound(f.sn / d, pace.sleepTime, t - p.t0);
    var intervals := (t - p.t0) / pace.sleepTime;
    assert f.sn == d * (f.sn / d) + f.sn % d;
    ProductNonNegative(d, intervals - f.sn / d);
    assert d * (intervals - f.sn / d) == d * intervals - d * (f.sn / d);
  }

  /** The configured rate, for the profiles that honour it: from 50 frames a second on, at most
      rate * (t - t0) / 1000000 + rate / 50 - 1 frames by time t; below, one every 1000000 / rate us. */
  lemma ConfiguredRate(p: Pacer, profile: ProfileKind, rate: int, t: int, m: nat)
    requires profile in {Burst, Iptv, FileTx} && 0 < rate
    requires OnPace(p, TxSleepTime(profile, rate)) && m > 0 && SentBy(p, t, m)
    ensures rate >= 50 ==> m <= rate * (t - p.t0) / MICROSECONDS + rate / 50 - 1
    ensures rate < 50 ==> m <= (t - p.t0) / (MICROSECONDS / rate)
  {
    var pace := TxSleepTime(profile, rate);
    if rate >= 50 {
      ThrottleBound(p, pace, t, m);
      PerSecond(rate, t - p.t0);
    } else {
      QuotientBound(1, rate, MICROSECONDS);
      ThrottleBound(p, pace, t, m);
    }
  }

  lemma PerSecond(rate: int, span: int)
    requires rate >= 50 && span >= 0
    ensures rate / 50 * (span / 20_000) <= rate * span / MICROSECONDS
  {
    var a, b := rate / 50, span / 20_000;
    assert 50 * a <= rate && 20_000 * b <= span;
    ProductNonNegative(rate - 50 * a, 20_000 * b);
    ProductNonNegative(rate, span - 20_000 * b);
    assert (rate - 50 * a) * (20_000 * b) == rate * (20_000 * b) - a * b * MICROSECONDS;
    assert rate * (span - 20_000 * b) == rate * span - rate * (20_000 * b);
    QuotientBound(a * b, MICROSECONDS, rate * span);
  }

  // Which configurations keep their rate.

  /** Every run with this profile and rate has at any time sent no more frames than rate allows, but for
      one interval's worth. */
  ghost predicate KeepsRate(profile: ProfileKind, rate: int) {
    var pace := TxSleepTime(profile, rate);
    forall now: int, stats: TgStats, events: seq<Event>, t: int, m: nat ::
      Legal(pace, Begin(now, stats), events) && m > 0 && SentBy(RunOf(pace, Begin(now, stats), events), t, m) ==>
        m <= rate * (t - RunOf(pace, Begin(now, stats), events).t0) / MICROSECONDS + pace.throttledRate - 1
  }

  /** The trips of the run without any delay, from the clock's 0: every frame leaves at its instant. */
  ghost function PromptTrips(pace: Pace, n: nat): (events: seq<Event>)
    requires pace.throttledRate > 0
    ensures |events| == n
  {
    if n == 0 then []
    else
      var at := Earliest(0, pace, n);
      PromptTrips(pace, n - 1) + [Event(Took(0), Readings(Earliest(0, pace, n - 1), at, at, at))]
  }

  ghost function PromptRun(pace: Pace, n: nat): Pacer
    requires pace.throttledRate > 0
  {
    RunOf(pace, Begin(0, ZERO_STATS), PromptTrips(pace, n))
  }

  /** n frames have left, each at its instant. */
  ghost predicate Prompt(p: Pacer, pace: Pace, n: nat)
    requires pace.throttledRate > 0
  {
    && p.counter == n && p.runLoop && p.t0 == 0 && p.now == Earliest(0, pace, n) && |p.tries| == |p.frames| == n
    && (n > 0 ==> p.before.Micros() == Times(Quotient(n, pace.throttledRate) + 1, pace.sleepTime))
    && forall j :: 0 <= j < n ==> p.frames[j].at == Earliest(0, pace, j + 1)
  }

  lemma PromptTrip(p: Pacer, pace: Pace, n: nat)
    requires pace.throttledRate > 0 && 0 <= pace.sleepTime <= MICROSECONDS && Prompt(p, pace, n)
    ensures var at := Earliest(0, pace, n + 1);
      var c := Readings(Earliest(0, pace, n), at, at, at);
      Possible(p, pace, Took(0), c) && Prompt(TripAt(p, pace, Took(0), c), pace, n + 1)
  {
  }

  lemma {:induction false} PromptRunIsLegal(pace: Pace, n: nat)
    requires pace.throttledRate > 0 && 0 <= pace.sleepTime <= MICROSECONDS
    ensures Legal(pace, Begin(0, ZERO_STATS), PromptTrips(pace, n)) && Prompt(PromptRun(pace, n), pace, n)
  {
    if n > 0 {
      PromptRunIsLegal(pace, n - 1);
      PromptTrip(PromptRun(pace, n - 1), pace, n - 1);
      var at := Earliest(0, pace, n);
      OneMore(pace, Begin(0, ZERO_STATS), PromptTrips(pace, n - 1),
              Event(Took(0), Readings(Earliest(0, pace, n - 1), at, at, at)));
    }
  }

  /** The bound of ThrottleBound is met: in the run without delays all these frames have left at the end
      of the q-th interval. */
  lemma ThrottleBoundIsMet(pace: Pace, q: nat)
    requires pace.throttledRate > 0 && 0 <= pace.sleepTime <= MICROSECONDS
    ensures var m := pace.throttledRate * q + pace.throttledRate - 1;
      && m >= 0 && Legal(pace, Begin(0, ZERO_STATS), PromptTrips(pace, m))
      && PromptRun(pace, m).t0 == 0 && SentBy(PromptRun(pace, m), q * pace.sleepTime, m)
  {
    var d := pace.throttledRate;
    ProductNonNegative(d, q);
    var m := d * q + d - 1;
    PromptRunIsLegal(pace, m);
    QuotientIs(m, d, q, d - 1);
    QuotientIsDivision(m, d);
    TimesIsProduct(q, pace.sleepTime);
  }

  /** What throttledRate frames per sleepTime make of the rate. */
  predicate PaceFits(profile: ProfileKind, rate: int) {
    var pace := TxSleepTime(profile, rate);
    pace.throttledRate * MICROSECONDS <= rate * pace.sleepTime
  }

  lemma PaceFitsIff(profile: ProfileKind, rate: int)
    requires profile in {Burst, Iptv, FileTx, Mcast} && rate > 0
    ensures PaceFits(profile, rate) <==> profile != Mcast && (rate >= 50 || MICROSECONDS % rate == 0)
    ensures TxSleepTime(profile, rate).throttledRate > 0 && 0 < TxSleepTime(profile, rate).sleepTime <= MICROSECONDS
  {
    if profile != Mcast && rate < 50 {
      assert MICROSECONDS == rate * (MICROSECONDS / rate) + MICROSECONDS % rate;
      QuotientBound(1, rate, MICROSECONDS);
      QuotientMonotone(0, MICROSECONDS, rate);
      TxSleepTimeBounds(profile, rate);
    }
  }

  lemma FittingPaceKeepsRate(p: Pacer, profile: ProfileKind, rate: int, t: int, m: nat)
    requires profile in {Burst, Iptv, FileTx, Mcast} && rate > 0 && PaceFits(profile, rate)
    requires OnPace(p, TxSleepTime(profile, rate)) && m > 0 && SentBy(p, t, m)
    ensures m <= rate * (t - p.t0) / MICROSECONDS + TxSleepTime(profile, rate).throttledRate - 1
  {
    var pace := TxSleepTime(profile, rate);
    PaceFitsIff(profile, rate);
    ThrottleBound(p, pace, t, m);
    WholeIntervals(pace.throttledRate, pace.sleepTime, rate, t - p.t0);
  }

  lemma WholeIntervals(d: int, sleep: int, rate: int, span: int)
    requires d > 0 && sleep > 0 && rate > 0 && span >= 0 && d * MICROSECONDS <= rate * sleep
    ensures d * (span / sleep) <= rate * span / MICROSECONDS
  {
    var q := span / sleep;
    assert span == sleep * q + span % sleep;
    QuotientMonotone(0, span, sleep);
    ProductNonNegative(rate * sleep - d * MICROSECONDS, q);
    ProductNonNegative(rate, span - sleep * q);
    assert (rate * sleep - d * MICROSECONDS) * q == rate * (sleep * q) - d * q * MICROSECONDS;
    assert rate * (span - sleep * q) == rate * span - rate * (sleep * q);
    QuotientBound(d * q, MICROSECONDS, rate * span);
  }

  /** A pace that does not fit lets a run exceed its rate by any number of frames. */
  lemma ExcessGrows(profile: ProfileKind, rate: int, extra: nat) returns (events: seq<Event>, t: int, m: nat)
    requires profile in {Burst, Iptv, FileTx, Mcast} && rate > 0 && !PaceFits(profile, rate)
    ensures Legal(TxSleepTime(profile, rate), Begin(0, ZERO_STATS), events)
    ensures var p := RunOf(TxSleepTime(profile, rate), Begin(0, ZERO_STATS), events);
      m > 0 && SentBy(p, t, m) && m > rate * (t - p.t0) / MICROSECONDS + extra
  {
    var pace := TxSleepTime(profile, rate);
    PaceFitsIff(profile, rate);
    var d, q := pace.throttledRate, MICROSECONDS * (extra + 1);
    ThrottleBoundIsMet(pace, q);
    m, t := d * q + d - 1, q * pace.sleepTime;
    events := PromptTrips(pace, m);
    MissedFrames(d, pace.sleepTime, rate, extra);
  }

  lemma MissedFrames(d: int, sleep: int, rate: int, extra: nat)
    requires d > 0 && sleep > 0 && rate > 0 && rate * sleep < d * MICROSECONDS
    ensures var q := MICROSECONDS * (extra + 1);
      d * q > 0 && rate * (q * sleep) / MICROSECONDS + extra < d * q
  {
    var q := MICROSECONDS * (extra + 1);
    assert rate * (q * sleep) == MICROSECONDS * (rate * sleep * (extra + 1));
    QuotientIs(rate * (q * sleep), MICROSECONDS, rate * sleep * (extra + 1), 0);
    ProductNonNegative(d * MICROSECONDS - rate * sleep - 1, extra + 1);
    assert (d * MICROSECONDS - rate * sleep - 1) * (extra + 1)
        == d * q - rate * sleep * (extra + 1) - (extra + 1);
    ProductNonNegative(rate * sleep, extra + 1);
  }

  lemma FittingRunsKeepRate(profile: ProfileKind, rate: int)
    requires profile in {Burst, Iptv, FileTx, Mcast} && rate > 0 && PaceFits(profile, rate)
    ensures KeepsRate(profile, rate)
  {
    var pace := TxSleepTime(profile, rate);
    forall now: int, stats: TgStats, events: seq<Event>, t: int, m: nat |
      Legal(pace, Begin(now, stats), events) && m > 0 && SentBy(RunOf(pace, Begin(now, stats), events), t, m)
      ensures m <= rate * (t - RunOf(pace, Begin(now, stats), events).t0) / MICROSECONDS + pace.throttledRate - 1
    {
      PaceFitsIff(profile, rate);
      RunsAreOnPace(pace, now, stats, events);
      FittingPaceKeepsRate(RunOf(pace, Begin(now, stats), events), profile, rate, t, m);
    }
  }

  lemma OtherRunsDoNot(profile: ProfileKind, rate: int)
    requires profile in {Burst, Iptv, FileTx, Mcast} && rate > 0 && !PaceFits(profile, rate)
    ensures !KeepsRate(profile, rate)
  {
    PaceFitsIff(profile, rate);
    var pace := TxSleepTime(profile, rate);
    var events, t, m := ExcessGrows(profile, rate, pace.throttledRate - 1);
    assert Legal(pace, Begin(0, ZERO_STATS), events) && SentBy(RunOf(pace, Begin(0, ZERO_STATS), events), t, m);
  }

  /** Exactly which configurations keep their rate in every run: the three unicast profiles from rate 50
      on, and below 50 only if the rate divides a million (sleepTime is rounded down); multicast never
      does, having a period of 100 ms and not 1 s. */
  lemma KeepsRateIff(profile: ProfileKind, rate: int)
    requires profile in {Burst, Iptv, FileTx, Mcast} && rate > 0
    ensures KeepsRate(profile, rate) <==> profile != Mcast && (rate >= 50 || MICROSECONDS % rate == 0)
  {
    PaceFitsIff(profile, rate);
    if PaceFits(profile, rate) { FittingRunsKeepRate(profile, rate); } else { OtherRunsDoNot(profile, rate); }
  }

  /** A multicast stream configured for 100 frames a second can send 549 in its first second. */
  lemma MulticastExceedsRate()
    ensures var pace := TxSleepTime(Mcast, 100);
      && Legal(pace, Begin(0, ZERO_STATS), PromptTrips(pace, 549))
      && PromptRun(pace, 549).t0 == 0 && SentBy(PromptRun(pace, 549), MICROSECONDS, 549)
  {
    ThrottleBoundIsMet(TxSleepTime(Mcast, 100), 10);
  }

  // What every configuration lets out, in frames a second.

  /** The configurations that are throttled at all. */
  predicate Throttles(profile: ProfileKind, rate: int) {
    (profile == Mcast && rate != 0) || (profile in {Burst, Iptv, FileTx} && rate >= 0)
  }

  function FramesPerSecond(profile: ProfileKind, rate: int): nat
    requires Throttles(profile, rate)
  {
    if profile == Mcast then (if 50 <= rate < 500 then 500 else 10 * if rate < 0 then -rate else rate)
    else if rate == 0 then 20_000
    else if rate < 50 then rate
    else 50 * (rate / 50)
  }

  /** A negative multicast rate throttles like its absolute value. */
  function Unsigned(pace: Pace): Pace {
    if pace.throttledRate < 0 then pace.(throttledRate := -pace.throttledRate) else pace
  }

  lemma SignOfDivisor(x: int, d: int)
    requires d > 0
    ensures x % -d == x % d
  {
    var q, r := x / -d, x % -d;
    assert x == d * -q + r;
    QuotientIs(x, d, -q, r);
  }

  lemma {:induction false} SameRuns(pace: Pace, begin: Pacer, events: seq<Event>)
    ensures RunOf(pace, begin, events) == RunOf(Unsigned(pace), begin, events)
    ensures Legal(pace, begin, events) == Legal(Unsigned(pace), begin, events)
  {
    if events != [] {
      var front := events[..|events| - 1];
      SameRuns(pace, begin, front);
      if pace.throttledRate < 0 { SignOfDivisor(RunOf(pace, begin, front).counter + 1, -pace.throttledRate); }
    }
  }

  lemma SlowInterval(rate: int, s: nat)
    requires 0 < rate < 50
    ensures 0 < MICROSECONDS / rate && rate * s * (MICROSECONDS / rate) <= s * MICROSECONDS
  {
    var sleep := MICROSECONDS / rate;
    QuotientBound(1, rate, MICROSECONDS);
    assert MICROSECONDS == rate * sleep + MICROSECONDS % rate;
    ProductNonNegative(s, MICROSECONDS - rate * sleep);
    assert rate * s * sleep == s * (rate * sleep);
  }

  /** Every throttled configuration reaches its rate: for every whole number of seconds some run has sent at
      least that many seconds' frames by then. */
  lemma RateIsReached(profile: ProfileKind, rate: int, s: nat) returns (events: seq<Event>, m: nat)
    requires Throttles(profile, rate)
    ensures Legal(TxSleepTime(profile, rate), Begin(0, ZERO_STATS), events)
    ensures var p := RunOf(TxSleepTime(profile, rate), Begin(0, ZERO_STATS), events);
      p.t0 == 0 && SentBy(p, s * MICROSECONDS, m) && m >= FramesPerSecond(profile, rate) * s
  {
    var pace := Unsigned(TxSleepTime(profile, rate));
    TxSleepTimeBounds(profile, rate);
    var d := pace.throttledRate;
    var q := if profile == Mcast then 10 * s else if 0 < rate < 50 then rate * s else 50 * s;
    if profile != Mcast && 0 < rate < 50 { SlowInterval(rate, s); }
    ProductNonNegative(rate, s);
    IntervalsOf(profile, rate, s, q);
    ThrottleBoundIsMet(pace, q);
    m := d * q + d - 1;
    events := PromptTrips(pace, m);
    SameRuns(TxSleepTime(profile, rate), Begin(0, ZERO_STATS), events);
  }

  lemma IntervalsOf(profile: ProfileKind, rate: int, s: nat, q: nat)
    requires Throttles(profile, rate)
    requires q == if profile == Mcast then 10 * s else if 0 < rate < 50 then rate * s else 50 * s
    ensures var pace := Unsigned(TxSleepTime(profile, rate));
      && pace.throttledRate > 0 && q * pace.sleepTime <= s * MICROSECONDS
      && FramesPerSecond(profile, rate) * s <= pace.throttledRate * q
  {
    var d := Unsigned(TxSleepTime(profile, rate)).throttledRate;
    if profile == Mcast {
      assert 10 * d * s == d * (10 * s);
    } else if 0 < rate < 50 {
      SlowInterval(rate, s);
    } else {
      assert 50 * d * s == d * (50 * s);
    }
  }

  lemma PartsOfASecond(profile: ProfileKind, rate: int, parts: int)
    requires Throttles(profile, rate) && (profile == Mcast || !(0 < rate < 50))
    requires parts == if profile == Mcast then 10 else 50
    ensures var pace := Unsigned(TxSleepTime(profile, rate));
      && pace.throttledRate > 0 && 0 < pace.sleepTime <= MICROSECONDS && parts * pace.sleepTime == MICROSECONDS
      && FramesPerSecond(profile, rate) == parts * pace.throttledRate
  {
  }

  lemma BoundInSeconds(d: int, sleep: int, parts: int, s: nat, perSecond: int, m: int)
    requires d > 0 && sleep > 0 && parts > 0 && parts * sleep == MICROSECONDS && perSecond == parts * d
    requires m <= d * (s * MICROSECONDS / sleep) + d - 1
    ensures m <= perSecond * s + perSecond / parts - 1
  {
    assert s * MICROSECONDS == sleep * (parts * s);
    ProductNonNegative(parts, s);
    QuotientIs(s * MICROSECONDS, sleep, parts * s, 0);
    QuotientIs(perSecond, parts, d, 0);
    assert d * (parts * s) == perSecond * s;
  }

  /** And no run sends more, but for one interval's frames less one: 20 ms' worth for unicast, 100 ms'
      worth for multicast. */
  lemma RateIsBound(profile: ProfileKind, rate: int, now: int, stats: TgStats, events: seq<Event>, s: nat, m: nat)
    requires Throttles(profile, rate) && (profile == Mcast || !(0 < rate < 50))
    requires Legal(TxSleepTime(profile, rate), Begin(now, stats), events)
    requires var p := RunOf(TxSleepTime(profile, rate), Begin(now, stats), events);
      m > 0 && SentBy(p, p.t0 + s * MICROSECONDS, m)
    ensures var perSecond := FramesPerSecond(profile, rate);
      m <= perSecond * s + perSecond / (if profile == Mcast then 10 else 50) - 1
  {
    var pace := Unsigned(TxSleepTime(profile, rate));
    var parts := if profile == Mcast then 10 else 50;
    PartsOfASecond(profile, rate, parts);
    SameRuns(TxSleepTime(profile, rate), Begin(now, stats), events);
    var p := RunOf(pace, Begin(now, stats), events);
    RunsAreOnPace(pace, now, stats, events);
    ThrottleBound(p, pace, p.t0 + s * MICROSECONDS, m);
    BoundInSeconds(pace.throttledRate, pace.sleepTime, parts, s, FramesPerSecond(profile, rate), m);
  }

  /** Every other configuration is not throttled: some run sends any number of frames in no time. */
  lemma Unthrottled(profile: ProfileKind, rate: int, n: nat) returns (events: seq<Event>)
    requires !Throttles(profile, rate)
    ensures Legal(TxSleepTime(profile, rate), Begin(0, ZERO_STATS), events)
    ensures var p := RunOf(TxSleepTime(profile, rate), Begin(0, ZERO_STATS), events);
      p.t0 == 0 && |p.frames| == n && SentBy(p, 0, n)
  {
    events := AtOnce(TxSleepTime(profile, rate), n);
  }

  lemma {:induction false} AtOnce(pace: Pace, n: nat) returns (events: seq<Event>)
    requires pace.throttledRate == 0
    ensures Legal(pace, Begin(0, ZERO_STATS), events)
    ensures var p := RunOf(pace, Begin(0, ZERO_STATS), events);
      p.t0 == p.now == 0 && p.counter == |p.frames| == n && p.runLoop && SentBy(p, 0, n)
  {
    events := [];
    if n > 0 {
      events := AtOnce(pace, n - 1);
      var e := Event(Took(0), Readings(0, 0, 0, 0));
      OneMore(pace, Begin(0, ZERO_STATS), events, e);
      events := events + [e];
    }
  }
}
