/** wfaSendBurstData (lib/wfa_tg.c): bursts of frames, paced by a time debt. */
module BurstSender {
  import opened CInt
  import opened Miscs
  import opened Options
  import opened Traffic
  import opened TimeDebt
  import opened PacedRun

  /** The period in microseconds. */
  function Period(prof: TgProfile): int { prof.burstperiodicity * 1000 }

  /** The parameters the sender refuses. */
  predicate Refused(sockfd: int, streamId: int, found: Option<TgStream>) {
    || sockfd < 0 || streamId < 0 || found.None?
    || found.value.profile.burstperiodicity == 0 || found.value.profile.duration == 0
    || Bitrate(found.value.profile) > WFA_SEND_FIX_BITRATE_MAX
  }

  function Bitrate(prof: TgProfile): int
    requires prof.burstperiodicity != 0
  {
    prof.pksize * prof.burstfrags * CDiv(1000, prof.burstperiodicity) * 8
  }

  /** After n periods the run is never ahead of its schedule, and at most 1 ms a period behind it
      beyond its debt and the lateness of its sleeps. */
  ghost predicate Paced(prof: TgProfile, ds: seq<int>, spans: seq<int>, debt: int, elapsed: int, late: nat -> nat) {
    var n := |ds|;
    && Measured(ds, spans)
    && debt == Debt(ds, Period(prof))
    && Times(n, Period(prof)) + debt <= elapsed
    && (AllFitInt(spans) ==> elapsed <= Times(n, Period(prof)) + debt + 1000 * n + Lateness(late, n))
  }

  /** A frame of burst k leaves when the k periods before it and their debt are over, and before its burst ends. */
  ghost predicate InBurst(k: nat, at: int, prof: TgProfile, ds: seq<int>, spans: seq<int>, late: nat -> nat, t0: int)
    requires |ds| == |spans|
  {
    k <= |ds| &&
    var due := t0 + Times(k, Period(prof)) + Debt(ds[..k], Period(prof));
    && due <= at
    && (k < |ds| && AllFitInt(spans) ==> at <= due + 1000 * k + Lateness(late, k) + spans[k])
  }

  /** Frame j, from 0, is one of burst j / burstfrags. */
  ghost predicate Timely(ats: seq<int>, prof: TgProfile, ds: seq<int>, spans: seq<int>, late: nat -> nat, t0: int)
    requires |ds| == |spans|
  {
    prof.burstfrags > 0 ==>
      forall j :: 0 <= j < |ats| ==> InBurst(Quotient(j, prof.burstfrags), ats[j], prof, ds, spans, late, t0)
  }

  /** The burst ended with time to spare: the pass comes to its last statement, the over-send guard. */
  predicate OnTime(prof: TgProfile, debt: int, d: int) {
    0 <= d < Period(prof) && debt + d <= Period(prof)
  }

  /** How many bursts ended with time to spare, but after the configured duration. */
  function Overs(prof: TgProfile, ds: seq<int>): nat {
    if ds == [] then 0
    else
      var front := ds[..|ds| - 1];
      Overs(prof, front) + if OnTime(prof, Debt(front, Period(prof)), ds[|front|]) && PastEnd(prof, |ds|) then 1 else 0
  }

  predicate PastEnd(prof: TgProfile, n: nat) { prof.duration * 1000 < Times(n, prof.burstperiodicity) }

  /** The guard ends the run at the 1001st of those, and no other run has so many. */
  predicate Guarded(run: Run, prof: TgProfile) {
    var ds := run.durations;
    if run.ending.OverSend? then ds != [] && Overs(prof, ds) == 1001 && Overs(prof, ds[..|ds| - 1]) == 1000
    else Overs(prof, ds) <= 1000
  }

  /** How many frames have left after n bursts. */
  ghost predicate Quota(run: Run, prof: TgProfile, attempts: seq<Attempt>)
    requires run.used <= |attempts|
  {
    var n, frags := |run.durations|, Max(0, prof.burstfrags);
    if run.ending.Observed?
    then run.used == |attempts| && Times(n, frags) <= |run.frames| < Times(n + 1, frags)
    else |run.frames| == Times(n, frags) && Sum(run.spans) == TimeSpent(attempts[..run.used])
  }

  /** What every run of the sender satisfies, whatever attempts fail and however late the sleeps are. */
  ghost predicate Conforms(run: Run, stream: TgStream, attempts: seq<Attempt>, late: nat -> nat, t0: int) {
    Consistent(run, stream, attempts, late, t0) && Guarded(run, stream.profile)
  }

  ghost predicate Consistent(run: Run, stream: TgStream, attempts: seq<Attempt>, late: nat -> nat, t0: int) {
    && run.used <= |attempts|
    && run.stream == stream.(stats := run.stream.stats)
    && Accounted(run.frames, 1, attempts[..run.used], stream.stats, run.stream.stats)
    && Paced(stream.profile, run.durations, run.spans, run.debt, run.pace - t0, late)
    && Quota(run, stream.profile, attempts)
    && run.naps == 0 && t0 <= run.pace && Ascending(Instants(run.frames), t0, Clock(run, attempts))
    && Timely(Instants(run.frames), stream.profile, run.durations, run.spans, late, t0)
  }

  /** One burst: sends until burstfrags frames have left, retrying each failure after 1 ms. */
  method SendBurst(prof: TgProfile, packBuf: array<Byte>, attempts: seq<Attempt>, start: nat,
                   counter0: int, t0: int, stats0: TgStats)
    returns (sent: seq<Frame>, pos: nat, now: int, stats: TgStats, done: bool)
    requires start <= |attempts| && packBuf.Length == HDR_LEN
    modifies packBuf
    ensures start <= pos <= |attempts|
    ensures Accounted(sent, counter0 + 1, attempts[start..pos], stats0, stats)
    ensures Instants(sent) == Stamps(None, t0, attempts[start..pos])
    ensures now == t0 + TimeSpent(attempts[start..pos])
    ensures done ==> |sent| == Max(0, prof.burstfrags)
    ensures !done ==> pos == |attempts| && |sent| < prof.burstfrags
  {
    sent, pos, now, stats := [], start, t0, stats0;
    var counter, i := counter0, 0;
    while i < prof.burstfrags && pos < |attempts|
      invariant start <= pos <= |attempts| && 0 <= i == |sent| <= Max(0, prof.burstfrags)
      invariant counter == counter0 + i
      invariant Accounted(sent, counter0 + 1, attempts[start..pos], stats0, stats)
      invariant Instants(sent) == Stamps(None, t0, attempts[start..pos])
      invariant now == t0 + TimeSpent(attempts[start..pos])
      decreases |attempts| - pos
    {
      counter := counter + 1;
      SliceOne(attempts, start, pos);
      StampedOne(None, t0, sent, attempts[start..pos], attempts[pos], now, counter);
      var ok;
      sent, now, stats, ok := TrySend(packBuf, counter, sent, attempts, start, pos, now, stats0, stats);
      if !ok {
        counter := counter - 1;
        i := i - 1;
      }
      pos := pos + 1;
      i := i + 1;
    }
    done := i >= prof.burstfrags;
  }

  /** The debt moves as it should, and burst plus sleep take the period plus the change of the
      debt, or at most 1 ms more. */
  ghost predicate Settled(prof: TgProfile, measured: int, debt0: nat, debt: nat, sleep: nat) {
    && debt == NextDebt(debt0, measured, Period(prof))
    && (if measured < 0 then sleep == 1
        else 0 <= measured + sleep * 1000 - (Period(prof) + debt - debt0) <= 1000)
  }

  /** The end of a period: settles the debt and decides how long to sleep (in milliseconds).
      onTime is false where the code goes straight back to sending (its two continue branches). */
  method EndOfBurst(prof: TgProfile, measured: int, debt0: nat)
    returns (debt: nat, sleep: nat, onTime: bool)
    requires IsInt(measured) && IsInt(Period(prof))
    ensures Settled(prof, measured, debt0, debt, sleep)
    ensures onTime <==> OnTime(prof, debt0, measured)
    ensures sleep == if onTime then Max(0, prof.burstperiodicity - (measured + debt0) / 1000) else 1
  {
    var difftime := measured;
    debt, sleep, onTime := debt0, 0, false;
    if difftime < 0 || difftime >= prof.burstperiodicity * 1000 {
      if difftime > prof.burstperiodicity * 1000 {
        debt := debt + (difftime - prof.burstperiodicity * 1000);
      }
      sleep := 1;
      return;
    }
    if debt > 0 {
      if debt > prof.burstperiodicity * 1000 - difftime {
        debt := debt - (prof.burstperiodicity * 1000 - difftime);
        sleep := 1;
        return;
      } else {
        difftime := difftime + debt;
        debt := 0;
      }
    }
    difftime := difftime / 1000;
    if prof.burstperiodicity - difftime > 0 {
      sleep := prof.burstperiodicity - difftime;
    }
    onTime := true;
  }

  /** One more period keeps the schedule. */
  lemma PacedStep(prof: TgProfile, ds: seq<int>, spans: seq<int>, debt0: nat, elapsed: int, late: nat -> nat,
                  measured: int, span: int, debt: nat, sleep: nat,
                  ds': seq<int>, spans': seq<int>, elapsed': int)
    requires IsInt(Period(prof)) && IsInt(measured)
    requires Paced(prof, ds, spans, debt0, elapsed, late)
    requires measured <= span && (measured < 0 ==> INT_MAX < span) && (span <= INT_MAX ==> measured == span)
    requires Settled(prof, measured, debt0, debt, sleep)
    requires ds' == ds + [measured] && spans' == spans + [span]
    requires elapsed' == elapsed + span + sleep * 1000 + late(|ds|)
    ensures Paced(prof, ds', spans', debt, elapsed', late)
    ensures Sum(spans') == Sum(spans) + span
  {
    var n := |ds|;
    assert ds'[..n] == ds && spans'[..n] == spans;
    assert spans'[n] == span;
    if AllFitInt(spans') {
      forall k | 0 <= k < n ensures spans[k] <= INT_MAX { assert spans'[k] == spans[k]; }
    }
  }

  /** Frames sent from the end of the last period on are those of the next burst. */
  lemma BurstTimely(ats: seq<int>, more: seq<int>, prof: TgProfile, ds: seq<int>, spans: seq<int>, debt: int,
                    pace: int, late: nat -> nat, t0: int)
    requires Paced(prof, ds, spans, debt, pace - t0, late) && Timely(ats, prof, ds, spans, late, t0)
    requires |ats| == Times(|ds|, Max(0, prof.burstfrags)) && |more| <= Max(0, prof.burstfrags)
    requires forall i :: 0 <= i < |more| ==> pace <= more[i]
    ensures Timely(ats + more, prof, ds, spans, late, t0)
  {
    assert ds[..|ds|] == ds;
    forall j | prof.burstfrags > 0 && |ats| <= j < |ats + more|
      ensures InBurst(Quotient(j, prof.burstfrags), (ats + more)[j], prof, ds, spans, late, t0)
    {
      QuotientInside(j, prof.burstfrags, |ds|);
    }
  }

  lemma StaysInBurst(k: nat, at: int, prof: TgProfile, ds: seq<int>, spans: seq<int>, debt: int, pace: int,
                     late: nat -> nat, t0: int, d: int, span: int)
    requires Paced(prof, ds, spans, debt, pace - t0, late) && InBurst(k, at, prof, ds, spans, late, t0)
    requires at <= pace + span
    ensures InBurst(k, at, prof, ds + [d], spans + [span], late, t0)
  {
    assert (ds + [d])[..k] == ds[..k] && ds[..|ds|] == ds;
    if AllFitInt(spans + [span]) {
      forall i | 0 <= i < |spans| ensures spans[i] <= INT_MAX { assert (spans + [span])[i] == spans[i]; }
    }
  }

  /** When a burst ends no frame has left after it. */
  lemma StaysTimely(ats: seq<int>, prof: TgProfile, ds: seq<int>, spans: seq<int>, debt: int, pace: int,
                    late: nat -> nat, t0: int, d: int, span: int)
    requires Paced(prof, ds, spans, debt, pace - t0, late) && Timely(ats, prof, ds, spans, late, t0)
    requires forall j :: 0 <= j < |ats| ==> ats[j] <= pace + span
    ensures Timely(ats, prof, ds + [d], spans + [span], late, t0)
  {
    forall j | prof.burstfrags > 0 && 0 <= j < |ats|
      ensures InBurst(Quotient(j, prof.burstfrags), ats[j], prof, ds + [d], spans + [span], late, t0)
    {
      StaysInBurst(Quotient(j, prof.burstfrags), ats[j], prof, ds, spans, debt, pace, late, t0, d, span);
    }
  }

  /** run' is run with the frames of a burst behind, all of it or not, at the time later. */
  ghost predicate BurstSent(run: Run, run': Run, later: int, stream: TgStream, attempts: seq<Attempt>,
                            late: nat -> nat, t0: int)
    requires |run.durations| == |run.spans|
  {
    && run.used <= run'.used <= |attempts|
    && run' == run.(frames := run'.frames, used := run'.used, stream := stream.(stats := run'.stream.stats))
    && Accounted(run'.frames, 1, attempts[..run'.used], stream.stats, run'.stream.stats)
    && later == run.pace + TimeSpent(attempts[..run'.used]) - TimeSpent(attempts[..run.used]) && run.pace <= later
    && |run.frames| <= |run'.frames| <= |run.frames| + Max(0, stream.profile.burstfrags)
    && Ascending(Instants(run'.frames), t0, later)
    && Timely(Instants(run'.frames), stream.profile, run.durations, run.spans, late, t0)
  }

  /** The frames of a burst follow those of the run before. */
  lemma BurstAdded(run: Run, run': Run, sent: seq<Frame>, later: int, stream: TgStream, attempts: seq<Attempt>,
                   late: nat -> nat, t0: int)
    requires Consistent(run, stream, attempts, late, t0) && run.ending.Stopped? && run.used <= run'.used <= |attempts|
    requires Accounted(sent, |run.frames| + 1, attempts[run.used..run'.used], run.stream.stats, run'.stream.stats)
    requires run' == run.(frames := run.frames + sent, used := run'.used,
                          stream := stream.(stats := run'.stream.stats))
    requires Instants(sent) == Stamps(None, run.pace, attempts[run.used..run'.used])
    requires later == run.pace + TimeSpent(attempts[run.used..run'.used])
    requires |sent| <= Max(0, stream.profile.burstfrags)
    ensures BurstSent(run, run', later, stream, attempts, late, t0)
  {
    AccountedJoin(run.frames, 1, sent, attempts, run.used, run'.used,
                  stream.stats, run.stream.stats, run'.stream.stats);
    StampsAscend(None, run.pace, attempts[run.used..run'.used]);
    AscendingJoin(run.frames, sent, t0, run.pace, later);
    BurstTimely(Instants(run.frames), Instants(sent), stream.profile, run.durations, run.spans, run.debt, run.pace,
                late, t0);
  }

  /** A burst that the end of the attempts cuts short. */
  lemma CutShort(run: Run, run': Run, later: int, stream: TgStream, attempts: seq<Attempt>, late: nat -> nat, t0: int)
    requires Consistent(run, stream, attempts, late, t0) && run.ending.Stopped?
    requires BurstSent(run, run', later, stream, attempts, late, t0) && run'.used == |attempts|
    requires |run'.frames| < |run.frames| + Max(0, stream.profile.burstfrags)
    ensures Consistent(run'.(ending := Observed), stream, attempts, late, t0)
  {
  }

  /** A burst that filled its quota and its closing sleep keep the run consistent. */
  lemma PeriodConsistent(run: Run, sent: Run, run': Run, later: int, stream: TgStream, attempts: seq<Attempt>,
                         late: nat -> nat, t0: int)
    requires Consistent(run, stream, attempts, late, t0) && run.ending.Stopped?
    requires BurstSent(run, sent, later, stream, attempts, late, t0) && later <= run'.pace
    requires |sent.frames| == |run.frames| + Max(0, stream.profile.burstfrags)
    requires run' == sent.(durations := run'.durations, spans := run'.spans, debt := run'.debt, pace := run'.pace)
    requires Paced(stream.profile, run'.durations, run'.spans, run'.debt, run'.pace - t0, late)
    requires Sum(run'.spans) == Sum(run.spans) + later - run.pace && |run'.spans| == |run.spans| + 1
    requires Timely(Instants(run'.frames), stream.profile, run'.durations, run'.spans, late, t0)
    ensures Consistent(run', stream, attempts, late, t0)
  {
  }

  /** The second half of a pass: measures the burst that ended at `later`, settles the debt, sleeps. */
  method ClosePeriod(run: Run, prof: TgProfile, later: int, late: nat -> nat, ghost t0: int)
    returns (run': Run, measured: int, onTime: bool)
    requires IsInt(Period(prof)) && run.pace <= later
    requires Paced(prof, run.durations, run.spans, run.debt, run.pace - t0, late)
    requires Ascending(Instants(run.frames), t0, later)
    requires Timely(Instants(run.frames), prof, run.durations, run.spans, late, t0)
    ensures run' == run.(durations := run.durations + [measured], spans := run.spans + [later - run.pace],
                         debt := run'.debt, pace := run'.pace)
    ensures Paced(prof, run'.durations, run'.spans, run'.debt, run'.pace - t0, late)
    ensures Sum(run'.spans) == Sum(run.spans) + later - run.pace
    ensures onTime <==> OnTime(prof, run.debt, measured)
    ensures later <= run'.pace && Timely(Instants(run.frames), prof, run'.durations, run'.spans, late, t0)
  {
    measured := Elapsed(run.pace, later);
    var debt, sleep;
    debt, sleep, onTime := EndOfBurst(prof, measured, run.debt);
    PeriodClosed(run, prof, later - run.pace, late, t0, measured, debt, sleep);
    var ds, spans := run.durations + [measured], run.spans + [later - run.pace];
    run' := run.(durations := ds, spans := spans, debt := debt, pace := later + sleep * 1000 + late(|run.durations|));
  }

  lemma PeriodClosed(run: Run, prof: TgProfile, span: nat, late: nat -> nat, t0: int,
                     measured: int, debt: nat, sleep: nat)
    requires IsInt(Period(prof)) && Paced(prof, run.durations, run.spans, run.debt, run.pace - t0, late)
    requires Ascending(Instants(run.frames), t0, run.pace + span)
    requires Timely(Instants(run.frames), prof, run.durations, run.spans, late, t0)
    requires IsInt(measured) && measured <= span && Settled(prof, measured, run.debt, debt, sleep)
    requires (measured < 0 ==> INT_MAX < span) && (span <= INT_MAX ==> measured == span)
    ensures var ds, spans := run.durations + [measured], run.spans + [span];
      && Paced(prof, ds, spans, debt, run.pace + span + sleep * 1000 + late(|run.durations|) - t0, late)
      && Sum(spans) == Sum(run.spans) + span && Timely(Instants(run.frames), prof, ds, spans, late, t0)
  {
    PacedStep(prof, run.durations, run.spans, run.debt, run.pace - t0, late, measured, span, debt, sleep,
              run.durations + [measured], run.spans + [span],
              run.pace + span + sleep * 1000 + late(|run.durations|) - t0);
    StaysTimely(Instants(run.frames), prof, run.durations, run.spans, run.debt, run.pace, late, t0, measured, span);
  }

  /** The first half of a pass: the burst. */
  method SendPart(run: Run, stream: TgStream, packBuf: array<Byte>, attempts: seq<Attempt>,
                  counter0: int, ghost late: nat -> nat, ghost t0: int)
    returns (run': Run, counter: int, later: int, done: bool)
    requires packBuf.Length == HDR_LEN
    requires Consistent(run, stream, attempts, late, t0) && run.ending.Stopped? && counter0 == |run.frames|
    modifies packBuf
    ensures BurstSent(run, run', later, stream, attempts, late, t0) && counter == |run'.frames|
    ensures done ==> |run'.frames| == |run.frames| + Max(0, stream.profile.burstfrags)
    ensures !done ==> run'.used == |attempts| && |run'.frames| < |run.frames| + Max(0, stream.profile.burstfrags)
  {
    var sent, pos, stats;
    sent, pos, later, stats, done :=
      SendBurst(stream.profile, packBuf, attempts, run.used, counter0, run.pace, run.stream.stats);
    run' := run.(frames := run.frames + sent, used := pos, stream := stream.(stats := stats));
    counter := counter0 + |sent|;
    BurstAdded(run, run', sent, later, stream, attempts, late, t0);
  }

  /** One pass through the sending loop: a burst, its measured time and its closing sleep. */
  method BurstPeriod(run: Run, stream: TgStream, packBuf: array<Byte>, attempts: seq<Attempt>,
                     counter0: int, late: nat -> nat, ghost t0: int)
    returns (run': Run, counter: int, ghost measured: int, onTime: bool)
    requires IsInt(Period(stream.profile)) && packBuf.Length == HDR_LEN
    requires Consistent(run, stream, attempts, late, t0) && run.ending.Stopped? && counter0 == |run.frames|
    modifies packBuf
    ensures Consistent(run', stream, attempts, late, t0) && !run'.ending.OverSend? && counter == |run'.frames|
    ensures run'.ending.Observed? ==> run'.durations == run.durations
    ensures run'.ending.Stopped? ==>
      run'.durations == run.durations + [measured] && (onTime <==> OnTime(stream.profile, run.debt, measured))
  {
    var later, done;
    run', counter, later, done := SendPart(run, stream, packBuf, attempts, counter0, late, t0);
    if !done {
      CutShort(run, run', later, stream, attempts, late, t0);
      run', measured, onTime := run'.(ending := Observed), 0, false;
    } else {
      ghost var sent := run';
      run', measured, onTime := ClosePeriod(run', stream.profile, later, late, t0);
      PeriodConsistent(run, sent, run', later, stream, attempts, late, t0);
    }
  }

  lemma OversOne(run: Run, measured: int, stream: TgStream, attempts: seq<Attempt>, late: nat -> nat, t0: int)
    requires Consistent(run, stream, attempts, late, t0)
    ensures Overs(stream.profile, run.durations + [measured]) == Overs(stream.profile, run.durations)
      + if OnTime(stream.profile, run.debt, measured) && PastEnd(stream.profile, |run.durations| + 1) then 1 else 0
    ensures (run.durations + [measured])[..|run.durations|] == run.durations
  {
    assert (run.durations + [measured])[..|run.durations|] == run.durations;
  }

  lemma BreaksOut(run: Run, stream: TgStream, attempts: seq<Attempt>, late: nat -> nat, t0: int)
    requires Consistent(run, stream, attempts, late, t0) && run.ending.Stopped?
    ensures Consistent(run.(ending := OverSend), stream, attempts, late, t0)
  {
  }

  lemma StartsConsistent(run: Run, stream: TgStream, attempts: seq<Attempt>, late: nat -> nat, t0: int)
    requires run == Run(stream, [], [], [], 0, t0, 0, 0, Stopped)
    ensures Consistent(run, stream, attempts, late, t0)
  {
  }

  /** The sending loop. attempts are the outcomes of its sendto calls, alarm is the number of
      times it finds runLoop set, and late(k) is how much longer than asked period k's closing
      sleep takes, with whatever passes until the next burst begins. */
  method BurstLoop(stream: TgStream, attempts: seq<Attempt>, alarm: nat, late: nat -> nat, t0: int)
    returns (run: Run)
    requires IsInt(Period(stream.profile))
    ensures Conforms(run, stream, attempts, late, t0)
    ensures run.ending.Stopped? ==> |run.durations| == alarm
  {
    var packBuf := new Byte[HDR_LEN](_ => 0);
    var nDuration: nat, nOverSend, counter := 0, 0, 0;
    run := Run(stream, [], [], [], 0, t0, 0, 0, Stopped);
    StartsConsistent(run, stream, attempts, late, t0);
    while nDuration < alarm
      invariant nDuration == |run.durations| <= alarm && counter == |run.frames|
      invariant Consistent(run, stream, attempts, late, t0) && run.ending.Stopped?
      invariant nOverSend == Overs(stream.profile, run.durations) <= 1000
    {
      var onTime;
      ghost var before, measured := run, 0;
      run, counter, measured, onTime := BurstPeriod(run, stream, packBuf, attempts, counter, late, t0);
      if run.ending.Observed? { return; }
      nDuration := nDuration + 1;
      TimesIsProduct(nDuration, stream.profile.burstperiodicity);
      OversOne(before, measured, stream, attempts, late, t0);
      if onTime && stream.profile.duration * 1000 < nDuration * stream.profile.burstperiodicity {
        nOverSend := nOverSend + 1;
        if nOverSend > 1000 {
          BreaksOut(run, stream, attempts, late, t0);
          run := run.(ending := OverSend);
          return;
        }
      }
    }
  }

  method SendBurstData(sockfd: int, streamId: int, found: Option<TgStream>,
                       attempts: seq<Attempt>, alarm: nat, late: nat -> nat, t0: int)
    returns (r: Outcome)
    requires found.Some? ==> IsInt(Period(found.value.profile))
    ensures r.Invalid? <==> Refused(sockfd, streamId, found)
    ensures r.Complete? ==> Conforms(r.run, found.value, attempts, late, t0)
    ensures r.Complete? && r.run.ending.Stopped? ==> |r.run.durations| == alarm
  {
    if sockfd < 0 || streamId < 0 { return Invalid; }
    if found.None? { return Invalid; }
    var prof := found.value.profile;
    if prof.burstperiodicity == 0 || prof.duration == 0 { return Invalid; }
    if prof.pksize * prof.burstfrags * CDiv(1000, prof.burstperiodicity) * 8 > WFA_SEND_FIX_BITRATE_MAX {
      return Invalid;
    }

    var run := BurstLoop(found.value, attempts, alarm, late, t0);
    return Complete(run);
  }

  /** Burst pacing: after n bursts the elapsed time is at least n periods and the debt, whatever
      fails and however late the sleeps are; and it exceeds them by at most 1 ms a burst and the
      lateness of the sleeps. The debt is the largest excess of any suffix of the bursts. */
  lemma BurstPacing(run: Run, stream: TgStream, attempts: seq<Attempt>, late: nat -> nat, t0: int)
    requires Conforms(run, stream, attempts, late, t0)
    ensures var n := |run.durations|;
      && n * Period(stream.profile) + run.debt <= run.pace - t0
      && (AllFitInt(run.spans) ==>
            && run.durations == run.spans
            && run.pace - t0 <= n * Period(stream.profile) + run.debt + 1000 * n + Lateness(late, n))
    ensures forall k :: 0 <= k <= |run.durations| ==> Excess(run.durations[k..], Period(stream.profile)) <= run.debt
    ensures exists k :: 0 <= k <= |run.durations| && Excess(run.durations[k..], Period(stream.profile)) == run.debt
  {
    TimesIsProduct(|run.durations|, Period(stream.profile));
    DebtIsLargestSuffixExcess(run.durations, Period(stream.profile));
  }

  /** The pacing of the frames themselves: they leave in order, and frame j, counted from 0, leaves when
      j / burstfrags periods and their debt are over, and not later than its burst ends. */
  lemma BurstFramesPaced(run: Run, stream: TgStream, attempts: seq<Attempt>, late: nat -> nat, t0: int, j: nat)
    requires Conforms(run, stream, attempts, late, t0) && j < |run.frames|
    ensures stream.profile.burstfrags > 0
    ensures var k, at := j / stream.profile.burstfrags, run.frames[j].at;
      0 <= k <= |run.durations| &&
      var due := t0 + k * Period(stream.profile) + Debt(run.durations[..k], Period(stream.profile));
      && due <= at <= Clock(run, attempts)
      && (k < |run.durations| && AllFitInt(run.spans) ==> at <= due + 1000 * k + Lateness(late, k) + run.spans[k])
    ensures forall i :: 0 <= i < j ==> run.frames[i].at <= run.frames[j].at
  {
    var prof := stream.profile;
    TimesIsProduct(|run.durations|, Max(0, prof.burstfrags));
    TimesIsProduct(|run.durations| + 1, Max(0, prof.burstfrags));
    var ats := Instants(run.frames);
    QuotientIsDivision(j, prof.burstfrags);
    assert InBurst(Quotient(j, prof.burstfrags), ats[j], prof, run.durations, run.spans, late, t0);
    TimesIsProduct(Quotient(j, prof.burstfrags), Period(prof));
    forall i | 0 <= i < j ensures run.frames[i].at <= run.frames[j].at { assert ats[i] <= ats[j]; }
  }

  lemma {:induction false} OversComeLate(prof: TgProfile, ds: seq<int>)
    requires prof.burstperiodicity > 0
    ensures Overs(prof, ds) <= |ds| && (Overs(prof, ds) > 0 ==> PastEnd(prof, |ds| - Overs(prof, ds) + 1))
  {
    if ds != [] { OversComeLate(prof, ds[..|ds| - 1]); }
  }

  /** The over-send guard ends a run if and only if 1001 bursts ended with time to spare after the configured
      duration, and never before 1000 periods more than the duration have begun. */
  lemma OverSendIff(run: Run, stream: TgStream, attempts: seq<Attempt>, late: nat -> nat, t0: int)
    requires Conforms(run, stream, attempts, late, t0)
    ensures run.ending.OverSend? <==> Overs(stream.profile, run.durations) > 1000
    ensures run.ending.OverSend? && stream.profile.burstperiodicity > 0 ==>
      stream.profile.duration * 1000 < (|run.durations| - 1000) * stream.profile.burstperiodicity
  {
    if run.ending.OverSend? && stream.profile.burstperiodicity > 0 {
      OversComeLate(stream.profile, run.durations);
      TimesIsProduct(|run.durations| - 1000, stream.profile.burstperiodicity);
    }
  }

  /** Gap-free sending: the frames of a run carry 1, 2, ..., N, and txFrames and txPayloadBytes grow by
      exactly what left. Every completed burst is worth burstfrags frames: no failure makes the sender skip
      or repeat one. */
  lemma BurstGapFree(run: Run, stream: TgStream, attempts: seq<Attempt>, late: nat -> nat, t0: int)
    requires Conforms(run, stream, attempts, late, t0)
    requires 0 <= stream.stats.txFrames < TWO_32
    ensures forall j :: 0 <= j < |run.frames| ==> run.frames[j].sn == j + 1
    ensures var n, frags := |run.durations|, Max(0, stream.profile.burstfrags);
      if run.ending.Observed? then n * frags <= |run.frames| < n * frags + frags else |run.frames| == n * frags
    ensures run.stream == stream.(stats := stream.stats.(
      txFrames := ToUInt(stream.stats.txFrames + |run.frames|),
      txPayloadBytes := stream.stats.txPayloadBytes + Sum(Carried(attempts[..run.used]))))
  {
    GapFree(run.frames, attempts[..run.used], stream.stats, run.stream.stats);
    TimesIsProduct(|run.durations|, Max(0, stream.profile.burstfrags));
  }

  /** What the bitrate test is for: no accepted run whose frames are at most pksize long has sent, in its periods,
      more than WFA_SEND_FIX_BITRATE_MAX bits a second, a second counting as the 1000 / burstperiodicity whole
      periods it holds: all of it if the period divides it, and none of it if the period is longer. */
  lemma BurstWithinLimit(run: Run, stream: TgStream, attempts: seq<Attempt>, late: nat -> nat, t0: int)
    requires Conforms(run, stream, attempts, late, t0) && !run.ending.Observed?
    requires var prof := stream.profile;
      0 < prof.burstperiodicity && prof.pksize >= 0 && Bitrate(prof) <= WFA_SEND_FIX_BITRATE_MAX
      && forall j :: 0 <= j < |run.frames| ==> run.frames[j].bytes <= prof.pksize
    ensures var second := 1000 / stream.profile.burstperiodicity * Period(stream.profile);
      && 8 * Sum(Sizes(run.frames)) * second <= WFA_SEND_FIX_BITRATE_MAX * (run.pace - t0)
      && (1000 % stream.profile.burstperiodicity == 0 ==> second == MICROSECONDS)
  {
    var prof, n := stream.profile, |run.durations|;
    var frags, c := Max(0, prof.burstfrags), 1000 / prof.burstperiodicity;
    SumAtMost(Sizes(run.frames), prof.pksize);
    TimesIsProduct(n, frags);
    BurstPacing(run, stream, attempts, late, t0);
    BitsPerPeriod(prof);
    LimitPerPeriod(n, frags * prof.pksize, c, Period(prof));
    Regrouped(n, frags, prof.pksize);
    Scaled(8 * Sum(Sizes(run.frames)), 8 * (n * (frags * prof.pksize)), c * Period(prof), n * Period(prof),
           run.pace - t0);
  }

  lemma Regrouped(a: int, b: int, c: int)
    ensures a * b * c == a * (b * c)
  {
  }

  lemma Scaled(sum: int, bits: int, second: int, periods: int, elapsed: int)
    requires sum <= bits && bits * second <= WFA_SEND_FIX_BITRATE_MAX * periods && periods <= elapsed && second >= 0
    ensures sum * second <= WFA_SEND_FIX_BITRATE_MAX * elapsed
  {
    ProductNonNegative(bits - sum, second);
    assert (bits - sum) * second == bits * second - sum * second;
  }

  lemma BitsPerPeriod(prof: TgProfile)
    requires 0 < prof.burstperiodicity && prof.pksize >= 0 && Bitrate(prof) <= WFA_SEND_FIX_BITRATE_MAX
    ensures var c := 1000 / prof.burstperiodicity;
      && c >= 0 && c * Period(prof) >= 0
      && 8 * (Max(0, prof.burstfrags) * prof.pksize * c) <= WFA_SEND_FIX_BITRATE_MAX
      && (1000 % prof.burstperiodicity == 0 ==> c * Period(prof) == MICROSECONDS)
  {
    var c := 1000 / prof.burstperiodicity;
    if prof.burstfrags > 0 { assert prof.pksize * prof.burstfrags * c == prof.burstfrags * prof.pksize * c; }
    assert 1000 == prof.burstperiodicity * c + 1000 % prof.burstperiodicity;
    assert c * Period(prof) == prof.burstperiodicity * c * 1000;
    ProductNonNegative(c, Period(prof));
  }

  lemma LimitPerPeriod(n: nat, bytes: int, c: int, period: int)
    requires period > 0 && 8 * (bytes * c) <= WFA_SEND_FIX_BITRATE_MAX
    ensures 8 * (n * bytes) * (c * period) <= WFA_SEND_FIX_BITRATE_MAX * (n * period)
  {
    var x, bits := n * period, 8 * (bytes * c);
    ProductNonNegative(n, period);
    ProductNonNegative(WFA_SEND_FIX_BITRATE_MAX - bits, x);
    assert (WFA_SEND_FIX_BITRATE_MAX - bits) * x == WFA_SEND_FIX_BITRATE_MAX * x - bits * x;
    assert n * bytes * (c * period) == bytes * c * (n * period);
  }
}
