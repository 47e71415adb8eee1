/** wfaSendBitrateData (lib/wfa_tg.c): rate + 1 frames a second, paced by a time debt. */
module BitrateSender {
  import opened CInt
  import opened Miscs
  import opened Options
  import opened Traffic
  import opened TimeDebt
  import opened PacedRun

  const SECOND: int := 1_000_000

  predicate Refused(sockfd: int, streamId: int, found: Option<TgStream>) {
    || sockfd < 0 || streamId < 0 || found.None?
    || found.value.profile.rate == 0 || found.value.profile.duration == 0
    || found.value.profile.pksize * found.value.profile.rate * 8 > WFA_SEND_FIX_BITRATE_MAX
  }

  /** naps multiples of step have been reached up to index i. */
  ghost predicate Rested(naps: nat, step: int, i: int) { Times(naps, step) <= i < Times(naps + 1, step) }

  /** As many rests were taken as the indices below `next` ask for. */
  ghost predicate RestedBelow(naps: nat, step: int, next: int) {
    step > 0 ==> if next <= 0 then naps == 0 else Rested(naps, step, next - 1)
  }

  /** The rest of 10 ms after index i, if the index has reached the next multiple of step. */
  method RestIfDue(step: int, i: int, naps0: nat, now0: int) returns (naps: nat, now: int)
    requires RestedBelow(naps0, step, i) || RestedBelow(naps0, step, i + 1)
    ensures RestedBelow(naps, step, i + 1)
    ensures naps == naps0 + if i == Times(naps0 + 1, step) then 1 else 0
    ensures now - 10_000 * naps == now0 - 10_000 * naps0
  {
    var iSleep := naps0 + 1;
    TimesIsProduct(iSleep, step);
    naps, now := naps0, now0;
    if i == step * iSleep {
      now := now + 10_000;
      naps := naps + 1;
    }
  }

  /** How many attempts were made with the outcome that one frame has been sent: the sender is at index 0
      then, a first success having put it there or a failure back there. */
  function AtFirstIndex(attempts: seq<Attempt>): nat {
    if attempts == [] then 0
    else AtFirstIndex(attempts[..|attempts| - 1]) + if |Carried(attempts)| == 1 then 1 else 0
  }

  /** One second's frames: rate + 1 of them, each failure retried after 1 ms, with a 10 ms rest
      whenever the index reaches the next multiple of rate / 50, which below rate 50 is index 0. */
  method SendSecond(prof: TgProfile, packBuf: array<Byte>, attempts: seq<Attempt>, start: nat,
                    counter0: int, t0: int, stats0: TgStats)
    returns (sent: seq<Frame>, pos: nat, now: int, stats: TgStats, naps: nat, done: bool)
    requires start <= |attempts| && packBuf.Length == HDR_LEN
    modifies packBuf
    ensures start <= pos <= |attempts|
    ensures Accounted(sent, counter0 + 1, attempts[start..pos], stats0, stats)
    ensures now == t0 + TimeSpent(attempts[start..pos]) + 10_000 * naps
    ensures naps == Naps(Some(CDiv(prof.rate, 50)), attempts[start..pos])
    ensures Instants(sent) == Stamps(Some(CDiv(prof.rate, 50)), t0, attempts[start..pos])
    ensures done ==> |sent| == Max(0, prof.rate + 1)
    ensures done && prof.rate >= 50 ==> Rested(naps, prof.rate / 50, prof.rate)
    ensures -50 < prof.rate < 50 ==> naps == AtFirstIndex(attempts[start..pos])
    ensures !done ==> pos == |attempts| && |sent| <= prof.rate
  {
    sent, pos, now, stats, naps, done :=
      SendFrames(prof, CDiv(prof.rate, 50), packBuf, attempts, start, counter0, t0, stats0);
    NapsAtFirstIndex(attempts[start..pos]);
  }

  /** Without a step the next multiple is always 0. */
  lemma {:induction false} NapsAtFirstIndex(attempts: seq<Attempt>)
    ensures Naps(Some(0), attempts) == AtFirstIndex(attempts)
  {
    if attempts != [] {
      NapsAtFirstIndex(attempts[..|attempts| - 1]);
      TimesIsProduct(Naps(Some(0), attempts[..|attempts| - 1]) + 1, 0);
    }
  }

  /** The rests taken and the instants stamped are what the attempts from t0 on ask for. */
  ghost predicate OnClock(sent: seq<Frame>, step: int, t0: int, tried: seq<Attempt>, naps: nat, now: int) {
    && naps == Naps(Some(step), tried) && Instants(sent) == Stamps(Some(step), t0, tried)
    && now == t0 + TimeSpent(tried) + 10_000 * naps
  }

  lemma OnClockOne(sent: seq<Frame>, step: int, t0: int, attempts: seq<Attempt>, start: nat, pos: nat,
                   naps: nat, now: int, sent': seq<Frame>, counter: int, naps': nat, now': int)
    requires start <= pos < |attempts| && OnClock(sent, step, t0, attempts[start..pos], naps, now)
    requires sent' == sent + Departing(attempts[pos], counter, now)
    requires Sizes(sent') == Carried(attempts[start..pos + 1])
    requires naps' == naps + if |sent'| - 1 == Times(naps + 1, step) then 1 else 0
    requires now' - now == TimeSpent(attempts[start..pos + 1]) - TimeSpent(attempts[start..pos])
                        + 10_000 * (naps' - naps)
    ensures OnClock(sent', step, t0, attempts[start..pos + 1], naps', now')
  {
    SliceOne(attempts, start, pos);
    StampedOne(Some(step), t0, sent, attempts[start..pos], attempts[pos], now, counter);
  }

  method SendFrames(prof: TgProfile, step: int, packBuf: array<Byte>, attempts: seq<Attempt>, start: nat,
                    counter0: int, t0: int, stats0: TgStats)
    returns (sent: seq<Frame>, pos: nat, now: int, stats: TgStats, naps: nat, done: bool)
    requires start <= |attempts| && packBuf.Length == HDR_LEN
    modifies packBuf
    ensures start <= pos <= |attempts|
    ensures Accounted(sent, counter0 + 1, attempts[start..pos], stats0, stats)
    ensures now == t0 + TimeSpent(attempts[start..pos]) + 10_000 * naps
    ensures naps == Naps(Some(step), attempts[start..pos])
    ensures Instants(sent) == Stamps(Some(step), t0, attempts[start..pos])
    ensures done ==> |sent| == Max(0, prof.rate + 1)
    ensures done && step > 0 && prof.rate >= 0 ==> Rested(naps, step, prof.rate)
    ensures !done ==> pos == |attempts| && |sent| <= prof.rate
  {
    sent, pos, now, stats := [], start, t0, stats0;
    var counter, i := counter0, 0;
    naps := 0;
    while i <= prof.rate && pos < |attempts|
      invariant start <= pos <= |attempts| && 0 <= i == |sent| <= Max(0, prof.rate + 1)
      invariant counter == counter0 + i
      invariant Accounted(sent, counter0 + 1, attempts[start..pos], stats0, stats)
      invariant RestedBelow(naps, step, i) && OnClock(sent, step, t0, attempts[start..pos], naps, now)
      decreases |attempts| - pos
    {
      counter := counter + 1;
      ghost var sent0, now0, naps0, counter1 := sent, now, naps, counter;
      var ok;
      sent, now, stats, ok := TrySend(packBuf, counter, sent, attempts, start, pos, now, stats0, stats);
      if !ok {
        counter := counter - 1;
        i := i - 1;
      }
      naps, now := RestIfDue(step, i, naps, now);
      OnClockOne(sent0, step, t0, attempts, start, pos, naps0, now0, sent, counter1, naps, now);
      pos := pos + 1;
      i := i + 1;
    }
    done := i > prof.rate;
  }

  /** The branch that pays the debt back out of the time left in the second. */
  predicate Repays(d: int, debt: int) { 0 < debt && 0 <= d && debt + d <= SECOND }

  /** Second and sleep take one second plus the change of the debt, or at most 5 ms more. */
  predicate OnSchedule(d: int, debt0: int, debt: int, sleep: int) {
    0 <= d + sleep * 1000 - (SECOND + debt - debt0) <= 5000
  }

  /** By how much paying a debt back misses the schedule: twice the debt late, because it is subtracted
      instead of added, or early by what was left of the second, because the difference wraps around. */
  function Drift(d: int, debt: int): int {
    if !Repays(d, debt) then 0 else if debt <= d then 2 * debt else d + debt - SECOND
  }

  /** The debt moves as it should, and the schedule is kept but for the drift. */
  ghost predicate Settled(measured: int, debt0: nat, debt: nat, sleep: nat) {
    && debt < TWO_64
    && (0 <= measured && debt0 + measured < TWO_64 ==>
          && debt == NextDebt(debt0, measured, SECOND)
          && 0 <= measured + sleep * 1000 - (SECOND + debt - debt0) - Drift(measured, debt0) <= 5000)
  }

  /** The argument of the closing sleep, from the unsigned difference of difftime and debt. */
  function SleepArgument(difftime: int): int { Max(0, ToInt(ToULong(1000 - difftime / 1000))) }

  lemma DivBounds(x: int, lo: int, hi: int)
    requires 1000 * lo <= x < 1000 * hi + 1000
    ensures lo <= x / 1000 <= hi
  {
  }

  /** A difference that did not wrap sleeps out the second; one that did sleeps not at all. */
  lemma SleepArgumentValue(rest: int)
    requires -SECOND <= rest < SECOND
    ensures SleepArgument(ToULong(rest)) == if rest >= 0 then 1000 - rest / 1000 else 0
  {
    ULongValue(rest);
    if rest >= 0 {
      DivBounds(rest, 0, 999);
      ULongValue(1000 - rest / 1000);
      WrapIsIdentityOnInts(1000 - rest / 1000);
    } else {
      DivBounds(rest + TWO_64, 18446744073708551, 18446744073709551);
      var q := (rest + TWO_64) / 1000;
      ULongValue(1000 - q);
      LowWord(1000 - q + TWO_64, 4290672328, 1000 - q + TWO_64 - 4290672328 * TWO_32);
    }
  }

  lemma RoundedUp(d: int)
    ensures SECOND <= d + (1000 - d / 1000) * 1000 < SECOND + 1000
  {
  }

  lemma LowWord(v: int, high: int, low: int)
    requires v == high * TWO_32 + low && INT_MAX < low < TWO_32
    ensures ToInt(v) == low - TWO_32
  {
  }

  /** The end of a second: settles the debt and decides how long to sleep (in milliseconds).
      difftime is an unsigned long here, and paying back subtracts the debt from it. */
  method EndOfSecond(measured: int, debt0: nat) returns (debt: nat, sleep: nat)
    requires IsInt(measured) && debt0 < TWO_64
    ensures Settled(measured, debt0, debt, sleep)
    ensures Repays(measured, debt0) ==>
      debt == 0 && sleep == if debt0 <= measured then 1000 - (measured - debt0) / 1000 else 0
    ensures !Repays(measured, debt0) ==>
      sleep == if !(0 <= measured < SECOND) then 1 else if debt0 > 0 then 5 else 1000 - measured / 1000
  {
    ULongValue(measured);
    var difftime := ToULong(measured);
    if difftime >= SECOND {
      debt := AddDebt(difftime, debt0);
      sleep := 1;
    } else {
      debt, sleep := PayDebt(difftime, debt0);
    }
  }

  method AddDebt(difftime: nat, debt0: nat) returns (debt: nat)
    requires SECOND <= difftime < TWO_64 && debt0 < TWO_64
    ensures debt < TWO_64 && (debt0 + difftime < TWO_64 ==> debt == debt0 + difftime - SECOND)
  {
    debt := debt0;
    if difftime > SECOND {
      if debt0 + difftime < TWO_64 { ULongValue(debt0 + (difftime - SECOND)); }
      debt := ToULong(debt + (difftime - SECOND));
    }
  }

  method PayDebt(measured: nat, debt0: nat) returns (debt: nat, sleep: nat)
    requires measured < SECOND && debt0 < TWO_64
    ensures Settled(measured, debt0, debt, sleep)
    ensures Repays(measured, debt0) ==>
      debt == 0 && sleep == if debt0 <= measured then 1000 - (measured - debt0) / 1000 else 0
    ensures !Repays(measured, debt0) ==> sleep == if debt0 > 0 then 5 else 1000 - measured / 1000
  {
    var difftime := measured;
    debt := debt0;
    if debt > 0 {
      if debt > SECOND - difftime { return debt - (SECOND - difftime), 5; }
      difftime := ToULong(difftime - debt);
      debt := 0;
    } else {
      ULongValue(measured);
    }
    sleep := CloseSecondSleep(difftime, measured - debt0);
    RoundedUp(measured);
  }

  /** The closing sleep; rest is the true value of the unsigned difftime. */
  method CloseSecondSleep(difftime: nat, rest: int) returns (sleep: nat)
    requires -SECOND <= rest < SECOND && difftime == ToULong(rest)
    ensures sleep == if rest >= 0 then 1000 - rest / 1000 else 0
  {
    SleepArgumentValue(rest);
    sleep := 0;
    if ToULong(1000 - difftime / 1000) > 0 { sleep := SleepArgument(difftime); }
  }

  /** Paying back keeps the schedule only for small debts: otherwise the second is prolonged by
      the debt instead of shortened, or, if the debt exceeds what was measured, not slept out at all. */
  lemma RepayOnScheduleIff(d: int, debt0: int, sleep: int)
    requires Repays(d, debt0)
    requires sleep == if debt0 <= d then 1000 - (d - debt0) / 1000 else 0
    ensures OnSchedule(d, debt0, 0, sleep)
       <==> if debt0 <= d then 2 * debt0 + (d - debt0) % 1000 <= 5000 else debt0 + d == SECOND
  {
  }

  /** Two seconds of the sender: the first one's frames take 1.3 s and leave a debt of 0.3 s, the second
      one's take 0.4 s and pay it back. Together they should take 2 s and take 2.6. */
  method RepayProlongs() returns (elapsed: int, debt: nat)
    ensures debt == 0 && 2 * SECOND + 600_000 <= elapsed <= 2 * SECOND + 610_000
  {
    var sleep;
    debt, sleep := EndOfSecond(1_300_000, 0);
    elapsed := 1_300_000 + sleep * 1000;
    debt, sleep := EndOfSecond(400_000, debt);
    elapsed := elapsed + 400_000 + sleep * 1000;
  }

  /** No second of the run ends in the paying-back branch. */
  predicate NeverRepays(ds: seq<int>) {
    ds == [] ||
    var front := ds[..|ds| - 1];
    NeverRepays(front) && !Repays(ds[|ds| - 1], Debt(front, SECOND))
  }

  function TotalDrift(ds: seq<int>): int {
    if ds == [] then 0
    else
      var front := ds[..|ds| - 1];
      TotalDrift(front) + Drift(ds[|ds| - 1], Debt(front, SECOND))
  }

  lemma {:induction false} NoRepaymentNoDrift(ds: seq<int>)
    requires NeverRepays(ds)
    ensures TotalDrift(ds) == 0
  {
    if ds != [] { NoRepaymentNoDrift(ds[..|ds| - 1]); }
  }

  /** The debt is the burst sender's, and the schedule is kept but for the drift of the repayments. */
  ghost predicate Paced(ds: seq<int>, spans: seq<int>, debt: int, elapsed: int, late: nat -> nat) {
    var n := |ds|;
    && Measured(ds, spans)
    && 0 <= debt < TWO_64
    && (AllFitInt(spans) ==> debt == Debt(ds, SECOND) && debt <= Times(n, INT_MAX))
    && (AllFitInt(spans) ==>
          0 <= elapsed - (Times(n, SECOND) + debt + TotalDrift(ds)) <= 5000 * n + Lateness(late, n))
  }

  /** A frame of second k leaves when the k seconds before it, their debt and drift are over, and before its
      own frames are all sent. */
  ghost predicate InSecond(k: nat, at: int, ds: seq<int>, spans: seq<int>, late: nat -> nat, t0: int)
    requires |ds| == |spans|
  {
    && k <= |ds|
    && (AllFitInt(spans) ==>
          var due := t0 + Times(k, SECOND) + Debt(ds[..k], SECOND) + TotalDrift(ds[..k]);
          due <= at && (k < |ds| ==> at <= due + 5000 * k + Lateness(late, k) + spans[k]))
  }

  /** Frame j, from 0, is one of second j / (rate + 1). */
  ghost predicate Timely(ats: seq<int>, rate: int, ds: seq<int>, spans: seq<int>, late: nat -> nat, t0: int)
    requires |ds| == |spans|
  {
    rate >= 0 ==> forall j :: 0 <= j < |ats| ==> InSecond(Quotient(j, rate + 1), ats[j], ds, spans, late, t0)
  }

  ghost predicate Quota(run: Run, prof: TgProfile, attempts: seq<Attempt>)
    requires run.used <= |attempts|
  {
    var n, frags := |run.durations|, Max(0, prof.rate + 1);
    if run.ending.Observed?
    then run.used == |attempts| && Times(n, frags) <= |run.frames| < Times(n + 1, frags)
    else |run.frames| == Times(n, frags) && Sum(run.spans) == TimeSpent(attempts[..run.used]) + 10_000 * run.naps
  }

  /** What every run of the sender satisfies. */
  ghost predicate Conforms(run: Run, stream: TgStream, attempts: seq<Attempt>, late: nat -> nat, t0: int) {
    && run.used <= |attempts|
    && run.stream == stream.(stats := run.stream.stats)
    && Accounted(run.frames, 1, attempts[..run.used], stream.stats, run.stream.stats)
    && Paced(run.durations, run.spans, run.debt, run.pace - t0, late)
    && Quota(run, stream.profile, attempts)
    && t0 <= run.pace && Ascending(Instants(run.frames), t0, Clock(run, attempts))
    && Timely(Instants(run.frames), stream.profile.rate, run.durations, run.spans, late, t0)
  }

  lemma PrefixFits(spans: seq<int>, span: int)
    requires AllFitInt(spans + [span])
    ensures AllFitInt(spans) && span <= INT_MAX
  {
    forall k | 0 <= k < |spans| ensures spans[k] <= INT_MAX { assert (spans + [span])[k] == spans[k]; }
    assert (spans + [span])[|spans|] == span;
  }

  lemma DebtStep(ds: seq<int>, debt0: nat, measured: int, debt: nat, sleep: nat)
    requires |ds| < INT_MAX && debt0 == Debt(ds, SECOND) && debt0 <= Times(|ds|, INT_MAX)
    requires 0 <= measured <= INT_MAX && Settled(measured, debt0, debt, sleep)
    ensures debt == Debt(ds + [measured], SECOND) && debt <= Times(|ds| + 1, INT_MAX)
    ensures debt0 + measured < TWO_64
  {
    assert (ds + [measured])[..|ds|] == ds;
    DebtStaysSmall(|ds|);
  }

  lemma MeasuredStep(ds: seq<int>, spans: seq<int>, measured: int, span: int)
    requires Measured(ds, spans)
    requires measured <= span && (measured < 0 ==> INT_MAX < span) && (span <= INT_MAX ==> measured == span)
    ensures Measured(ds + [measured], spans + [span])
    ensures Sum(spans + [span]) == Sum(spans) + span
  {
    assert (spans + [span])[..|spans|] == spans;
  }

  /** One more second keeps the schedule, but for its drift. */
  lemma PacedStep(ds: seq<int>, spans: seq<int>, debt0: nat, elapsed: int, late: nat -> nat,
                  measured: int, span: int, debt: nat, sleep: nat, elapsed': int)
    requires Paced(ds, spans, debt0, elapsed, late)
    requires IsInt(measured) && measured <= span && 0 <= span && |ds| < INT_MAX
    requires (measured < 0 ==> INT_MAX < span) && (span <= INT_MAX ==> measured == span)
    requires Settled(measured, debt0, debt, sleep)
    requires elapsed' == elapsed + span + sleep * 1000 + late(|ds|)
    ensures Paced(ds + [measured], spans + [span], debt, elapsed', late)
    ensures Sum(spans + [span]) == Sum(spans) + span
  {
    MeasuredStep(ds, spans, measured, span);
    if AllFitInt(spans + [span]) {
      PrefixFits(spans, span);
      DebtStep(ds, debt0, measured, debt, sleep);
      assert (ds + [measured])[..|ds|] == ds;
    }
  }

  lemma DebtStaysSmall(n: nat)
    requires n < INT_MAX
    ensures Times(n, INT_MAX) + INT_MAX < TWO_64
  {
    TimesIsProduct(n, INT_MAX);
  }

  /** Frames sent from the end of the last period on are those of the next second. */
  lemma SecondTimely(ats: seq<int>, more: seq<int>, rate: int, ds: seq<int>, spans: seq<int>, debt: int,
                     pace: int, late: nat -> nat, t0: int)
    requires Paced(ds, spans, debt, pace - t0, late) && Timely(ats, rate, ds, spans, late, t0)
    requires |ats| == Times(|ds|, Max(0, rate + 1)) && |more| <= Max(0, rate + 1)
    requires forall i :: 0 <= i < |more| ==> pace <= more[i]
    ensures Timely(ats + more, rate, ds, spans, late, t0)
  {
    assert ds[..|ds|] == ds;
    forall j | rate >= 0 && |ats| <= j < |ats + more|
      ensures InSecond(Quotient(j, rate + 1), (ats + more)[j], ds, spans, late, t0)
    {
      QuotientInside(j, rate + 1, |ds|);
    }
  }

  lemma StaysInSecond(k: nat, at: int, ds: seq<int>, spans: seq<int>, debt: int, pace: int,
                      late: nat -> nat, t0: int, d: int, span: int)
    requires Paced(ds, spans, debt, pace - t0, late) && InSecond(k, at, ds, spans, late, t0)
    requires at <= pace + span
    ensures InSecond(k, at, ds + [d], spans + [span], late, t0)
  {
    assert (ds + [d])[..k] == ds[..k] && ds[..|ds|] == ds;
    if AllFitInt(spans + [span]) { PrefixFits(spans, span); }
  }

  /** When a second's frames are sent none of them has left later. */
  lemma StaysTimely(ats: seq<int>, rate: int, ds: seq<int>, spans: seq<int>, debt: int, pace: int,
                    late: nat -> nat, t0: int, d: int, span: int)
    requires Paced(ds, spans, debt, pace - t0, late) && Timely(ats, rate, ds, spans, late, t0)
    requires forall j :: 0 <= j < |ats| ==> ats[j] <= pace + span
    ensures Timely(ats, rate, ds + [d], spans + [span], late, t0)
  {
    forall j | rate >= 0 && 0 <= j < |ats|
      ensures InSecond(Quotient(j, rate + 1), ats[j], ds + [d], spans + [span], late, t0)
    {
      StaysInSecond(Quotient(j, rate + 1), ats[j], ds, spans, debt, pace, late, t0, d, span);
    }
  }

  /** The frames of a second, all of it or not, follow those of the run before. */
  lemma SecondAdded(run: Run, sent: seq<Frame>, pos: nat, later: int, step: int, stream: TgStream,
                    attempts: seq<Attempt>, late: nat -> nat, t0: int)
    requires Conforms(run, stream, attempts, late, t0) && run.ending.Stopped? && run.used <= pos <= |attempts|
    requires Instants(sent) == Stamps(Some(step), run.pace, attempts[run.used..pos])
    requires later == run.pace + TimeSpent(attempts[run.used..pos]) + 10_000 * Naps(Some(step), attempts[run.used..pos])
    requires |sent| <= Max(0, stream.profile.rate + 1)
    ensures Ascending(Instants(run.frames + sent), t0, later)
    ensures Timely(Instants(run.frames + sent), stream.profile.rate, run.durations, run.spans, late, t0)
  {
    StampsAscend(Some(step), run.pace, attempts[run.used..pos]);
    AscendingJoin(run.frames, sent, t0, run.pace, later);
    SecondTimely(Instants(run.frames), Instants(sent), stream.profile.rate, run.durations, run.spans, run.debt,
                 run.pace, late, t0);
  }

  /** A second that the end of the attempts cuts short. */
  lemma CutShort(run: Run, run': Run, later: int, stream: TgStream, attempts: seq<Attempt>, late: nat -> nat, t0: int)
    requires Conforms(run, stream, attempts, late, t0) && run.ending.Stopped? && run'.used == |attempts|
    requires run' == run.(frames := run'.frames, used := run'.used, naps := run'.naps,
                          stream := stream.(stats := run'.stream.stats), ending := Observed)
    requires Accounted(run'.frames, 1, attempts[..run'.used], stream.stats, run'.stream.stats)
    requires |run.frames| <= |run'.frames| < |run.frames| + Max(0, stream.profile.rate + 1)
    requires later == run.pace + TimeSpent(attempts[..run'.used]) - TimeSpent(attempts[..run.used])
                    + 10_000 * (run'.naps - run.naps)
    requires Ascending(Instants(run'.frames), t0, later)
    requires Timely(Instants(run'.frames), stream.profile.rate, run.durations, run.spans, late, t0)
    ensures Conforms(run', stream, attempts, late, t0)
  {
  }

  /** A full second's frames and its closing sleep keep the run conforming. */
  lemma SecondConforms(run: Run, run': Run, stream: TgStream, attempts: seq<Attempt>, late: nat -> nat, t0: int)
    requires Conforms(run, stream, attempts, late, t0) && run.ending.Stopped? && run'.ending.Stopped?
    requires run.used <= run'.used <= |attempts| && run.naps <= run'.naps
    requires run'.stream == stream.(stats := run'.stream.stats)
    requires Accounted(run'.frames, 1, attempts[..run'.used], stream.stats, run'.stream.stats)
    requires TimeSpent(attempts[..run'.used])
          == TimeSpent(attempts[..run.used]) + TimeSpent(attempts[run.used..run'.used])
    requires Paced(run'.durations, run'.spans, run'.debt, run'.pace - t0, late)
    requires Sum(run'.spans)
          == Sum(run.spans) + TimeSpent(attempts[run.used..run'.used]) + 10_000 * (run'.naps - run.naps)
    requires |run'.spans| == |run.spans| + 1
    requires |run'.frames| == |run.frames| + Max(0, stream.profile.rate + 1)
    requires t0 <= run'.pace && Ascending(Instants(run'.frames), t0, run'.pace)
    requires Timely(Instants(run'.frames), stream.profile.rate, run'.durations, run'.spans, late, t0)
    ensures Conforms(run', stream, attempts, late, t0)
  {
  }

  /** The second half of a pass: measures the second that ended at `later`, settles the debt, sleeps. */
  method CloseSecond(run: Run, ghost rate: int, later: int, late: nat -> nat, ghost t0: int) returns (run': Run)
    requires run.pace <= later && |run.durations| < INT_MAX
    requires Paced(run.durations, run.spans, run.debt, run.pace - t0, late)
    requires Ascending(Instants(run.frames), t0, later)
    requires Timely(Instants(run.frames), rate, run.durations, run.spans, late, t0)
    ensures run' == run.(durations := run'.durations, spans := run.spans + [later - run.pace],
                         debt := run'.debt, pace := run'.pace)
    ensures Paced(run'.durations, run'.spans, run'.debt, run'.pace - t0, late)
    ensures Sum(run'.spans) == Sum(run.spans) + later - run.pace
    ensures |run'.durations| == |run.durations| + 1
    ensures later <= run'.pace && Timely(Instants(run.frames), rate, run'.durations, run'.spans, late, t0)
  {
    var difftime := Elapsed(run.pace, later);
    var debt, sleep := EndOfSecond(difftime, run.debt);
    SecondClosed(run, rate, later - run.pace, late, t0, difftime, debt, sleep);
    var ds, spans := run.durations + [difftime], run.spans + [later - run.pace];
    run' := run.(durations := ds, spans := spans, debt := debt, pace := later + sleep * 1000 + late(|run.durations|));
  }

  lemma SecondClosed(run: Run, rate: int, span: nat, late: nat -> nat, t0: int, measured: int, debt: nat, sleep: nat)
    requires |run.durations| < INT_MAX && Paced(run.durations, run.spans, run.debt, run.pace - t0, late)
    requires Ascending(Instants(run.frames), t0, run.pace + span)
    requires Timely(Instants(run.frames), rate, run.durations, run.spans, late, t0)
    requires IsInt(measured) && measured <= span && Settled(measured, run.debt, debt, sleep)
    requires (measured < 0 ==> INT_MAX < span) && (span <= INT_MAX ==> measured == span)
    ensures var ds, spans := run.durations + [measured], run.spans + [span];
      && Paced(ds, spans, debt, run.pace + span + sleep * 1000 + late(|run.durations|) - t0, late)
      && Sum(spans) == Sum(run.spans) + span && Timely(Instants(run.frames), rate, ds, spans, late, t0)
  {
    PacedStep(run.durations, run.spans, run.debt, run.pace - t0, late, measured, span, debt, sleep,
              run.pace + span + sleep * 1000 + late(|run.durations|) - t0);
    StaysTimely(Instants(run.frames), rate, run.durations, run.spans, run.debt, run.pace, late, t0, measured, span);
  }

  /** One pass through the sending loop: a second's frames, their measured time and the closing sleep. */
  method SecondPeriod(run: Run, stream: TgStream, packBuf: array<Byte>, attempts: seq<Attempt>,
                      counter0: int, late: nat -> nat, ghost t0: int)
    returns (run': Run, counter: int)
    requires packBuf.Length == HDR_LEN && |run.durations| < INT_MAX
    requires Conforms(run, stream, attempts, late, t0) && run.ending.Stopped? && counter0 == |run.frames|
    modifies packBuf
    ensures Conforms(run', stream, attempts, late, t0) && !run'.ending.OverSend? && counter == |run'.frames|
    ensures run'.ending.Stopped? ==> |run'.durations| == |run.durations| + 1
  {
    var sent, pos, later, stats, naps, done :=
      SendSecond(stream.profile, packBuf, attempts, run.used, counter0, run.pace, run.stream.stats);
    AccountedJoin(run.frames, 1, sent, attempts, run.used, pos, stream.stats, run.stream.stats, stats);
    SecondAdded(run, sent, pos, later, CDiv(stream.profile.rate, 50), stream, attempts, late, t0);
    run' := run.(frames := run.frames + sent, used := pos, naps := run.naps + naps,
                 stream := stream.(stats := stats));
    counter := counter0 + |sent|;
    if !done {
      run' := run'.(ending := Observed);
      CutShort(run, run', later, stream, attempts, late, t0);
    } else {
      run' := CloseSecond(run', stream.profile.rate, later, late, t0);
      SecondConforms(run, run', stream, attempts, late, t0);
    }
  }

  lemma StartsConforming(run: Run, stream: TgStream, attempts: seq<Attempt>, late: nat -> nat, t0: int)
    requires run == Run(stream, [], [], [], 0, t0, 0, 0, Stopped)
    ensures Conforms(run, stream, attempts, late, t0)
  {
  }

  /** The sending loop; its parameters are the burst sender's. */
  method BitrateLoop(stream: TgStream, attempts: seq<Attempt>, alarm: nat, late: nat -> nat, t0: int)
    returns (run: Run)
    requires alarm <= INT_MAX
    ensures Conforms(run, stream, attempts, late, t0) && !run.ending.OverSend?
    ensures run.ending.Stopped? ==> |run.durations| == alarm
  {
    var packBuf := new Byte[HDR_LEN](_ => 0);
    var nDuration, counter := 0, 0;
    run := Run(stream, [], [], [], 0, t0, 0, 0, Stopped);
    StartsConforming(run, stream, attempts, late, t0);
    while nDuration < alarm
      invariant nDuration == |run.durations| <= alarm && counter == |run.frames|
      invariant Conforms(run, stream, attempts, late, t0) && run.ending.Stopped?
    {
      run, counter := SecondPeriod(run, stream, packBuf, attempts, counter, late, t0);
      if run.ending.Observed? { return; }
      nDuration := nDuration + 1;
    }
  }

  method SendBitrateData(sockfd: int, streamId: int, found: Option<TgStream>,
                         attempts: seq<Attempt>, alarm: nat, late: nat -> nat, t0: int)
    returns (r: Outcome)
    requires alarm <= INT_MAX
    ensures r.Invalid? <==> Refused(sockfd, streamId, found)
    ensures r.Complete? ==> Conforms(r.run, found.value, attempts, late, t0)
    ensures r.Complete? && r.run.ending.Stopped? ==> |r.run.durations| == alarm
  {
    if sockfd < 0 || streamId < 0 { return Invalid; }
    if found.None? { return Invalid; }
    var prof := found.value.profile;
    if prof.rate == 0 || prof.duration == 0 { return Invalid; }
    if prof.pksize * prof.rate * 8 > WFA_SEND_FIX_BITRATE_MAX { return Invalid; }
    var run := BitrateLoop(found.value, attempts, alarm, late, t0);
    return Complete(run);
  }

  /** The bitrate debt is the largest excess of any suffix too, and the pacing bounds hold for every run
      with 5 ms instead of 1 and with the drift of its repayments, which is 0 if it makes none. */
  lemma BitratePacing(run: Run, stream: TgStream, attempts: seq<Attempt>, late: nat -> nat, t0: int)
    requires Conforms(run, stream, attempts, late, t0) && AllFitInt(run.spans)
    ensures run.debt == Debt(run.durations, SECOND)
    ensures forall k :: 0 <= k <= |run.durations| ==> Excess(run.durations[k..], SECOND) <= run.debt
    ensures exists k :: 0 <= k <= |run.durations| && Excess(run.durations[k..], SECOND) == run.debt
    ensures var n, due := |run.durations|, |run.durations| * SECOND + run.debt + TotalDrift(run.durations);
      due <= run.pace - t0 <= due + 5000 * n + Lateness(late, n)
    ensures NeverRepays(run.durations) ==> TotalDrift(run.durations) == 0
  {
    if NeverRepays(run.durations) { NoRepaymentNoDrift(run.durations); }
    TimesIsProduct(|run.durations|, SECOND);
    DebtIsLargestSuffixExcess(run.durations, SECOND);
  }

  /** The pacing of the frames themselves: they leave in order, and frame j, counted from 0, leaves when
      j / (rate + 1) seconds, their debt and the drift of their repayments are over, and not later than its second's
      frames are all sent. */
  lemma BitrateFramesPaced(run: Run, stream: TgStream, attempts: seq<Attempt>, late: nat -> nat, t0: int, j: nat)
    requires Conforms(run, stream, attempts, late, t0) && j < |run.frames|
    ensures stream.profile.rate >= 0
    ensures var k, at := j / (stream.profile.rate + 1), run.frames[j].at;
      && 0 <= k <= |run.durations|
      && t0 <= at <= Clock(run, attempts)
      && (AllFitInt(run.spans) ==>
            var due := t0 + k * SECOND + Debt(run.durations[..k], SECOND) + TotalDrift(run.durations[..k]);
            due <= at && (k < |run.durations| ==> at <= due + 5000 * k + Lateness(late, k) + run.spans[k]))
    ensures forall i :: 0 <= i < j ==> run.frames[i].at <= run.frames[j].at
  {
    var rate := stream.profile.rate;
    TimesIsProduct(|run.durations|, Max(0, rate + 1));
    TimesIsProduct(|run.durations| + 1, Max(0, rate + 1));
    var ats := Instants(run.frames);
    QuotientIsDivision(j, rate + 1);
    assert InSecond(Quotient(j, rate + 1), ats[j], run.durations, run.spans, late, t0);
    TimesIsProduct(Quotient(j, rate + 1), SECOND);
    forall i | 0 <= i < j ensures run.frames[i].at <= run.frames[j].at { assert ats[i] <= ats[j]; }
  }

  /** Gap-free sending: the frames of a run carry 1, 2, ..., N, and txFrames and txPayloadBytes grow by
      exactly what left. Every completed second is worth rate + 1 frames: no failure makes the sender skip
      or repeat one. */
  lemma BitrateGapFree(run: Run, stream: TgStream, attempts: seq<Attempt>, late: nat -> nat, t0: int)
    requires Conforms(run, stream, attempts, late, t0)
    requires 0 <= stream.stats.txFrames < TWO_32
    ensures forall j :: 0 <= j < |run.frames| ==> run.frames[j].sn == j + 1
    ensures var n, frags := |run.durations|, Max(0, stream.profile.rate + 1);
      if run.ending.Observed? then n * frags <= |run.frames| < n * frags + frags else |run.frames| == n * frags
    ensures run.stream == stream.(stats := stream.stats.(
      txFrames := ToUInt(stream.stats.txFrames + |run.frames|),
      txPayloadBytes := stream.stats.txPayloadBytes + Sum(Carried(attempts[..run.used]))))
  {
    GapFree(run.frames, attempts[..run.used], stream.stats, run.stream.stats);
    TimesIsProduct(|run.durations|, Max(0, stream.profile.rate + 1));
  }

  /** The bitrate test admits one frame a second too little: an accepted run can send WFA_SEND_FIX_BITRATE_MAX
      bits a second and one frame more, if no frame exceeds pksize. */
  lemma BitrateWithinLimit(run: Run, stream: TgStream, attempts: seq<Attempt>, late: nat -> nat, t0: int)
    requires Conforms(run, stream, attempts, late, t0) && !run.ending.Observed?
    requires var prof := stream.profile;
      prof.pksize >= 0 && prof.pksize * prof.rate * 8 <= WFA_SEND_FIX_BITRATE_MAX
      && forall j :: 0 <= j < |run.frames| ==> run.frames[j].bytes <= prof.pksize
    ensures 8 * Sum(Sizes(run.frames)) <= |run.durations| * (WFA_SEND_FIX_BITRATE_MAX + 8 * stream.profile.pksize)
  {
    var prof, n := stream.profile, |run.durations|;
    SumAtMost(Sizes(run.frames), prof.pksize);
    TimesIsProduct(n, Max(0, prof.rate + 1));
    LimitPerSecond(n, prof.rate, prof.pksize);
  }

  lemma LimitPerSecond(n: nat, rate: int, pksize: nat)
    requires pksize * rate * 8 <= WFA_SEND_FIX_BITRATE_MAX
    ensures 8 * (n * Max(0, rate + 1) * pksize) <= n * (WFA_SEND_FIX_BITRATE_MAX + 8 * pksize)
  {
    ProductNonNegative(n, WFA_SEND_FIX_BITRATE_MAX - pksize * rate * 8);
    assert n * (WFA_SEND_FIX_BITRATE_MAX - pksize * rate * 8) == n * WFA_SEND_FIX_BITRATE_MAX - n * (pksize * rate * 8);
    assert n * (rate + 1) * pksize * 8 == n * (pksize * rate * 8) + n * (8 * pksize);
    ProductNonNegative(n, WFA_SEND_FIX_BITRATE_MAX + 8 * pksize);
  }
}
