/** inc/wfa_tg.h: streams, profiles and statistics, and what a sender puts on the wire. */
module Traffic {
  import opened CInt
  import opened Miscs
  import opened Options

  const WFA_SEND_FIX_BITRATE_MAX: int := 25 * 1024 * 1024
  const HDR_LEN: nat := 20
  const SN_OFFSET: nat := 8

  datatype Direction = NoDirection | DirectSend | DirectRecv

  datatype ProfileKind = FileTx | Mcast | Iptv | Transc | CaliRtd | Uapsd | Burst | OtherProfile

  datatype TgProfile = TgProfile(
    profile: ProfileKind, direction: Direction, rate: int, duration: int, pksize: int,
    burstperiodicity: int, burstfrags: int)

  datatype TgStats = TgStats(
    txFrames: int, rxFrames: int, txPayloadBytes: int, rxPayloadBytes: int, lostPkts: int)

  datatype TgStream = TgStream(
    id: int, tblidx: int, lastPktSN: int, active: bool, profile: TgProfile, stats: TgStats)

  const ZERO_STATS := TgStats(0, 0, 0, 0, 0)
  const ZERO_PROFILE := TgProfile(OtherProfile, NoDirection, 0, 0, 0, 0, 0)
  const ZERO_STREAM := TgStream(0, 0, 0, false, ZERO_PROFILE, ZERO_STATS)

  /** One call of sendto: the time until it returns, and the bytes it took or its failure. */
  datatype SendResult = Sent(bytes: nat) | Failed
  datatype Attempt = Attempt(lag: nat, result: SendResult)

  /** A frame that left: its sequence number, the instant of its timestamp, and its size. */
  datatype Frame = Frame(sn: int, at: int, bytes: nat)

  /** The payload sizes of the successful attempts, in order. */
  function Carried(attempts: seq<Attempt>): seq<nat> {
    if attempts == [] then []
    else
      var last := attempts[|attempts| - 1].result;
      Carried(attempts[..|attempts| - 1]) + (if last.Sent? then [last.bytes] else [])
  }

  /** Time spent on attempts: each costs its lag, and a failed one is followed by a 1 ms sleep. */
  function TimeSpent(attempts: seq<Attempt>): nat {
    if attempts == [] then 0
    else
      var last := attempts[|attempts| - 1];
      TimeSpent(attempts[..|attempts| - 1]) + last.lag + if last.result.Failed? then 1000 else 0
  }

  /** What an attempt at a time puts on the wire. */
  function Departing(attempt: Attempt, sn: int, at: int): seq<Frame> {
    if attempt.result.Sent? then [Frame(sn, at, attempt.result.bytes)] else []
  }

  /** The 10 ms rests taken on the way: with a step, one whenever the index of the last frame sent, counted
      from 0, is the next multiple of it. */
  function Naps(step: Option<int>, attempts: seq<Attempt>): nat {
    if attempts == [] || step.None? then 0
    else
      var before := Naps(step, attempts[..|attempts| - 1]);
      before + if |Carried(attempts)| - 1 == Times(before + 1, step.value) then 1 else 0
  }

  /** When the frames leave that successful attempts from t0 on send: each at the end of the time spent on the
      attempts before it, and of the rests. */
  function Stamps(step: Option<int>, t0: int, attempts: seq<Attempt>): seq<int> {
    if attempts == [] then []
    else
      var front := attempts[..|attempts| - 1];
      Stamps(step, t0, front)
      + if attempts[|front|].result.Sent? then [t0 + TimeSpent(front) + 10_000 * Naps(step, front)] else []
  }

  function Instants(frames: seq<Frame>): seq<int> { seq(|frames|, i requires 0 <= i < |frames| => frames[i].at) }

  /** The instants never decrease, and none is before t0 or after now. */
  ghost predicate Ascending(ats: seq<int>, t0: int, now: int) {
    && (forall j :: 0 <= j < |ats| ==> t0 <= ats[j] <= now)
    && (forall i, j :: 0 <= i < j < |ats| ==> ats[i] <= ats[j])
  }

  lemma {:induction false} StampsAscend(step: Option<int>, t0: int, attempts: seq<Attempt>)
    ensures Ascending(Stamps(step, t0, attempts), t0, t0 + TimeSpent(attempts) + 10_000 * Naps(step, attempts))
  {
    if attempts != [] { StampsAscend(step, t0, attempts[..|attempts| - 1]); }
  }

  function Sum(xs: seq<int>): int {
    if xs == [] then 0 else Sum(xs[..|xs| - 1]) + xs[|xs| - 1]
  }

  lemma {:induction false} SumAtMost(xs: seq<int>, bound: nat)
    requires forall i :: 0 <= i < |xs| ==> xs[i] <= bound
    ensures Sum(xs) <= |xs| * bound
  {
    if xs != [] { SumAtMost(xs[..|xs| - 1], bound); }
  }

  function Sizes(frames: seq<Frame>): seq<nat> { seq(|frames|, i requires 0 <= i < |frames| => frames[i].bytes) }

  /** hdr[8..20] of a frame on the wire: sequence number and timestamp, big-endian. */
  function Wire(f: Frame): seq<Byte> {
    BigEndian(f.sn) + BigEndian(ToTimeVal(f.at).sec) + BigEndian(ToTimeVal(f.at).usec)
  }

  /** The header carries the sequence number, the second and the microsecond of the frame, in this order. */
  lemma WireReads(f: Frame)
    requires IsInt(f.sn) && INT_MIN * MICROSECONDS <= f.at < (INT_MAX + 1) * MICROSECONDS
    ensures |Wire(f)| == 12 && FromBigEndian(Wire(f)[..4]) == f.sn
    ensures var sec, usec := FromBigEndian(Wire(f)[4..8]), FromBigEndian(Wire(f)[8..]);
      0 <= usec < MICROSECONDS && f.at == sec * MICROSECONDS + usec
  {
    var tv := ToTimeVal(f.at);
    assert Wire(f)[..4] == BigEndian(f.sn) && Wire(f)[4..8] == BigEndian(tv.sec) && Wire(f)[8..] == BigEndian(tv.usec);
    BigEndianRoundTrip(f.sn);
    BigEndianRoundTrip(tv.sec);
    BigEndianRoundTrip(tv.usec);
  }

  /** Frames numbered first, first + 1, ... with no gap and no repeat. */
  ghost predicate Numbered(frames: seq<Frame>, first: int) {
    forall j :: 0 <= j < |frames| ==> frames[j].sn == first + j
  }

  function AddSent(st: TgStats, bytes: nat): TgStats {
    st.(txFrames := ToUInt(st.txFrames + 1), txPayloadBytes := st.txPayloadBytes + bytes)
  }

  /** The statistics after frames of the given sizes were sent. */
  function Credit(st: TgStats, sizes: seq<nat>): TgStats {
    if sizes == [] then st
    else AddSent(Credit(st, sizes[..|sizes| - 1]), sizes[|sizes| - 1])
  }

  /** txFrames grows by the number of frames and txPayloadBytes by the sum of their sizes. */
  lemma {:induction false} CreditTotals(st: TgStats, sizes: seq<nat>)
    requires 0 <= st.txFrames < TWO_32
    ensures Credit(st, sizes) == st.(txFrames := ToUInt(st.txFrames + |sizes|),
                                     txPayloadBytes := st.txPayloadBytes + Sum(sizes))
  {
    if sizes != [] { CreditTotals(st, sizes[..|sizes| - 1]); }
  }

  /** Fills in the counter and the timestamp of the header: the frame as it leaves now. */
  method StampHeader(packBuf: array<Byte>, counter: int, now: int) returns (f: Frame)
    requires packBuf.Length == HDR_LEN
    modifies packBuf
    ensures f == Frame(counter, now, 0)
    ensures packBuf[..] == old(packBuf[..SN_OFFSET]) + Wire(f)
  {
    var stime := ToTimeVal(now);
    Int2BuffBigEndian(counter, packBuf, SN_OFFSET);
    Int2BuffBigEndian(stime.sec, packBuf, 12);
    Int2BuffBigEndian(stime.usec, packBuf, 16);
    f := Frame(counter, now, 0);
  }

  /** What left is numbered from first on and is exactly what the attempts carried; the statistics agree. */
  ghost predicate Accounted(frames: seq<Frame>, first: int, attempts: seq<Attempt>, before: TgStats, stats: TgStats) {
    Numbered(frames, first) && Sizes(frames) == Carried(attempts) && stats == Credit(before, Sizes(frames))
  }

  /** One more attempt: a success appends its frame, a failure changes nothing but the time. */
  lemma AccountedOne(frames: seq<Frame>, first: int, attempts: seq<Attempt>, before: TgStats, stats: TgStats,
                     attempt: Attempt, f: Frame)
    requires Accounted(frames, first, attempts, before, stats)
    requires f.sn == first + |frames|
    ensures match attempt.result
            case Sent(bytes) =>
              Accounted(frames + [f.(bytes := bytes)], first, attempts + [attempt], before, AddSent(stats, bytes))
            case Failed => Accounted(frames, first, attempts + [attempt], before, stats)
    ensures TimeSpent(attempts + [attempt])
         == TimeSpent(attempts) + attempt.lag + if attempt.result.Failed? then 1000 else 0
  {
    assert (attempts + [attempt])[..|attempts|] == attempts;
    if attempt.result.Sent? {
      var frames' := frames + [f.(bytes := attempt.result.bytes)];
      CreditOne(before, Sizes(frames), attempt.result.bytes);
      assert Sizes(frames') == Sizes(frames) + [attempt.result.bytes];
    }
  }

  /** The frames carry 1, 2, ..., N, and the statistics grow by exactly what left. */
  lemma GapFree(frames: seq<Frame>, attempts: seq<Attempt>, before: TgStats, stats: TgStats)
    requires Accounted(frames, 1, attempts, before, stats) && 0 <= before.txFrames < TWO_32
    ensures forall j :: 0 <= j < |frames| ==> frames[j].sn == j + 1
    ensures stats == before.(txFrames := ToUInt(before.txFrames + |frames|),
                             txPayloadBytes := before.txPayloadBytes + Sum(Carried(attempts)))
  {
    CreditTotals(before, Sizes(frames));
  }

  lemma SliceOne(attempts: seq<Attempt>, i: nat, j: nat)
    requires i <= j < |attempts|
    ensures attempts[i..j + 1] == attempts[i..j] + [attempts[j]]
    ensures attempts[i..j + 1][..j - i] == attempts[i..j]
  {
  }

  /** One more attempt, made at now: a frame that leaves is stamped with that. */
  lemma StampedOne(step: Option<int>, t0: int, frames: seq<Frame>, tried: seq<Attempt>, attempt: Attempt,
                   now: int, sn: int)
    requires Instants(frames) == Stamps(step, t0, tried)
    requires now == t0 + TimeSpent(tried) + 10_000 * Naps(step, tried)
    ensures Instants(frames + Departing(attempt, sn, now)) == Stamps(step, t0, tried + [attempt])
  {
    assert (tried + [attempt])[..|tried|] == tried;
    assert Instants(frames + Departing(attempt, sn, now))
        == Instants(frames) + if attempt.result.Sent? then [now] else [];
  }

  lemma AccountedJoin(frames: seq<Frame>, first: int, sent: seq<Frame>, attempts: seq<Attempt>, i: nat, j: nat,
                      before: TgStats, stats: TgStats, stats': TgStats)
    requires i <= j <= |attempts|
    requires Accounted(frames, first, attempts[..i], before, stats)
    requires Accounted(sent, first + |frames|, attempts[i..j], stats, stats')
    ensures Accounted(frames + sent, first, attempts[..j], before, stats')
    ensures TimeSpent(attempts[..j]) == TimeSpent(attempts[..i]) + TimeSpent(attempts[i..j])
  {
    CarriedJoin(attempts, i, j);
    CreditJoin(before, Sizes(frames), Sizes(sent));
    assert Sizes(frames + sent) == Sizes(frames) + Sizes(sent);
  }

  lemma CarriedJoin(attempts: seq<Attempt>, i: nat, j: nat)
    requires i <= j <= |attempts|
    ensures Carried(attempts[..j]) == Carried(attempts[..i]) + Carried(attempts[i..j])
    ensures TimeSpent(attempts[..j]) == TimeSpent(attempts[..i]) + TimeSpent(attempts[i..j])
    decreases j
  {
    if i < j {
      CarriedJoin(attempts, i, j - 1);
      assert attempts[..j][..j - 1] == attempts[..j - 1];
      assert attempts[i..j][..j - i - 1] == attempts[i..j - 1];
    } else {
      assert attempts[i..j] == [];
    }
  }

  lemma CreditOne(st: TgStats, sizes: seq<nat>, size: nat)
    ensures Credit(st, sizes + [size]) == AddSent(Credit(st, sizes), size)
  {
    assert (sizes + [size])[..|sizes|] == sizes;
  }

  lemma {:induction false} CreditJoin(st: TgStats, a: seq<nat>, b: seq<nat>)
    ensures Credit(st, a + b) == Credit(Credit(st, a), b)
    decreases |b|
  {
    if b == [] {
      assert a + b == a;
    } else {
      var front, last := b[..|b| - 1], b[|b| - 1];
      CreditJoin(st, a, front);
      CreditOne(st, a + front, last);
      assert a + b == (a + front) + [last];
    }
  }

  /** One trip through a sender's inner loop: stamps the counter and the clock, calls sendto, counts a success. */
  method TrySend(packBuf: array<Byte>, counter: int, sent: seq<Frame>, attempts: seq<Attempt>,
                 ghost start: nat, pos: nat, now0: int, ghost stats0: TgStats, stats: TgStats)
    returns (sent': seq<Frame>, now: int, stats': TgStats, ok: bool)
    requires packBuf.Length == HDR_LEN && start <= pos < |attempts|
    requires Accounted(sent, counter - |sent|, attempts[start..pos], stats0, stats)
    modifies packBuf
    ensures ok <==> attempts[pos].result.Sent?
    ensures sent' == sent + Departing(attempts[pos], counter, now0)
    ensures packBuf[..] == old(packBuf[..SN_OFFSET]) + Wire(Frame(counter, now0, 0))
    ensures Accounted(sent', counter - |sent|, attempts[start..pos + 1], stats0, stats')
    ensures now == now0 + TimeSpent(attempts[start..pos + 1]) - TimeSpent(attempts[start..pos])
  {
    var frame := StampHeader(packBuf, counter, now0);
    var attempt := attempts[pos];
    SliceOne(attempts, start, pos);
    AccountedOne(sent, counter - |sent|, attempts[start..pos], stats0, stats, attempt, frame);
    sent', stats', ok := sent, stats, attempt.result.Sent?;
    now := now0 + attempt.lag;
    if ok {
      sent' := sent + [frame.(bytes := attempt.result.bytes)];
      stats' := AddSent(stats, attempt.result.bytes);
    } else {
      now := now + 1000;
    }
  }
}
