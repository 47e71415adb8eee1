/** wfaRecvFile (lib/wfa_tg.c): loss derived from sequence numbers, and its accounting end to end. */
module Receiver {
  import opened CInt
  import opened Miscs
  import opened Options
  import opened Traffic
  import opened PacedRun
  import BurstSender
  import BitrateSender

  /** What the socket delivers: hdr[8..20] of a frame, as far as it was received, and its size. The
      receive buffer is cleared before. */
  datatype Packet = Packet(hdr: seq<Byte>, bytes: nat) {
    function SeqNo(): int { FromBigEndian((hdr + [0, 0, 0, 0])[..4]) }
  }

  /** The stream after one packet; lostPkts and rxFrames are unsigned ints. */
  function Counted(st: TgStream, p: Packet): TgStream {
    st.(lastPktSN := p.SeqNo(),
        stats := st.stats.(rxFrames := ToUInt(st.stats.rxFrames + 1),
                           rxPayloadBytes := st.stats.rxPayloadBytes + p.bytes,
                           lostPkts := ToUInt(st.stats.lostPkts + p.SeqNo() - 1 - st.lastPktSN)))
  }

  function CountedAll(st: TgStream, ps: seq<Packet>): TgStream {
    if ps == [] then st else Counted(CountedAll(st, ps[..|ps| - 1]), ps[|ps| - 1])
  }

  /** One call: a timeout (no packet) or an unknown stream changes nothing. */
  method RecvFile(found: Option<TgStream>, arrival: Option<Packet>) returns (nbytes: int, stream: Option<TgStream>)
    ensures found.None? || arrival.None? ==> nbytes == -1 && stream == found
    ensures found.Some? && arrival.Some? ==>
      nbytes == arrival.value.bytes && stream == Some(Counted(found.value, arrival.value))
  {
    if found.None? || arrival.None? { return -1, found; }
    var myStream, p := found.value, arrival.value;
    var stats := myStream.stats;
    stats := stats.(rxFrames := ToUInt(stats.rxFrames + 1));
    stats := stats.(rxPayloadBytes := stats.rxPayloadBytes + p.bytes);
    var packBuf := p.hdr + [0, 0, 0, 0];
    var lostPkts := ToInt(FromBigEndian(packBuf[..4]) - 1 - myStream.lastPktSN);
    stats := stats.(lostPkts := ToUInt(stats.lostPkts + lostPkts));
    myStream := myStream.(stats := stats, lastPktSN := FromBigEndian(packBuf[..4]));
    return p.bytes, Some(myStream);
  }

  /** Whatever arrives, in whatever order and however often: the received and the lost frames
      together account for the advance of the sequence number. */
  lemma {:induction false} ReceivedPlusLost(st: TgStream, ps: seq<Packet>)
    ensures var r := CountedAll(st, ps);
      ToUInt(r.stats.rxFrames + r.stats.lostPkts - r.lastPktSN)
      == ToUInt(st.stats.rxFrames + st.stats.lostPkts - st.lastPktSN)
  {
    if ps != [] {
      var front, p := CountedAll(st, ps[..|ps| - 1]), ps[|ps| - 1];
      ReceivedPlusLost(st, ps[..|ps| - 1]);
      AddModulo(front.stats.rxFrames + 1, front.stats.lostPkts + p.SeqNo() - 1 - front.lastPktSN, -p.SeqNo());
    }
  }

  function Loads(ps: seq<Packet>): seq<nat> { seq(|ps|, i requires 0 <= i < |ps| => ps[i].bytes) }

  /** Whatever arrives, rxPayloadBytes grows by the sum of the sizes. */
  lemma {:induction false} PayloadIsSummed(st: TgStream, ps: seq<Packet>)
    ensures CountedAll(st, ps).stats.rxPayloadBytes == st.stats.rxPayloadBytes + Sum(Loads(ps))
  {
    if ps != [] {
      var front := ps[..|ps| - 1];
      PayloadIsSummed(st, front);
      assert Loads(ps)[..|front|] == Loads(front);
    }
  }

  lemma AddModulo(a: int, b: int, c: int)
    ensures ToUInt(ToUInt(a) + ToUInt(b) + c) == ToUInt(a + b + c)
  {
    var ka, kb := a / TWO_32, b / TWO_32;
    assert ToUInt(a) + ToUInt(b) + c == (a + b + c) - (ka + kb) * TWO_32;
    SubtractMultiple(a + b + c, ka + kb);
  }

  lemma SubtractMultiple(x: int, k: int)
    ensures ToUInt(x - k * TWO_32) == ToUInt(x)
  {
  }

  // An in-order channel that drops frames: kept[j] says whether frame j arrives.

  function Delivered(frames: seq<Frame>, kept: seq<bool>): seq<Packet>
    requires |frames| == |kept|
  {
    if frames == [] then []
    else
      var n := |frames| - 1;
      Delivered(frames[..n], kept[..n]) + if kept[n] then [Packet(Wire(frames[n]), frames[n].bytes)] else []
  }

  /** The sequence number of the last frame that arrived, 0 if none did. */
  function LastKept(kept: seq<bool>): (r: nat)
    ensures r <= |kept|
  {
    if kept == [] then 0 else if kept[|kept| - 1] then |kept| else LastKept(kept[..|kept| - 1])
  }

  /** The sizes, summed, of the frames that arrive, or of those that do not. */
  function BytesWhere(frames: seq<Frame>, kept: seq<bool>, arrives: bool): nat
    requires |frames| == |kept|
  {
    if frames == [] then 0
    else
      var n := |frames| - 1;
      BytesWhere(frames[..n], kept[..n], arrives) + if kept[n] == arrives then frames[n].bytes else 0
  }

  function Arrivals(kept: seq<bool>): nat {
    if kept == [] then 0 else Arrivals(kept[..|kept| - 1]) + if kept[|kept| - 1] then 1 else 0
  }

  /** How many of the sequence numbers 1, ..., upTo did not arrive. */
  function Missing(kept: seq<bool>, upTo: nat): nat
    requires upTo <= |kept|
  {
    if upTo == 0 then 0 else Missing(kept, upTo - 1) + if kept[upTo - 1] then 0 else 1
  }

  lemma {:induction false} MissingOfPrefix(kept: seq<bool>, n: nat, upTo: nat)
    requires upTo <= n <= |kept|
    ensures Missing(kept[..n], upTo) == Missing(kept, upTo)
  {
    if upTo > 0 { MissingOfPrefix(kept, n, upTo - 1); }
  }

  lemma {:induction false} MissingOrArrived(kept: seq<bool>)
    ensures LastKept(kept) <= |kept|
    ensures Arrivals(kept) + Missing(kept, LastKept(kept)) == LastKept(kept)
    ensures Arrivals(kept) + Missing(kept, |kept|) == |kept|
    ensures LastKept(kept) == 0 <==> Arrivals(kept) == 0
  {
    if kept != [] {
      var n := |kept| - 1;
      MissingOrArrived(kept[..n]);
      MissingOfPrefix(kept, n, n);
      MissingOfPrefix(kept, n, LastKept(kept[..n]));
    }
  }

  lemma {:induction false} CountedTotals(st: TgStream, ps: seq<Packet>)
    requires 0 <= st.stats.rxFrames < TWO_32 && 0 <= st.stats.lostPkts < TWO_32
    ensures CountedAll(st, ps).stats.rxFrames == ToUInt(st.stats.rxFrames + |ps|)
    ensures 0 <= CountedAll(st, ps).stats.lostPkts < TWO_32
  {
    if ps != [] {
      CountedTotals(st, ps[..|ps| - 1]);
      AddModulo(st.stats.rxFrames + |ps| - 1, 0, 1);
    }
  }

  lemma WireSeqNo(f: Frame)
    requires IsInt(f.sn)
    ensures Packet(Wire(f), f.bytes).SeqNo() == f.sn
  {
    assert (Wire(f) + [0, 0, 0, 0])[..4] == BigEndian(f.sn);
    BigEndianRoundTrip(f.sn);
  }

  lemma {:induction false} DeliveredShape(frames: seq<Frame>, kept: seq<bool>)
    requires |frames| == |kept| <= INT_MAX && Numbered(frames, 1)
    ensures var ps := Delivered(frames, kept);
      |ps| == Arrivals(kept) && (ps != [] ==> ps[|ps| - 1].SeqNo() == LastKept(kept))
  {
    if frames != [] {
      DeliveredShape(frames[..|frames| - 1], kept[..|frames| - 1]);
      WireSeqNo(frames[|frames| - 1]);
    }
  }

  lemma LoadsOne(ps: seq<Packet>, p: Packet)
    ensures Sum(Loads(ps + [p])) == Sum(Loads(ps)) + p.bytes
  {
    assert Loads(ps + [p])[..|ps|] == Loads(ps);
  }

  lemma {:induction false} DeliveredBytes(frames: seq<Frame>, kept: seq<bool>)
    requires |frames| == |kept|
    ensures Sum(Loads(Delivered(frames, kept))) == BytesWhere(frames, kept, true)
  {
    if frames != [] {
      var n := |frames| - 1;
      var ps := Delivered(frames[..n], kept[..n]);
      DeliveredBytes(frames[..n], kept[..n]);
      LoadsOne(ps, Packet(Wire(frames[n]), frames[n].bytes));
      assert ps + [] == ps;
    }
  }

  /** A frame's bytes arrive or do not. */
  lemma {:induction false} ArrivingOrNot(frames: seq<Frame>, kept: seq<bool>)
    requires |frames| == |kept|
    ensures BytesWhere(frames, kept, true) + BytesWhere(frames, kept, false) == Sum(Sizes(frames))
  {
    if frames != [] {
      var n := |frames| - 1;
      ArrivingOrNot(frames[..n], kept[..n]);
      assert Sizes(frames)[..n] == Sizes(frames[..n]);
    }
  }

  lemma ModuloSolve(rx: int, lost: int, last: int, rx0: int, lost0: int, last0: int, arrivals: int)
    requires ToUInt(rx + lost - last) == ToUInt(rx0 + lost0 - last0)
    requires rx == ToUInt(rx0 + arrivals) && 0 <= lost < TWO_32
    ensures lost == ToUInt(lost0 + last - arrivals - last0)
  {
    var k := (rx0 + arrivals) / TWO_32;
    var j := (rx + lost - last) / TWO_32 - (rx0 + lost0 - last0) / TWO_32;
    assert lost == (lost0 + last - arrivals - last0) - (0 - k - j) * TWO_32;
    SubtractMultiple(lost0 + last - arrivals - last0, 0 - k - j);
  }

  /** r is the stream after an in-order channel delivered the kept frames. */
  ghost predicate After(r: TgStream, st: TgStream, frames: seq<Frame>, kept: seq<bool>) {
    |frames| == |kept| <= INT_MAX && Numbered(frames, 1) && r == CountedAll(st, Delivered(frames, kept))
  }

  lemma InOrderTotals(frames: seq<Frame>, kept: seq<bool>, st: TgStream, r: TgStream)
    requires After(r, st, frames, kept)
    requires 0 <= st.stats.rxFrames < TWO_32 && 0 <= st.stats.lostPkts < TWO_32
    ensures r.stats.rxFrames == ToUInt(st.stats.rxFrames + Arrivals(kept)) && 0 <= r.stats.lostPkts < TWO_32
    ensures if Arrivals(kept) == 0 then r == st else r.lastPktSN == LastKept(kept)
    ensures ToUInt(r.stats.rxFrames + r.stats.lostPkts - r.lastPktSN)
         == ToUInt(st.stats.rxFrames + st.stats.lostPkts - st.lastPktSN)
  {
    DeliveredShape(frames, kept);
    CountedTotals(st, Delivered(frames, kept));
    ReceivedPlusLost(st, Delivered(frames, kept));
  }

  /** What the receiver holds after an in-order run: if anything arrived, lostPkts grew by exactly
      the missing sequence numbers, less the lastPktSN it started with. */
  lemma InOrderLoss(frames: seq<Frame>, kept: seq<bool>, st: TgStream, r: TgStream)
    requires After(r, st, frames, kept)
    requires 0 <= st.stats.rxFrames < TWO_32 && 0 <= st.stats.lostPkts < TWO_32
    ensures r.stats.rxFrames == ToUInt(st.stats.rxFrames + Arrivals(kept))
    ensures if Arrivals(kept) == 0 then r == st
            else && r.lastPktSN == LastKept(kept)
                 && r.stats.lostPkts == ToUInt(st.stats.lostPkts + Missing(kept, LastKept(kept)) - st.lastPktSN)
  {
    InOrderTotals(frames, kept, st, r);
    MissingOrArrived(kept);
    if Arrivals(kept) > 0 {
      ModuloSolve(r.stats.rxFrames, r.stats.lostPkts, r.lastPktSN,
                  st.stats.rxFrames, st.stats.lostPkts, st.lastPktSN, Arrivals(kept));
    }
  }

  lemma OnlyZeroShift(m: int, shift: int)
    requires 0 <= m <= INT_MAX && IsInt(shift)
    ensures ToUInt(m - shift) == m <==> shift == 0
  {
  }

  /** On a stream whose statistics were just reset, the loss count is the number of missing sequence
      numbers if and only if lastPktSN starts at 0: receive-start resets the statistics, but only
      configuring the stream afresh resets lastPktSN. */
  lemma LossIsExactIffFresh(frames: seq<Frame>, kept: seq<bool>, st: TgStream, r: TgStream)
    requires After(r, st, frames, kept) && Arrivals(kept) > 0
    requires st.stats == ZERO_STATS && IsInt(st.lastPktSN)
    ensures r.stats.lostPkts == Missing(kept, LastKept(kept)) <==> st.lastPktSN == 0
  {
    InOrderLoss(frames, kept, st, r);
    MissingOrArrived(kept);
    OnlyZeroShift(Missing(kept, LastKept(kept)), st.lastPktSN);
  }

  /** The receiver's statistics agree with what the channel dropped, in frames and in bytes. */
  ghost predicate LossAccounted(r: TgStream, frames: seq<Frame>, kept: seq<bool>, tx: TgStats)
    requires |frames| == |kept|
  {
    && 0 <= r.lastPktSN <= |kept|
    && r.stats.rxFrames + r.stats.lostPkts == r.lastPktSN <= tx.txFrames
    && r.stats.lostPkts == Missing(kept, r.lastPktSN)
    && r.stats.rxFrames == Arrivals(kept)
    && r.stats.rxPayloadBytes == BytesWhere(frames, kept, true)
    && r.stats.rxPayloadBytes + BytesWhere(frames, kept, false) == tx.txPayloadBytes
  }

  /** End to end, for frames that a sender numbered 1, 2, ... and counted: on a freshly configured stream
      rxFrames + lostPkts == lastPktSN <= txFrames, lostPkts is the number of sequence numbers up to
      lastPktSN that never arrived, and rxPayloadBytes is txPayloadBytes less the bytes dropped. */
  lemma EndToEnd(frames: seq<Frame>, tx: TgStats, kept: seq<bool>, st: TgStream, r: TgStream)
    requires After(r, st, frames, kept) && tx.txFrames == |frames| && tx.txPayloadBytes == Sum(Sizes(frames))
    requires st.stats == ZERO_STATS && st.lastPktSN == 0
    ensures LossAccounted(r, frames, kept, tx)
  {
    InOrderLoss(frames, kept, st, r);
    MissingOrArrived(kept);
    OnlyZeroShift(Missing(kept, LastKept(kept)), 0);
    OnlyZeroShift(Arrivals(kept), 0);
    PayloadIsSummed(st, Delivered(frames, kept));
    DeliveredBytes(frames, kept);
    ArrivingOrNot(frames, kept);
  }

  /** The burst sender composed with the channel and the receiver. */
  lemma BurstEndToEnd(run: Run, tx: TgStream, attempts: seq<Attempt>, late: nat -> nat, t0: int,
                      kept: seq<bool>, rx: TgStream, r: TgStream)
    requires BurstSender.Conforms(run, tx, attempts, late, t0) && tx.stats == ZERO_STATS
    requires After(r, rx, run.frames, kept) && rx.stats == ZERO_STATS && rx.lastPktSN == 0
    ensures LossAccounted(r, run.frames, kept, run.stream.stats)
  {
    BurstSender.BurstGapFree(run, tx, attempts, late, t0);
    OnlyZeroShift(|run.frames|, 0);
    EndToEnd(run.frames, run.stream.stats, kept, rx, r);
  }

  /** The bitrate sender composed with the channel and the receiver. */
  lemma BitrateEndToEnd(run: Run, tx: TgStream, attempts: seq<Attempt>, late: nat -> nat, t0: int,
                        kept: seq<bool>, rx: TgStream, r: TgStream)
    requires BitrateSender.Conforms(run, tx, attempts, late, t0) && tx.stats == ZERO_STATS
    requires After(r, rx, run.frames, kept) && rx.stats == ZERO_STATS && rx.lastPktSN == 0
    ensures LossAccounted(r, run.frames, kept, run.stream.stats)
  {
    BitrateSender.BitrateGapFree(run, tx, attempts, late, t0);
    OnlyZeroShift(|run.frames|, 0);
    EndToEnd(run.frames, run.stream.stats, kept, rx, r);
  }
}
