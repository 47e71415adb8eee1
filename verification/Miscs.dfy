/** lib/wfa_miscs.c: the time difference and the big-endian integer codec. */
module Miscs {
  import opened CInt

  const MICROSECONDS: int := 1_000_000

  datatype TimeVal = TimeVal(sec: int, usec: int) {
    /** The instant a time value stands for; the normal form has usec in [0, 1000000). */
    function Micros(): int { sec * MICROSECONDS + usec }

    /** The pacer's loose form: its renormalisation tests `>` and so lets usec reach 1000000. */
    predicate Loose() { 0 <= usec <= MICROSECONDS }
  }

  /** What gettimeofday reports at an instant given in microseconds. */
  function ToTimeVal(micros: int): (tv: TimeVal)
    ensures tv.Micros() == micros && 0 <= tv.usec < MICROSECONDS
  {
    TimeVal(micros / MICROSECONDS, micros % MICROSECONDS)
  }

  /** wfa_itime_diff: t2 - t1 in microseconds, 0 when t2 is earlier, in C's int. */
  function ITimeDiff(t1: TimeVal, t2: TimeVal): int {
    var sec := ToInt(t2.sec - t1.sec);
    var usec := ToInt(t2.usec - t1.usec);
    if sec < 0 then 0
    else if sec == 0 then (if usec >= 0 then usec else 0)
    else if usec < 0 then ToInt((sec - 1) * MICROSECONDS + (usec + MICROSECONDS))
    else ToInt(sec * MICROSECONDS + usec)
  }

  /** On loosely normalised times the difference is exact if and only if the span fits an int. */
  lemma ITimeDiffExactIff(t1: TimeVal, t2: TimeVal)
    requires t1.Loose() && t2.Loose()
    requires INT_MIN <= t2.sec - t1.sec
    ensures ITimeDiff(t1, t2) == Max(0, t2.Micros() - t1.Micros())
       <==> t2.Micros() - t1.Micros() <= INT_MAX
  {
    var sec := t2.sec - t1.sec;
    var usec := t2.usec - t1.usec;
    assert t2.Micros() - t1.Micros() == sec * MICROSECONDS + usec;
    assert ToInt(usec) == usec;
    if sec <= INT_MAX {
      assert ToInt(sec) == sec;
    } else {
      assert ITimeDiff(t1, t2) <= INT_MAX;
    }
  }

  /** Whatever the span, the measured difference never exceeds it: wrap-around only loses time. */
  lemma ITimeDiffNeverOver(t1: TimeVal, t2: TimeVal)
    requires t1.Loose() && t2.Loose()
    requires t1.Micros() <= t2.Micros()
    ensures ITimeDiff(t1, t2) <= t2.Micros() - t1.Micros()
    ensures ITimeDiff(t1, t2) < 0 ==> INT_MAX < t2.Micros() - t1.Micros()
  {
    var sec := t2.sec - t1.sec;
    var usec := t2.usec - t1.usec;
    assert t2.Micros() - t1.Micros() == sec * MICROSECONDS + usec;
    assert ToInt(usec) == usec;
    assert -1 <= sec;
    if 0 <= sec {
      assert ToInt(sec) <= sec;
    }
  }

  /** What wfa_itime_diff makes of two clock readings: the true span unless that overflows an int. */
  method Elapsed(before: int, after: int) returns (d: int)
    requires before <= after
    ensures IsInt(d) && d <= after - before
    ensures d == after - before <==> after - before <= INT_MAX
    ensures d < 0 ==> INT_MAX < after - before
  {
    var t1, t2 := ToTimeVal(before), ToTimeVal(after);
    d := ITimeDiff(t1, t2);
    ITimeDiffNeverOver(t1, t2);
    ITimeDiffExactIff(t1, t2);
  }

  /** int2BuffBigEndian: the four bytes of a 32-bit int, most significant first. */
  function BigEndian(val: int): (b: seq<Byte>)
    ensures |b| == 4
  {
    var u := ToUInt(val);
    [u / 0x100_0000, u / 0x1_0000 % 256, u / 256 % 256, u % 256]
  }

  /** The unsigned value of four bytes, most significant first. */
  function FourBytes(b0: int, b1: int, b2: int, b3: int): int {
    ((b0 * 256 + b1) * 256 + b2) * 256 + b3
  }

  /** bigEndianBuff2Int */
  function FromBigEndian(b: seq<Byte>): (val: int)
    requires |b| == 4
    ensures IsInt(val)
  {
    ToInt(FourBytes(b[0], b[1], b[2], b[3]))
  }

  lemma SplitBytes(u: int)
    requires 0 <= u < TWO_32
    ensures FourBytes(u / 0x100_0000, u / 0x1_0000 % 256, u / 256 % 256, u % 256) == u
    ensures u / 0x100_0000 < 256
  {
    assert u / 0x1_0000 == u / 0x100_0000 * 256 + u / 0x1_0000 % 256;
    assert u / 256 == u / 0x1_0000 * 256 + u / 256 % 256;
  }

  lemma JoinBytes(b0: int, b1: int, b2: int, b3: int)
    requires 0 <= b0 < 256 && 0 <= b1 < 256 && 0 <= b2 < 256 && 0 <= b3 < 256
    ensures 0 <= FourBytes(b0, b1, b2, b3) < TWO_32
    ensures FourBytes(b0, b1, b2, b3) / 256 == b0 * 0x1_0000 + b1 * 256 + b2
    ensures FourBytes(b0, b1, b2, b3) / 0x1_0000 == b0 * 256 + b1
    ensures FourBytes(b0, b1, b2, b3) / 0x100_0000 == b0
    ensures FourBytes(b0, b1, b2, b3) % 256 == b3
    ensures (b0 * 0x1_0000 + b1 * 256 + b2) % 256 == b2 && (b0 * 256 + b1) % 256 == b1
  {
  }

  /** The first byte weighs most: the bytes are the digits of the unsigned value in base 256. */
  lemma BigEndianDigits(val: int)
    ensures var b: seq<int> := BigEndian(val); ToUInt(val) == b[0] * 0x100_0000 + b[1] * 0x1_0000 + b[2] * 256 + b[3]
  {
    SplitBytes(ToUInt(val));
  }

  /** Decoding undoes encoding on every int ... */
  lemma BigEndianRoundTrip(val: int)
    requires IsInt(val)
    ensures FromBigEndian(BigEndian(val)) == val
  {
    var u := ToUInt(val);
    SplitBytes(u);
    var b := BigEndian(val);
    assert FourBytes(b[0], b[1], b[2], b[3]) == u;
    WrapIsIdentityOnInts(val);
  }

  /** ... and encoding undoes decoding on every four bytes. */
  lemma BigEndianOnto(b: seq<Byte>)
    requires |b| == 4
    ensures BigEndian(FromBigEndian(b)) == b
  {
    var u := FourBytes(b[0], b[1], b[2], b[3]);
    JoinBytes(b[0], b[1], b[2], b[3]);
    UnsignedIsKept(u);
  }

  /** Writes val into the four bytes of buf starting at off, and into no other byte. */
  method Int2BuffBigEndian(val: int, buf: array<Byte>, off: nat)
    requires off + 4 <= buf.Length
    modifies buf
    ensures buf[..] == old(buf[..off]) + BigEndian(val) + old(buf[off + 4..])
  {
    var u := ToUInt(val);
    SplitBytes(u);
    buf[off] := u / 0x100_0000;
    buf[off + 1] := u / 0x1_0000 % 256;
    buf[off + 2] := u / 256 % 256;
    buf[off + 3] := u % 256;
  }
}
