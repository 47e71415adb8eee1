/** lib/wfa_tlv.c: packets of a 16-bit tag, a 16-bit length and a value, both little-endian. */
module Tlv {
  import opened CInt
  import opened Options

  const WORD_SIZE: nat := 0x1_0000
  const HDR: nat := 4
  const MAX_PARMS_BUFF: nat := 640

  function Le16(n: int): (b: seq<Byte>)
    ensures |b| == 2
  {
    [n % 256, n / 256 % 256]
  }

  function Word(lo: Byte, hi: Byte): (w: nat)
    ensures w < WORD_SIZE
  {
    lo + 256 * hi
  }

  lemma WordOfLe16(n: nat)
    requires n < WORD_SIZE
    ensures Word(Le16(n)[0], Le16(n)[1]) == n
  {
  }

  function TagOf(s: seq<Byte>): nat
    requires |s| >= HDR
  {
    Word(s[0], s[1])
  }

  function LenOf(s: seq<Byte>): nat
    requires |s| >= HDR
  {
    Word(s[2], s[3])
  }

  function Packet(tag: nat, value: seq<Byte>): seq<Byte> { Le16(tag) + Le16(|value|) + value }

  /** On the wire the low byte of tag and length comes first, and the value follows as it is. */
  lemma PacketBytes(tag: nat, value: seq<Byte>)
    requires tag < WORD_SIZE && |value| < WORD_SIZE
    ensures var s: seq<int> := Packet(tag, value);
      && |s| == HDR + |value| && s[0] + 256 * s[1] == tag && s[2] + 256 * s[3] == |value|
      && forall i :: 0 <= i < |value| ==> s[HDR + i] == value[i]
  {
    WordOfLe16(tag);
    WordOfLe16(|value|);
  }

  /** A packet can be read back from its start, whatever follows it. */
  lemma PacketReadsBack(tag: nat, value: seq<Byte>, more: seq<Byte>)
    requires tag < WORD_SIZE && |value| < WORD_SIZE
    ensures var s := Packet(tag, value) + more;
      |s| >= HDR + |value| && TagOf(s) == tag && LenOf(s) == |value|
      && s[..HDR + |value|] == Packet(tag, value) && s[HDR..HDR + |value|] == value && s[HDR + |value|..] == more
  {
    WordOfLe16(tag);
    WordOfLe16(|value|);
    var s := Packet(tag, value) + more;
    assert s[0] == Le16(tag)[0] && s[1] == Le16(tag)[1];
    assert s[2] == Le16(|value|)[0] && s[3] == Le16(|value|)[1];
  }

  /** Writes the header, and the value unless there is none. */
  method EncodeTLV(tag: nat, len: nat, value: Option<seq<Byte>>, data: array<Byte>)
    requires tag < WORD_SIZE && len < WORD_SIZE
    requires HDR <= data.Length
    requires value.Some? ==> len <= |value.value| && HDR + len <= data.Length
    modifies data
    ensures value.Some? ==> data[..] == Packet(tag, value.value[..len]) + old(data[HDR + len..])
    ensures value.None? ==> data[..] == Le16(tag) + Le16(len) + old(data[HDR..])
  {
    data[0], data[1] := tag % 256, tag / 256 % 256;
    data[2], data[3] := len % 256, len / 256 % 256;
    assert data[..HDR] == Le16(tag) + Le16(len) && data[HDR..] == old(data[HDR..]);
    if value.Some? && len != 0 { CopyIn(value.value, len, data); }
    assert value.Some? ==> data[HDR..] == value.value[..len] + old(data[HDR + len..]);
    assert data[..] == data[..HDR] + data[HDR..];
  }

  method CopyIn(value: seq<Byte>, len: nat, data: array<Byte>)
    requires len <= |value| && HDR + len <= data.Length
    modifies data
    ensures data[..HDR] == old(data[..HDR]) && data[HDR..] == value[..len] + old(data[HDR + len..])
  {
    forall i | 0 <= i < len { data[HDR + i] := value[i]; }
  }

  datatype Decoded = Decoded(ok: bool, tag: nat, len: nat, value: seq<Byte>)

  /** What decoding leaves: the value replaces the start of the buffer only if it is shorter than
      MAX_PARMS_BUFF; a longer one is passed over with success. */
  function Decode(data: seq<Byte>, total: int, buffer: seq<Byte>): Decoded
    requires |data| >= HDR && |buffer| >= MAX_PARMS_BUFF
    requires LenOf(data) <= total && LenOf(data) < MAX_PARMS_BUFF ==> HDR + LenOf(data) <= |data|
  {
    var len := LenOf(data);
    if total < len then Decoded(false, TagOf(data), len, buffer)
    else if len < MAX_PARMS_BUFF then Decoded(true, TagOf(data), len, data[HDR..HDR + len] + buffer[len..])
    else Decoded(true, TagOf(data), len, buffer)
  }

  method DecodeTLV(data: array<Byte>, total: int, value: array<Byte>) returns (ok: bool, tag: nat, len: nat)
    requires data != value && data.Length >= HDR && value.Length >= MAX_PARMS_BUFF
    requires LenOf(data[..]) <= total && LenOf(data[..]) < MAX_PARMS_BUFF ==> HDR + LenOf(data[..]) <= data.Length
    modifies value
    ensures Decoded(ok, tag, len, value[..]) == Decode(data[..], total, old(value[..]))
  {
    tag, len := Word(data[0], data[1]), Word(data[2], data[3]);
    ok := len <= total;
    if ok && len != 0 && len < MAX_PARMS_BUFF {
      forall i | 0 <= i < len { value[i] := data[HDR + i]; }
    }
    assert ok && len < MAX_PARMS_BUFF ==> value[..] == data[HDR..HDR + len] + old(value[len..]);
  }

  lemma DecodePacket(tag: nat, value: seq<Byte>, buffer: seq<Byte>)
    requires tag < WORD_SIZE && |value| < WORD_SIZE && |buffer| >= MAX_PARMS_BUFF
    ensures |Packet(tag, value)| == HDR + |value| && LenOf(Packet(tag, value)) == |value|
    ensures Decode(Packet(tag, value), |Packet(tag, value)|, buffer) ==
      Decoded(true, tag, |value|, if |value| < MAX_PARMS_BUFF then value + buffer[|value|..] else buffer)
  {
    PacketReadsBack(tag, value, []);
    assert Packet(tag, value) + [] == Packet(tag, value);
  }

  /** Encoding then decoding gives the tag and the length back, and the value exactly if it is shorter
      than the buffer or happens to be there already. */
  lemma DecodeUndoesEncode(tag: nat, value: seq<Byte>, buffer: seq<Byte>)
    requires tag < WORD_SIZE && |value| < WORD_SIZE && |buffer| >= MAX_PARMS_BUFF
    ensures LenOf(Packet(tag, value)) == |value| && |Packet(tag, value)| == HDR + |value|
    ensures var data := Packet(tag, value);
      var r := Decode(data, |data|, buffer);
      && r.ok && r.tag == tag && r.len == |value| && |r.value| == |buffer|
      && (|value| <= |buffer| ==>
            (r.value[..|value|] == value <==> |value| < MAX_PARMS_BUFF || buffer[..|value|] == value))
  {
    DecodePacket(tag, value, buffer);
  }
}
