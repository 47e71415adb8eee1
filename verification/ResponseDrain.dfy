/** The control agent's receive branch for the station's responses (ca/wfa_ca.c): responses arrive as a
    byte stream, cut anywhere, and are taken out of the buffer packet by packet. */
module ResponseDrain {
  import opened CInt
  import opened Options
  import opened Tlv

  const WFA_BUFF_8K: nat := 8192

  // The stream.

  /** The loop needs more than four bytes, so a packet without a value waits until another byte comes. */
  predicate Dispatchable(s: seq<Byte>) { |s| > HDR && LenOf(s) + HDR <= |s| }

  /** The packets the loop takes from the front of s, in order. */
  function Packets(s: seq<Byte>): seq<seq<Byte>>
    decreases |s|
  {
    if Dispatchable(s) then [s[..LenOf(s) + HDR]] + Packets(s[LenOf(s) + HDR..]) else []
  }

  /** What it leaves. */
  function Rest(s: seq<Byte>): seq<Byte>
    decreases |s|
  {
    if Dispatchable(s) then Rest(s[LenOf(s) + HDR..]) else s
  }

  function Flatten(parts: seq<seq<Byte>>): seq<Byte> { if parts == [] then [] else parts[0] + Flatten(parts[1..]) }

  /** Nothing is lost, added or reordered, and nothing that could be taken is left. */
  lemma {:induction false} NothingIsLost(s: seq<Byte>)
    ensures Flatten(Packets(s)) + Rest(s) == s
    ensures !Dispatchable(Rest(s))
    decreases |s|
  {
    if Dispatchable(s) {
      var n := LenOf(s) + HDR;
      NothingIsLost(s[n..]);
      assert Packets(s)[1..] == Packets(s[n..]);
      assert s[..n] + (Flatten(Packets(s[n..])) + Rest(s[n..])) == s;
    }
  }

  lemma CutAfter(a: seq<Byte>, b: seq<Byte>, n: nat)
    requires n <= |a|
    ensures (a + b)[..n] == a[..n] && (a + b)[n..] == a[n..] + b
  {
  }

  lemma Reassociate<T>(a: seq<T>, b: seq<T>, c: seq<T>)
    ensures (a + b) + c == a + (b + c)
  {
  }

  /** A cut does not matter as long as the bytes left over are kept: for all a and b, taking the packets
      of a and then those of what is left followed by b is taking those of a + b. */
  lemma {:induction false} CutsDoNotMatter(a: seq<Byte>, b: seq<Byte>)
    ensures Packets(a) + Packets(Rest(a) + b) == Packets(a + b)
    ensures Rest(Rest(a) + b) == Rest(a + b)
    decreases |a|
  {
    if Dispatchable(a) {
      var n := LenOf(a) + HDR;
      CutsDoNotMatter(a[n..], b);
      CutAfter(a, b, n);
      Reassociate([a[..n]], Packets(a[n..]), Packets(Rest(a[n..]) + b));
    }
  }

  /** The stream of the given responses. */
  function Stream(responses: seq<(nat, seq<Byte>)>): seq<seq<Byte>> {
    if responses == [] then [] else [Packet(responses[0].0, responses[0].1)] + Stream(responses[1..])
  }

  predicate AllFit(responses: seq<(nat, seq<Byte>)>) {
    forall i :: 0 <= i < |responses| ==> responses[i].0 < WORD_SIZE && |responses[i].1| < WORD_SIZE
  }

  lemma DrainFirst(tag: nat, value: seq<Byte>, more: seq<Byte>)
    requires tag < WORD_SIZE && |value| < WORD_SIZE && (value != [] || more != [])
    ensures Packets(Packet(tag, value) + more) == [Packet(tag, value)] + Packets(more)
    ensures Rest(Packet(tag, value) + more) == Rest(more)
  {
    PacketReadsBack(tag, value, more);
  }

  lemma SameHead<T>(x: T, a: seq<T>, b: seq<T>)
    ensures [x] + a == [x] + b <==> a == b
  {
    assert ([x] + a)[1..] == a && ([x] + b)[1..] == b;
  }

  /** A station that sends encoded responses gets all of them dispatched, and nothing else, exactly if
      the last one carries a value. */
  lemma {:induction false} EncodedResponsesAreDispatched(responses: seq<(nat, seq<Byte>)>)
    requires AllFit(responses)
    ensures Packets(Flatten(Stream(responses))) == Stream(responses)
            <==> responses == [] || responses[|responses| - 1].1 != []
  {
    if responses != [] {
      var (tag, value) := responses[0];
      var tail := responses[1..];
      assert AllFit(tail);
      assert Stream(responses)[1..] == Stream(tail);
      assert Flatten(Stream(responses)) == Packet(tag, value) + Flatten(Stream(tail));
      EncodedResponsesAreDispatched(tail);
      if tail == [] {
        assert Flatten(Stream(tail)) == [] && Packet(tag, value) + [] == Packet(tag, value);
        if value == [] {
          assert |Packet(tag, value)| == HDR;
        } else {
          DrainFirst(tag, value, []);
        }
      } else {
        assert Stream(tail)[0] == Packet(tail[0].0, tail[0].1) && |Flatten(Stream(tail))| >= HDR;
        DrainFirst(tag, value, Flatten(Stream(tail)));
        SameHead(Packet(tag, value), Packets(Flatten(Stream(tail))), Stream(tail));
      }
    }
  }

  // The receive branch.

  function Zeros(n: nat): (z: seq<Byte>)
    ensures |z| == n && forall i :: 0 <= i < n ==> z[i] == 0
  {
    if n == 0 then [] else Zeros(n - 1) + [0]
  }

  /** A packet reaches its handler if the table has one for its tag; tag 0 has none. */
  function Handled(table: set<nat>, packets: seq<seq<Byte>>): seq<seq<Byte>> {
    if packets == [] then []
    else
      var front, p := Handled(table, packets[..|packets| - 1]), packets[|packets| - 1];
      if |p| >= HDR && TagOf(p) != 0 && TagOf(p) in table then front + [p] else front
  }

  lemma {:induction false} HandledJoin(table: set<nat>, a: seq<seq<Byte>>, b: seq<seq<Byte>>)
    ensures Handled(table, a + b) == Handled(table, a) + Handled(table, b)
  {
    if b == [] {
      assert a + b == a;
    } else {
      HandledJoin(table, a, b[..|b| - 1]);
      assert (a + b)[..|a + b| - 1] == a + b[..|b| - 1];
    }
  }

  lemma HandledOne(table: set<nat>, p: seq<Byte>)
    requires |p| >= HDR
    ensures Handled(table, [p]) == if TagOf(p) != 0 && TagOf(p) in table then [p] else []
  {
    var ps := [p];
    assert ps[..0] == [];
  }

  /** What was handled so far, and the bytes in the buffer. */
  datatype Session = Session(handled: seq<seq<Byte>>, kept: seq<Byte>)

  /** One turn of the loop. */
  function TakeOne(table: set<nat>, s: Session): Session
    requires Dispatchable(s.kept)
  {
    var n := LenOf(s.kept) + HDR;
    Session(s.handled + Handled(table, [s.kept[..n]]), s.kept[n..])
  }

  function TakeAll(table: set<nat>, s: Session): Session
    decreases |s.kept|
  {
    if Dispatchable(s.kept) then TakeAll(table, TakeOne(table, s)) else s
  }

  lemma {:induction false} TakeAllTakesPackets(table: set<nat>, s: Session)
    ensures TakeAll(table, s) == Session(s.handled + Handled(table, Packets(s.kept)), Rest(s.kept))
    decreases |s.kept|
  {
    if Dispatchable(s.kept) {
      var n := LenOf(s.kept) + HDR;
      TakeAllTakesPackets(table, TakeOne(table, s));
      HandledJoin(table, [s.kept[..n]], Packets(s.kept[n..]));
      Reassociate(s.handled, Handled(table, [s.kept[..n]]), Handled(table, Packets(s.kept[n..])));
    }
  }

  /** One receive. The buffer is cleared first, so of the bytes kept only their number survives; a
      failed one (None) forgets them. */
  function Receive(table: set<nat>, s: Session, chunk: Option<seq<Byte>>): Session {
    match chunk
    case None => s.(kept := [])
    case Some(bytes) =>
      var all := Zeros(|s.kept|) + bytes;
      Session(s.handled + Handled(table, Packets(all)), Rest(all))
  }

  class ControlAgent {
    const table: set<nat>
    const caCmdBuf: array<Byte>
    var caCmdBufPos: nat
    var handled: seq<seq<Byte>>

    ghost predicate Valid()
      reads this
    {
      caCmdBuf.Length == WFA_BUFF_8K && caCmdBufPos <= WFA_BUFF_8K
    }

    ghost function View(): Session
      requires Valid()
      reads this, caCmdBuf
    {
      Session(handled, caCmdBuf[..caCmdBufPos])
    }

    constructor (table: set<nat>)
      ensures Valid() && View() == Session([], []) && this.table == table && fresh(caCmdBuf)
    {
      this.table := table;
      caCmdBuf := new Byte[WFA_BUFF_8K](_ => 0);
      caCmdBufPos := 0;
      handled := [];
    }

    /** Calls the handler of the packet at the front of the buffer. */
    method CallHandler(len: nat)
      requires Valid() && HDR + len <= caCmdBufPos
      modifies this`handled
      ensures handled == old(handled) + Handled(table, [caCmdBuf[..len + HDR]])
    {
      HandledOne(table, caCmdBuf[..len + HDR]);
      var tag := Word(caCmdBuf[0], caCmdBuf[1]);
      if tag != 0 && tag in table { handled := handled + [caCmdBuf[..len + HDR]]; }
    }

    /** Moves what is behind the first n bytes to the front. */
    method ShiftOut(n: nat)
      requires Valid() && n <= caCmdBufPos
      modifies this`caCmdBufPos, caCmdBuf
      ensures Valid() && caCmdBufPos == old(caCmdBufPos) - n
      ensures caCmdBuf[..caCmdBufPos] == old(caCmdBuf[..caCmdBufPos])[n..]
    {
      caCmdBufPos := caCmdBufPos - n;
      if caCmdBufPos > 0 {
        forall i | 0 <= i < caCmdBufPos { caCmdBuf[i] := caCmdBuf[n + i]; }
      }
    }

    /** The length of a whole packet, as a 16-bit number. */
    method CmdLen(len: nat) returns (n: nat)
      requires len + HDR <= WFA_BUFF_8K
      ensures n == len + HDR
    {
      n := (len + HDR) % WORD_SIZE;
    }

    method TakePacket(len: nat)
      requires Valid() && Dispatchable(View().kept) && len == LenOf(View().kept)
      modifies this, caCmdBuf
      ensures Valid() && View() == TakeOne(table, old(View()))
      ensures caCmdBufPos < old(caCmdBufPos)
    {
      var cmdLen := CmdLen(len);
      ghost var kept := caCmdBuf[..caCmdBufPos];
      assert caCmdBuf[..len + HDR] == kept[..len + HDR];
      CallHandler(len);
      ShiftOut(cmdLen);
      assert caCmdBuf[..caCmdBufPos] == kept[len + HDR..];
    }

    method Drain()
      requires Valid()
      modifies this, caCmdBuf
      ensures Valid()
      ensures View() == Session(old(handled) + Handled(table, Packets(old(View()).kept)), Rest(old(View()).kept))
    {
      while caCmdBufPos > HDR
        invariant Valid() && TakeAll(table, View()) == TakeAll(table, old(View()))
        decreases caCmdBufPos
      {
        var len := Word(caCmdBuf[2], caCmdBuf[3]);
        assert len == LenOf(View().kept);
        if len + HDR > caCmdBufPos { break; }
        TakePacket(len);
      }
      TakeAllTakesPackets(table, old(View()));
    }

    method ReceiveBytes(chunk: Option<seq<Byte>>)
      requires Valid() && (chunk.Some? ==> 0 < |chunk.value| && caCmdBufPos + |chunk.value| <= WFA_BUFF_8K)
      modifies this, caCmdBuf
      ensures Valid() && View() == Receive(table, old(View()), chunk)
    {
      forall i | 0 <= i < caCmdBuf.Length { caCmdBuf[i] := 0; }
      if chunk.None? {
        caCmdBufPos := 0;
        return;
      }
      forall i | 0 <= i < |chunk.value| { caCmdBuf[caCmdBufPos + i] := chunk.value[i]; }
      ghost var n := caCmdBufPos;
      caCmdBufPos := caCmdBufPos + |chunk.value|;
      assert caCmdBuf[..caCmdBufPos] == Zeros(n) + chunk.value;
      Drain();
    }
  }

  // What the receive branch keeps of the loop's property.

  /** A receive treats the stream as if the bytes kept were still there exactly if they are all zero. */
  lemma ReceiveKeepsStreamIff(kept: seq<Byte>, bytes: seq<Byte>)
    ensures var z := Zeros(|kept|) + bytes;
      (Packets(z) == Packets(kept + bytes) && Rest(z) == Rest(kept + bytes)) <==> kept == Zeros(|kept|)
  {
    var z := Zeros(|kept|) + bytes;
    NothingIsLost(z);
    NothingIsLost(kept + bytes);
    if Packets(z) == Packets(kept + bytes) && Rest(z) == Rest(kept + bytes) {
      assert z == kept + bytes;
      assert kept == z[..|kept|] == Zeros(|kept|);
    }
  }

  function ReceiveAll(table: set<nat>, chunks: seq<seq<Byte>>): Session {
    if chunks == [] then Session([], [])
    else Receive(table, ReceiveAll(table, chunks[..|chunks| - 1]), Some(chunks[|chunks| - 1]))
  }

  function Joined(chunks: seq<seq<Byte>>): seq<Byte> {
    if chunks == [] then [] else Joined(chunks[..|chunks| - 1]) + chunks[|chunks| - 1]
  }

  /** What the stream cut into these chunks holds. */
  function Streamed(table: set<nat>, chunks: seq<seq<Byte>>): Session {
    Session(Handled(table, Packets(Joined(chunks))), Rest(Joined(chunks)))
  }

  /** Wherever the stream is cut but at its end, it ends on a packet boundary or on zeros. */
  predicate EndsOnBoundaries(chunks: seq<seq<Byte>>) {
    |chunks| <= 1
    || (var front := chunks[..|chunks| - 1];
        Rest(Joined(front)) == Zeros(|Rest(Joined(front))|) && EndsOnBoundaries(front))
  }

  lemma {:induction false} SessionFollowsStream(table: set<nat>, chunks: seq<seq<Byte>>)
    requires EndsOnBoundaries(chunks)
    ensures ReceiveAll(table, chunks) == Streamed(table, chunks)
  {
    if chunks != [] {
      var front, last := chunks[..|chunks| - 1], chunks[|chunks| - 1];
      if |chunks| == 1 {
        assert front == [] && Joined(chunks) == last && Zeros(0) + last == last;
      } else {
        SessionFollowsStream(table, front);
        ReceiveKeepsStreamIff(Rest(Joined(front)), last);
        CutsDoNotMatter(Joined(front), last);
        HandledJoin(table, Packets(Joined(front)), Packets(Rest(Joined(front)) + last));
      }
    }
  }

  // The same for all packets taken, whether they have a handler or not.

  /** The packets taken in a session, and the bytes in the buffer. */
  function TakenIn(chunks: seq<seq<Byte>>): (seq<seq<Byte>>, seq<Byte>) {
    if chunks == [] then ([], [])
    else
      var before := TakenIn(chunks[..|chunks| - 1]);
      var all := Zeros(|before.1|) + chunks[|chunks| - 1];
      (before.0 + Packets(all), Rest(all))
  }

  lemma {:induction false} HandledOfTaken(table: set<nat>, chunks: seq<seq<Byte>>)
    ensures ReceiveAll(table, chunks) == Session(Handled(table, TakenIn(chunks).0), TakenIn(chunks).1)
  {
    if chunks != [] {
      var front := chunks[..|chunks| - 1];
      HandledOfTaken(table, front);
      HandledJoin(table, TakenIn(front).0, Packets(Zeros(|TakenIn(front).1|) + chunks[|chunks| - 1]));
    }
  }

  predicate FollowsStream(chunks: seq<seq<Byte>>) {
    && TakenIn(chunks) == (Packets(Joined(chunks)), Rest(Joined(chunks)))
    && (chunks != [] ==> FollowsStream(chunks[..|chunks| - 1]))
  }

  /** The packets taken, and the bytes left, are those of the stream after every chunk of a session if
      and only if each cut but the last falls on a packet boundary or leaves only zeros behind. */
  lemma {:induction false} SessionFollowsStreamIff(chunks: seq<seq<Byte>>)
    ensures FollowsStream(chunks) <==> EndsOnBoundaries(chunks)
  {
    if chunks == [] {
    } else if |chunks| == 1 {
      var front, last := chunks[..0], chunks[0];
      assert front == [] && Joined(front) == [] && FollowsStream(front);
      assert Joined(chunks) == last && Zeros(0) + last == last;
      var none: seq<seq<Byte>> := [];
      assert TakenIn(chunks) == (none + Packets(last), Rest(last)) && none + Packets(last) == Packets(last);
    } else {
      var front := chunks[..|chunks| - 1];
      SessionFollowsStreamIff(front);
      if FollowsStream(front) { LastChunkFollows(Joined(front), chunks[|chunks| - 1]); }
    }
  }

  lemma LastChunkFollows(before: seq<Byte>, last: seq<Byte>)
    ensures var z := Zeros(|Rest(before)|);
      (Packets(before) + Packets(z + last), Rest(z + last)) == (Packets(before + last), Rest(before + last))
      <==> Rest(before) == z
  {
    CutsDoNotMatter(before, last);
    ReceiveKeepsStreamIff(Rest(before), last);
    SameFront(Packets(before), Packets(Zeros(|Rest(before)|) + last), Packets(Rest(before) + last));
  }

  lemma SameFront<T>(x: seq<T>, a: seq<T>, b: seq<T>)
    ensures x + a == x + b <==> a == b
  {
    assert (x + a)[|x|..] == a && (x + b)[|x|..] == b;
  }

  lemma {:induction false} PacketsFit(s: seq<Byte>, p: seq<Byte>)
    requires p in Packets(s)
    ensures |p| <= |s|
    decreases |s|
  {
    if p != s[..LenOf(s) + HDR] { PacketsFit(s[LenOf(s) + HDR..], p); }
  }

  lemma HandledAmong(table: set<nat>, packets: seq<seq<Byte>>, p: seq<Byte>)
    requires p in Handled(table, packets)
    ensures p in packets
  {
    if p !in Handled(table, packets[..|packets| - 1]) {
    } else {
      HandledAmong(table, packets[..|packets| - 1], p);
    }
  }

  /** A response that arrives in two pieces, its header and its value, is lost: the cleared header is
      taken for a packet of tag 0, and the value is read as packets of its own. */
  lemma CutAfterHeader(table: set<nat>, tag: nat, value: seq<Byte>)
    requires 0 < tag < WORD_SIZE && tag in table && 0 < |value| < WORD_SIZE
    ensures var chunks := [Packet(tag, value)[..HDR], value];
      && Joined(chunks) == Packet(tag, value) && Streamed(table, chunks) == Session([Packet(tag, value)], [])
      && ReceiveAll(table, chunks) == Session(Handled(table, Packets(value)), Rest(value))
      && Packet(tag, value) !in ReceiveAll(table, chunks).handled
  {
    var p := Packet(tag, value);
    var chunks := [p[..HDR], value];
    PacketReadsBack(tag, value, []);
    assert p + [] == p && p[..HDR] + value == p;
    HeaderArrives(table, p[..HDR], value);
    DrainFirst(tag, value, []);
    HandledOne(table, p);
    if p in ReceiveAll(table, chunks).handled {
      HandledAmong(table, Packets(value), p);
      PacketsFit(value, p);
    }
  }

  lemma HeaderArrives(table: set<nat>, header: seq<Byte>, value: seq<Byte>)
    requires |header| == HDR && value != []
    ensures Joined([header, value]) == header + value
    ensures ReceiveAll(table, [header, value]) == Session(Handled(table, Packets(value)), Rest(value))
  {
    var chunks, none: seq<seq<Byte>> := [header, value], [];
    assert chunks[..1] == [header] && chunks[..1][..0] == none;
    assert Joined(chunks[..1]) == header && Zeros(0) + header == header;
    assert ReceiveAll(table, chunks[..1]) == Session([], header);
    ZerosAreAPacket(value);
    var zeros := Zeros(HDR);
    HandledOne(table, zeros);
    HandledJoin(table, [zeros], Packets(value));
  }

  lemma ZerosAreAPacket(value: seq<Byte>)
    requires value != []
    ensures Packets(Zeros(HDR) + value) == [Zeros(HDR)] + Packets(value) && Rest(Zeros(HDR) + value) == Rest(value)
  {
    var none: seq<Byte> := [];
    assert Zeros(HDR) == [0, 0, 0, 0] == Packet(0, none);
    DrainFirst(0, none, value);
  }
}
