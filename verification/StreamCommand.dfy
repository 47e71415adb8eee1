/** The path of a stream-id list from the text of a traffic agent command to the traffic generator:
    xcCmdProcAgentSend, xcCmdProcAgentRecvStart and xcCmdProcAgentRecvStop (lib/wfa_cmdproc.c), which
    differ in the tag, then wfaDecodeTLV and the reading loop of wfaTGSendStart. strtok_r, strcasecmp
    and atoi are the C library's. */
module StreamCommand {
  import opened CInt
  import opened Miscs
  import opened Options
  import opened Tlv

  const LONG_MAX: int := 0x7FFF_FFFF_FFFF_FFFF

  // Text.

  predicate IsDigit(c: char) { '0' <= c <= '9' }

  function DigitValue(c: char): nat
    requires IsDigit(c)
  {
    c as int - '0' as int
  }

  /** isNumber looks at the first character only. */
  predicate IsNumber(s: string) { s != "" && IsDigit(s[0]) }

  /** The value of the leading digits, on top of acc. */
  function Digits(s: string, acc: nat): nat {
    if s != "" && IsDigit(s[0]) then Digits(s[1..], acc * 10 + DigitValue(s[0])) else acc
  }

  /** atoi of a text that starts with a digit: strtol's value, which stops at LONG_MAX, cut to an int. */
  function Atoi(s: string): int { ToInt(Min(Digits(s, 0), LONG_MAX)) }

  function Lower(c: char): char { if 'A' <= c <= 'Z' then c - 'A' + 'a' else c }

  predicate SameIgnoringCase(s: string, t: string) {
    |s| == |t| && forall i :: 0 <= i < |s| ==> Lower(s[i]) == Lower(t[i])
  }

  function Skip(s: string, c: char): (r: string)
    ensures |r| <= |s| && (r == "" || r[0] != c)
  {
    if s != "" && s[0] == c then Skip(s[1..], c) else s
  }

  /** How many characters come before the first c. */
  function Span(s: string, c: char): (n: nat)
    ensures n <= |s|
  {
    if s == "" || s[0] == c then 0 else 1 + Span(s[1..], c)
  }

  datatype Token = Token(text: string, rest: string)

  /** strtok_r: the next token, and what follows the delimiter that ends it. */
  function StrTok(s: string, c: char): (r: Option<Token>)
    ensures r.Some? ==> r.value.text != "" && |r.value.text| + |r.value.rest| <= |s|
  {
    var t := Skip(s, c);
    var n := Span(t, c);
    if t == "" then None
    else Some(Token(t[..n], if n < |t| then t[n + 1..] else ""))
  }

  /** The ids in a list; tokens that do not start with a digit are passed over. */
  function Ids(s: string): seq<int>
    decreases |s|
  {
    var token := StrTok(s, ' ');
    if token.None? then []
    else (if IsNumber(token.value.text) then [Atoi(token.value.text)] else []) + Ids(token.value.rest)
  }

  /** The ids of a well-formed command, None for a command that is refused. */
  function Parsed(cmd: string): Option<seq<int>> {
    var token := StrTok(cmd, ',');
    if token.None? || !SameIgnoringCase(token.value.text, "streamid") then None else Some(Ids(token.value.rest))
  }

  // Bytes.

  function Le32(x: int): (b: seq<Byte>)
    ensures |b| == 4
  {
    var b := BigEndian(x);
    [b[3], b[2], b[1], b[0]]
  }

  function FromLe32(b: seq<Byte>): int
    requires |b| == 4
  {
    FromBigEndian([b[3], b[2], b[1], b[0]])
  }

  lemma Le32RoundTrip(x: int)
    requires IsInt(x)
    ensures FromLe32(Le32(x)) == x
  {
    BigEndianRoundTrip(x);
    var b, c := BigEndian(x), Le32(x);
    assert [c[3], c[2], c[1], c[0]] == b;
  }

  /** The low byte comes first. */
  lemma Le32Digits(x: int)
    ensures var b: seq<int> := Le32(x); ToUInt(x) == b[0] + b[1] * 256 + b[2] * 0x1_0000 + b[3] * 0x100_0000
  {
    BigEndianDigits(x);
  }

  function Le32All(ids: seq<int>): (b: seq<Byte>)
    ensures |b| == 4 * |ids|
  {
    if ids == [] then [] else Le32All(ids[..|ids| - 1]) + Le32(ids[|ids| - 1])
  }

  /** The n ids that wfaTGSendStart reads from its parameters. */
  function ReadIds(parms: seq<Byte>, n: nat): seq<int>
    requires 4 * n <= |parms|
  {
    if n == 0 then [] else ReadIds(parms, n - 1) + [FromLe32(parms[4 * (n - 1)..4 * n])]
  }

  /** Writes one id; id_cnt has just been counted up to it. */
  method PutId(aBuf: array<Byte>, cnt: nat, id: int)
    requires 0 < cnt && 4 * cnt + 4 <= aBuf.Length
    modifies aBuf
    ensures aBuf[..4 * cnt] == old(aBuf[..4 * cnt]) && aBuf[4 * cnt..4 * cnt + 4] == Le32(id)
  {
    var b := Le32(id);
    forall i | 0 <= i < 4 { aBuf[4 * cnt + i] := b[i]; }
  }

  method PutIds(list: string, aBuf: array<Byte>) returns (cnt: nat)
    requires 4 + 4 * |Ids(list)| <= aBuf.Length
    modifies aBuf
    ensures cnt == |Ids(list)| && aBuf[4..4 + 4 * cnt] == Le32All(Ids(list))
  {
    var cursor := list;
    ghost var done: seq<int> := [];
    cnt := 0;
    var sid := StrTok(cursor, ' ');
    while sid.Some?
      invariant sid == StrTok(cursor, ' ')
      invariant done + Ids(cursor) == Ids(list) && |done| == cnt
      invariant aBuf[4..4 + 4 * cnt] == Le32All(done)
      decreases |cursor|
    {
      NextIds(cursor, done);
      cursor := sid.value.rest;
      if IsNumber(sid.value.text) {
        var strid := Atoi(sid.value.text);
        cnt := cnt + 1;
        PutNext(aBuf, cnt, strid, done);
        done := done + [strid];
      }
      sid := StrTok(cursor, ' ');
    }
    assert done + [] == done;
  }

  lemma NextIds(s: string, done: seq<int>)
    requires StrTok(s, ' ').Some?
    ensures var token := StrTok(s, ' ').value;
      done + Ids(s) == (if IsNumber(token.text) then done + [Atoi(token.text)] else done) + Ids(token.rest)
  {
  }

  method PutNext(aBuf: array<Byte>, cnt: nat, id: int, ghost done: seq<int>)
    requires 0 < cnt && 4 * cnt + 4 <= aBuf.Length && |done| == cnt - 1
    requires aBuf[4..4 * cnt] == Le32All(done)
    modifies aBuf
    ensures aBuf[4..4 + 4 * cnt] == Le32All(done + [id])
  {
    ghost var before := aBuf[..4 * cnt];
    PutId(aBuf, cnt, id);
    PutOneMore(aBuf[..], before, done + [id]);
  }

  lemma PutOneMore(now: seq<Byte>, before: seq<Byte>, done: seq<int>)
    requires done != [] && |before| == 4 * |done| && 4 + 4 * |done| <= |now|
    requires before[4..] == Le32All(done[..|done| - 1])
    requires now[..4 * |done|] == before && now[4 * |done|..4 * |done| + 4] == Le32(done[|done| - 1])
    ensures now[4..4 + 4 * |done|] == Le32All(done)
  {
    assert now[4..4 + 4 * |done|] == now[..4 * |done|][4..] + now[4 * |done|..4 * |done| + 4];
  }

  method PutPacket(tag: nat, list: string, aBuf: array<Byte>) returns (aLen: nat)
    requires tag < WORD_SIZE && 4 + 4 * |Ids(list)| <= aBuf.Length
    modifies aBuf
    ensures aLen == 4 + 4 * |Ids(list)|
    ensures aLen < WORD_SIZE ==> aBuf[..aLen] == Packet(tag, Le32All(Ids(list)))
  {
    var cnt := PutIds(list, aBuf);
    ghost var body := aBuf[4..4 + 4 * cnt];
    PutHeader(aBuf, tag, 4 * cnt % WORD_SIZE);
    aLen := 4 + 4 * cnt;
    HeaderAndBody(aBuf[..aLen], tag, body);
  }

  lemma HeaderAndBody(s: seq<Byte>, tag: nat, body: seq<Byte>)
    requires |s| == 4 + |body| && s[4..] == body
    requires s[..4] == Le16(tag) + Le16(|body| % WORD_SIZE)
    ensures |body| < WORD_SIZE ==> s == Packet(tag, body)
  {
    assert s == s[..4] + s[4..];
  }

  /** Clears the first bytes of the buffer, and for a well-formed command writes a packet with its ids. */
  method AgentCommand(tag: nat, cmd: string, cleared: nat, aBuf: array<Byte>) returns (ok: bool, aLen: nat)
    requires tag < WORD_SIZE && cleared <= aBuf.Length && HDR <= aBuf.Length
    requires Parsed(cmd).Some? ==> 4 + 4 * |Parsed(cmd).value| <= aBuf.Length
    modifies aBuf
    ensures ok <==> Parsed(cmd).Some?
    ensures ok ==> aLen == 4 + 4 * |Parsed(cmd).value|
    ensures ok && aLen < WORD_SIZE ==> aBuf[..aLen] == Packet(tag, Le32All(Parsed(cmd).value))
  {
    forall i | 0 <= i < cleared { aBuf[i] := 0; }
    ok, aLen := false, 0;
    var str := StrTok(cmd, ',');
    if str.None? || !SameIgnoringCase(str.value.text, "streamid") { return; }
    aLen := PutPacket(tag, str.value.rest, aBuf);
    ok := true;
  }

  method PutHeader(aBuf: array<Byte>, tag: nat, len: nat)
    requires tag < WORD_SIZE && len < WORD_SIZE && HDR <= aBuf.Length
    modifies aBuf
    ensures aBuf[..4] == Le16(tag) + Le16(len)
    ensures forall n :: 4 <= n <= aBuf.Length ==> aBuf[4..n] == old(aBuf[4..n])
  {
    aBuf[0], aBuf[1] := tag % 256, tag / 256 % 256;
    aBuf[2], aBuf[3] := len % 256, len / 256 % 256;
  }

  // The round trip.

  /** What reading finds are the ids that were written, whatever follows them. */
  lemma {:induction false} ReadsBack(ids: seq<int>, more: seq<Byte>)
    requires forall i :: 0 <= i < |ids| ==> IsInt(ids[i])
    ensures ReadIds(Le32All(ids) + more, |ids|) == ids
  {
    if ids != [] {
      var front, last := ids[..|ids| - 1], ids[|ids| - 1];
      ReadsBack(front, Le32(last) + more);
      Le32RoundTrip(last);
      assert Le32All(ids) + more == Le32All(front) + (Le32(last) + more);
      assert (Le32All(ids) + more)[4 * |front|..4 * |ids|] == Le32(last);
      assert ids == front + [last];
    }
  }

  const DIGITS: string := "0123456789"

  function Decimal(n: nat): string { (if n < 10 then "" else Decimal(n / 10)) + [DIGITS[n % 10]] }

  lemma {:induction false} DecimalDigits(n: nat)
    ensures Decimal(n) != "" && forall i :: 0 <= i < |Decimal(n)| ==> IsDigit(Decimal(n)[i])
  {
    DigitOf(n % 10);
    if n >= 10 { DecimalDigits(n / 10); }
  }

  lemma DigitOf(d: nat)
    requires d < 10
    ensures IsDigit(DIGITS[d]) && DigitValue(DIGITS[d]) == d
  {
    assert d == 0 || d == 1 || d == 2 || d == 3 || d == 4 || d == 5 || d == 6 || d == 7 || d == 8 || d == 9;
  }

  lemma {:induction false} DigitsAppend(s: string, c: char, acc: nat)
    requires IsDigit(c) && forall i :: 0 <= i < |s| ==> IsDigit(s[i])
    ensures Digits(s + [c], acc) == Digits(s, acc) * 10 + DigitValue(c)
  {
    if s == "" {
      assert s + [c] == [c] && [c][1..] == "";
      assert Digits("", acc * 10 + DigitValue(c)) == acc * 10 + DigitValue(c);
    } else {
      DigitsAppend(s[1..], c, acc * 10 + DigitValue(s[0]));
      assert (s + [c])[1..] == s[1..] + [c];
    }
  }

  lemma {:induction false} DecimalValue(n: nat)
    ensures Digits(Decimal(n), 0) == n
  {
    DigitOf(n % 10);
    if n < 10 {
      DigitsAppend("", DIGITS[n % 10], 0);
      assert Digits("", 0) == 0;
    } else {
      DecimalDigits(n / 10);
      DecimalValue(n / 10);
      DigitsAppend(Decimal(n / 10), DIGITS[n % 10], 0);
    }
  }

  lemma {:induction false} SpanOf(word: string, c: char, more: string)
    requires forall i :: 0 <= i < |word| ==> word[i] != c
    ensures Span(word, c) == |word| && Span(word + [c] + more, c) == |word|
  {
    if word == "" {
      assert word + [c] + more == [c] + more;
    } else {
      SpanOf(word[1..], c, more);
      assert (word + [c] + more)[1..] == word[1..] + [c] + more;
    }
  }

  /** strtok_r finds a word that does not hold the delimiter, with more behind it or not. */
  lemma TokenOf(word: string, c: char, more: string)
    requires word != "" && forall i :: 0 <= i < |word| ==> word[i] != c
    ensures StrTok(word, c) == Some(Token(word, "")) && StrTok(word + [c] + more, c) == Some(Token(word, more))
  {
    SpanOf(word, c, more);
    assert word[..|word|] == word;
    var s := word + [c] + more;
    assert s[0] == word[0] && s[..|word|] == word && s[|word| + 1..] == more;
  }

  /** atoi of a number with anything but a digit behind it: the number if that fits an int, its low 32 bits if
      it fits a long, and -1 beyond. */
  lemma AtoiOfNumber(n: nat, junk: string)
    requires junk == "" || !IsDigit(junk[0])
    ensures Atoi(Decimal(n) + junk) == if n <= INT_MAX then n else if n <= LONG_MAX then ToInt(n) else -1
  {
    DecimalDigits(n);
    DecimalValue(n);
    DigitsStop(Decimal(n), junk, 0);
    if n <= INT_MAX { WrapIsIdentityOnInts(n); }
  }

  lemma {:induction false} DigitsStop(word: string, junk: string, acc: nat)
    requires (forall i :: 0 <= i < |word| ==> IsDigit(word[i])) && (junk == "" || !IsDigit(junk[0]))
    ensures Digits(word + junk, acc) == Digits(word, acc)
  {
    if word == "" {
      assert word + junk == junk;
    } else {
      DigitsStop(word[1..], junk, acc * 10 + DigitValue(word[0]));
      assert (word + junk)[1..] == word[1..] + junk;
    }
  }

  /** A word that does not start with a digit is passed over, and any other counts with its value. */
  lemma IdsOfWord(word: string, more: string)
    requires word != "" && forall i :: 0 <= i < |word| ==> word[i] != ' '
    ensures Ids(word + [' '] + more) == (if IsDigit(word[0]) then [Atoi(word)] else []) + Ids(more)
  {
    TokenOf(word, ' ', more);
  }

  function Spaced(ids: seq<int>): string
    requires forall i :: 0 <= i < |ids| ==> 0 <= ids[i]
  {
    if ids == [] then ""
    else if |ids| == 1 then Decimal(ids[0])
    else Decimal(ids[0]) + [' '] + Spaced(ids[1..])
  }

  /** "streamid,id1 id2 ..." */
  function Rendered(ids: seq<int>): string
    requires forall i :: 0 <= i < |ids| ==> 0 <= ids[i]
  {
    "streamid" + [','] + Spaced(ids)
  }

  lemma {:induction false} IdsOfSpaced(ids: seq<int>)
    requires forall i :: 0 <= i < |ids| ==> 0 <= ids[i] <= INT_MAX
    ensures Ids(Spaced(ids)) == ids
  {
    if ids != [] {
      var word := Decimal(ids[0]);
      DecimalDigits(ids[0]);
      DecimalValue(ids[0]);
      WrapIsIdentityOnInts(ids[0]);
      assert Atoi(word) == ids[0] && IsNumber(word);
      IdsOfSpaced(ids[1..]);
      TokenOf(word, ' ', Spaced(ids[1..]));
      assert ids == [ids[0]] + ids[1..];
      if |ids| == 1 { assert Ids("") == []; }
    }
  }

  lemma ParsedRendered(ids: seq<int>)
    requires forall i :: 0 <= i < |ids| ==> 0 <= ids[i] <= INT_MAX
    ensures Parsed(Rendered(ids)) == Some(ids)
  {
    TokenOf("streamid", ',', Spaced(ids));
    IdsOfSpaced(ids);
  }

  /** The keyword, each letter in either case. */
  predicate Spells(word: string) {
    |word| == 8 && forall i :: 0 <= i < 8 ==> word[i] == "streamid"[i] || word[i] == "STREAMID"[i]
  }

  lemma CaseOf(c: char, i: nat)
    requires i < 8
    ensures Lower(c) == Lower("streamid"[i]) <==> c == "streamid"[i] || c == "STREAMID"[i]
  {
    assert "streamid"[i] as int - 'a' as int == "STREAMID"[i] as int - 'A' as int;
  }

  /** Any spelling of the keyword is accepted, with the same ids, and any other word refused. */
  lemma KeywordIff(word: string, list: string)
    requires word != "" && forall i :: 0 <= i < |word| ==> word[i] != ','
    ensures Parsed(word + [','] + list) == if Spells(word) then Some(Ids(list)) else None
  {
    TokenOf(word, ',', list);
    if |word| == 8 {
      forall i | 0 <= i < 8
        ensures Lower(word[i]) == Lower("streamid"[i]) <==> word[i] == "streamid"[i] || word[i] == "STREAMID"[i]
      {
        CaseOf(word[i], i);
      }
    }
  }

  lemma Delivered(tag: nat, ids: seq<int>, buffer: seq<Byte>, body: seq<Byte>)
    requires tag < WORD_SIZE && |buffer| >= MAX_PARMS_BUFF && 4 * |ids| <= |buffer| && 4 * |ids| < WORD_SIZE
    requires forall i :: 0 <= i < |ids| ==> IsInt(ids[i])
    requires body == Le32All(ids)
    ensures |Packet(tag, body)| == HDR + |body| && LenOf(Packet(tag, body)) == |body|
    ensures var r := Decode(Packet(tag, body), HDR + |body|, buffer);
      && r.ok && r.tag == tag && r.len == |body| && |r.value| == |buffer|
      && (ReadIds(r.value, |ids|) == ids <==> |ids| < 160 || ReadIds(buffer, |ids|) == ids)
  {
    DecodePacket(tag, body, buffer);
    if |ids| < 160 { ReadsBack(ids, buffer[|body|..]); }
  }

  /** What the generator reads after the agent's packet with these ids was decoded into its buffer. */
  function ReadFrom(tag: nat, ids: seq<int>, buffer: seq<Byte>): (r: seq<int>)
    requires tag < WORD_SIZE && |buffer| >= MAX_PARMS_BUFF && 4 * |ids| <= |buffer| && 4 * |ids| < WORD_SIZE
    requires forall i :: 0 <= i < |ids| ==> IsInt(ids[i])
    ensures r == ids <==> |ids| < 160 || ReadIds(buffer, |ids|) == ids
  {
    var body := Le32All(ids);
    Delivered(tag, ids, buffer, body);
    var r := Decode(Packet(tag, body), HDR + |body|, buffer);
    assert r.len / 4 == |ids|;
    ReadIds(r.value, r.len / 4)
  }

  /** From text to the generator and back: any list of non-negative ids that fits the buffer is parsed
      as it was rendered, and what the generator reads is the same list in the same order exactly if
      there are fewer than 160 ids, or what an earlier command left in the buffer happens to read the
      same. */
  lemma StreamIdRoundTrip(tag: nat, ids: seq<int>, buffer: seq<Byte>)
    requires tag < WORD_SIZE && |buffer| >= MAX_PARMS_BUFF && 4 * |ids| <= |buffer| && 4 * |ids| < WORD_SIZE
    requires forall i :: 0 <= i < |ids| ==> 0 <= ids[i] <= INT_MAX
    ensures Parsed(Rendered(ids)) == Some(ids)
    ensures ReadFrom(tag, ids, buffer) == ids <==> |ids| < 160 || ReadIds(buffer, |ids|) == ids
  {
    ParsedRendered(ids);
  }
}
