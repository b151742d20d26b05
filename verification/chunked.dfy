/** The chunked-body decoder of the daemon client
    (platform/k3s/shared/daemon_client_common.py:127-150) against the chunked coding of
    section 7.1 of RFC 9112. A size token that is not all hexadecimal digits, which Python's
    int() may or may not accept, is outside the model. */
module Chunked {
  import opened Prelude

  const CR: byte := 13
  const LF: byte := 10
  const SEMICOLON: byte := 59

  type Bytes = seq<byte>

  datatype Decoded = Body(body: Bytes) | NoSizeLine | UnmodelledSize | Truncated | NoTerminator

  const CRLF: Bytes := [CR, LF]

  // ---- The pieces of a size line ----------------------------------------------------------------

  /** body.find(b"\r\n", pos) */
  function FindCrlf(body: Bytes, pos: nat): (r: Option<nat>)
    ensures r.Some? ==> pos <= r.value && r.value + 2 <= |body| && body[r.value] == CR && body[r.value + 1] == LF
    decreases |body| - pos
  {
    if pos + 2 > |body| then None
    else if body[pos] == CR && body[pos + 1] == LF then Some(pos)
    else FindCrlf(body, pos + 1)
  }

  function BeforeSemicolon(line: Bytes): Bytes {
    if line == [] || line[0] == SEMICOLON then [] else [line[0]] + BeforeSemicolon(line[1..])
  }

  /** str.strip() on ASCII. */
  predicate IsSpace(c: byte) {
    9 <= c <= 13 || 28 <= c <= 32
  }

  function StripLeft(s: Bytes): Bytes {
    if s != [] && IsSpace(s[0]) then StripLeft(s[1..]) else s
  }

  function StripRight(s: Bytes): Bytes {
    if s != [] && IsSpace(s[|s| - 1]) then StripRight(s[..|s| - 1]) else s
  }

  function Strip(s: Bytes): Bytes {
    StripRight(StripLeft(s))
  }

  function HexDigit(c: byte): (d: Option<int>)
    ensures d.Some? ==> 0 <= d.value < 16
  {
    if 48 <= c <= 57 then Some(c as int - 48)
    else if 65 <= c <= 70 then Some(c as int - 55)
    else if 97 <= c <= 102 then Some(c as int - 87)
    else None
  }

  predicate AllHex(s: Bytes) {
    forall i :: 0 <= i < |s| ==> HexDigit(s[i]).Some?
  }

  function HexValue(s: Bytes): (n: nat)
    requires AllHex(s)
  {
    if s == [] then 0 else HexValue(s[..|s| - 1]) * 16 + HexDigit(s[|s| - 1]).value
  }

  function SizeOf(line: Bytes): Option<nat> {
    var token := Strip(BeforeSemicolon(line));
    if token != [] && AllHex(token) then Some(HexValue(token)) else None
  }

  // ---- The decoder --------------------------------------------------------------------------------

  function Prepend(out: Bytes, d: Decoded): Decoded {
    if d.Body? then Body(out + d.body) else d
  }

  datatype Line = NoLine | BadSize | Size(start: nat, size: nat)

  /** The size line at a position, and where what follows it starts. */
  function ReadSize(body: Bytes, pos: nat): (l: Line)
    ensures l.Size? ==> pos + 2 <= l.start <= |body|
  {
    var end := FindCrlf(body, pos);
    if end.None? then NoLine
    else
      var size := SizeOf(body[pos..end.value]);
      if size.None? then BadSize else Size(end.value + 2, size.value)
  }

  predicate CrlfAt(body: Bytes, pos: nat) {
    pos + 2 <= |body| && body[pos..pos + 2] == CRLF
  }

  datatype Round = End(result: Decoded) | More(payload: Bytes, next: nat)

  /** What one round of the loop does after its size line. */
  function TakeChunk(body: Bytes, l: Line): (r: Round)
    ensures r.More? ==> l.Size? && l.start + 2 <= r.next <= |body|
  {
    match l
    case NoLine => End(NoSizeLine)
    case BadSize => End(UnmodelledSize)
    case Size(start, size) =>
      if size == 0 then End(Body([]))
      else if start + size > |body| then End(Truncated)
      else if !CrlfAt(body, start + size) then End(NoTerminator)
      else More(body[start..start + size], start + size + 2)
  }

  function RoundAt(body: Bytes, pos: nat): (r: Round)
    ensures r.More? ==> pos + 4 <= r.next <= |body|
  {
    TakeChunk(body, ReadSize(body, pos))
  }

  /** What a body decodes to: one round, and then the rest as a body of its own. */
  function Decode(body: Bytes): Decoded
    decreases |body|
  {
    var r := RoundAt(body, 0);
    if r.End? then r.result else Prepend(r.payload, Decode(body[r.next..]))
  }

  /** _decode_chunked_body. */
  method DecodeChunkedBody(raw: Bytes) returns (d: Decoded)
    ensures d == Decode(raw)
  {
    var out: Bytes := [];
    var pos := 0;
    assert raw[0..] == raw;
    while true
      invariant pos <= |raw|
      invariant Decode(raw) == Prepend(out, Decode(raw[pos..]))
      decreases |raw| - pos
    {
      RoundUnfolds(raw, pos, out);
      var r := ReadRound(raw, pos);
      if r.End? { return if r.result == Body([]) then Body(out) else r.result; }
      out := out + r.payload;
      pos := r.next;
    }
  }

  /** One round of that loop: the size line, the payload and its terminator. */
  method ReadRound(raw: Bytes, pos: nat) returns (r: Round)
    requires pos <= |raw|
    ensures r == RoundAt(raw, pos)
  {
    var l := ReadSize(raw, pos);
    if l.NoLine? { return End(NoSizeLine); }
    if l.BadSize? { return End(UnmodelledSize); }
    if l.size == 0 { return End(Body([])); }
    var stop := l.start + l.size;
    if stop > |raw| { return End(Truncated); }
    if !CrlfAt(raw, stop) { return End(NoTerminator); }
    return More(raw[l.start..stop], stop + 2);
  }

  /** What has been decoded before a round, the round, and what the rest decodes to. */
  function Joined(out: Bytes, r: Round, rest: Decoded): Decoded {
    if r.More? then Prepend(out + r.payload, rest)
    else if r.result == Body([]) then Body(out)
    else r.result
  }

  function RestAfter(body: Bytes, r: Round): Decoded
    requires r.More? ==> r.next <= |body|
  {
    if r.More? then Decode(body[r.next..]) else NoSizeLine
  }

  lemma RoundUnfolds(body: Bytes, pos: nat, out: Bytes)
    requires pos <= |body|
    ensures var r := RoundAt(body, pos); Prepend(out, Decode(body[pos..])) == Joined(out, r, RestAfter(body, r))
  {
    var q := RoundAt(body[pos..], 0);
    FirstUnfolds(body[pos..], q, out);
    RoundOfRest(body, pos);
    SameRest(body, pos, q);
  }

  lemma FirstUnfolds(body: Bytes, r: Round, out: Bytes)
    requires r == RoundAt(body, 0)
    ensures Prepend(out, Decode(body)) == Joined(out, r, RestAfter(body, r))
  {
    if r.More? {
      PrependTwice(out, r.payload, Decode(body[r.next..]));
    } else {
      assert out + [] == out;
    }
  }

  lemma SameRest(body: Bytes, pos: nat, q: Round)
    requires pos <= |body| && (q.More? ==> q.next <= |body[pos..]|)
    ensures RestAfter(body, Later(q, pos)) == RestAfter(body[pos..], q)
  {
    if q.More? { assert body[pos..][q.next..] == body[pos + q.next..]; }
  }

  /** A round that begins so much later. */
  function Later(r: Round, n: nat): Round {
    if r.End? then r else More(r.payload, n + r.next)
  }

  lemma RoundOfRest(body: Bytes, pos: nat)
    requires pos <= |body|
    ensures RoundAt(body, pos) == Later(RoundAt(body[pos..], 0), pos)
  {
    assert body == body[..pos] + body[pos..];
    RoundShift(body[..pos], body[pos..], 0);
  }

  lemma PrependTwice(a: Bytes, b: Bytes, d: Decoded)
    ensures Prepend(a, Prepend(b, d)) == Prepend(a + b, d)
  {
    if d.Body? { assert a + (b + d.body) == a + b + d.body; }
  }

  // ---- The coding ---------------------------------------------------------------------------------

  /** A size line: hexadecimal digits of any case and with any leading zeros, space around
      them, and possibly extensions. */
  datatype SizeLine = SizeLine(before: Bytes, digits: Bytes, after: Bytes, extensions: Bytes)

  datatype Chunk = Chunk(line: SizeLine, payload: Bytes)

  function Text(l: SizeLine): Bytes {
    l.before + l.digits + l.after + l.extensions
  }

  predicate HasCrlf(s: Bytes) {
    exists i :: 0 <= i < |s| - 1 && s[i] == CR && s[i + 1] == LF
  }

  predicate AllSpace(s: Bytes) {
    forall i :: 0 <= i < |s| ==> IsSpace(s[i])
  }

  predicate WellFormed(l: SizeLine) {
    && AllSpace(l.before) && AllSpace(l.after) && l.digits != [] && AllHex(l.digits)
    && (l.extensions == [] || l.extensions[0] == SEMICOLON)
    && !HasCrlf(Text(l))
  }

  predicate WellFormedChunk(c: Chunk) {
    WellFormed(c.line) && c.payload != [] && HexValue(c.line.digits) == |c.payload|
  }

  /** The body: the chunks, a last chunk of size zero, and whatever trailer follows. */
  function Encode(chunks: seq<Chunk>, last: SizeLine, trailer: Bytes): Bytes {
    if chunks == [] then Text(last) + CRLF + trailer
    else Text(chunks[0].line) + CRLF + (chunks[0].payload + CRLF + Encode(chunks[1..], last, trailer))
  }

  function Payloads(chunks: seq<Chunk>): Bytes {
    if chunks == [] then [] else chunks[0].payload + Payloads(chunks[1..])
  }

  // ---- Decoding undoes the coding -------------------------------------------------------------------

  /** A round at a position is the first round of the rest. */
  lemma {:induction false} FindShift(prefix: Bytes, rest: Bytes, pos: nat)
    requires pos <= |rest|
    ensures FindCrlf(prefix + rest, |prefix| + pos) ==
      match FindCrlf(rest, pos) case None => None case Some(n) => Some(|prefix| + n)
    decreases |rest| - pos
  {
    if pos + 2 <= |rest| && !(rest[pos] == CR && rest[pos + 1] == LF) {
      FindShift(prefix, rest, pos + 1);
    }
  }

  lemma ReadSizeShift(prefix: Bytes, rest: Bytes, pos: nat)
    requires pos <= |rest|
    ensures ReadSize(prefix + rest, |prefix| + pos) ==
      Shift(ReadSize(rest, pos), |prefix|)
  {
    FindShift(prefix, rest, pos);
    var end := FindCrlf(rest, pos);
    if end.Some? {
      assert (prefix + rest)[|prefix| + pos..|prefix| + end.value] == rest[pos..end.value];
    }
  }

  lemma SliceShift(prefix: Bytes, rest: Bytes, i: nat, j: nat)
    requires i <= j <= |rest|
    ensures (prefix + rest)[|prefix| + i..|prefix| + j] == rest[i..j]
  {
  }

  lemma CrlfShift(prefix: Bytes, rest: Bytes, pos: nat)
    ensures CrlfAt(prefix + rest, |prefix| + pos) <==> CrlfAt(rest, pos)
  {
    if pos + 2 <= |rest| { SliceShift(prefix, rest, pos, pos + 2); }
  }

  function Shift(l: Line, n: nat): Line {
    if l.Size? then Size(n + l.start, l.size) else l
  }

  lemma TakeChunkShift(prefix: Bytes, rest: Bytes, l: Line)
    ensures TakeChunk(prefix + rest, Shift(l, |prefix|)) == Later(TakeChunk(rest, l), |prefix|)
  {
    if l.Size? && l.start + l.size <= |rest| {
      CrlfShift(prefix, rest, l.start + l.size);
      SliceShift(prefix, rest, l.start, l.start + l.size);
    }
  }

  lemma RoundShift(prefix: Bytes, rest: Bytes, pos: nat)
    requires pos <= |rest|
    ensures RoundAt(prefix + rest, |prefix| + pos) == Later(RoundAt(rest, pos), |prefix|)
  {
    ReadSizeShift(prefix, rest, pos);
    TakeChunkShift(prefix, rest, ReadSize(rest, pos));
  }

  /** The line ends at the first CRLF behind it. */
  lemma {:induction false} FindLineEnd(line: Bytes, rest: Bytes, pos: nat)
    requires !HasCrlf(line) && pos <= |line|
    ensures FindCrlf(line + CRLF + rest, pos) == Some(|line|)
    decreases |line| - pos
  {
    var body := line + CRLF + rest;
    if pos == |line| {
      assert body[pos] == CR && body[pos + 1] == LF;
    } else {
      assert body[pos] == line[pos];
      assert pos + 1 < |line| ==> !(line[pos] == CR && line[pos + 1] == LF);
      FindLineEnd(line, rest, pos + 1);
    }
  }

  lemma {:induction false} BeforeExtension(s: Bytes, extensions: Bytes)
    requires SEMICOLON !in s && (extensions == [] || extensions[0] == SEMICOLON)
    ensures BeforeSemicolon(s + extensions) == s
  {
    if s == [] {
      assert s + extensions == extensions;
    } else {
      assert (s + extensions)[1..] == s[1..] + extensions;
      assert s[0] in s;
      BeforeExtension(s[1..], extensions);
    }
  }

  lemma {:induction false} StripLeftSpace(before: Bytes, s: Bytes)
    requires AllSpace(before) && s != [] && !IsSpace(s[0])
    ensures StripLeft(before + s) == s
  {
    if before == [] {
      assert before + s == s;
    } else {
      assert (before + s)[1..] == before[1..] + s;
      StripLeftSpace(before[1..], s);
    }
  }

  lemma {:induction false} StripRightSpace(s: Bytes, after: Bytes)
    requires AllSpace(after) && s != [] && !IsSpace(s[|s| - 1])
    ensures StripRight(s + after) == s
  {
    if after == [] {
      assert s + after == s;
    } else {
      assert (s + after)[..|s + after| - 1] == s + after[..|after| - 1];
      StripRightSpace(s, after[..|after| - 1]);
    }
  }

  lemma SizeReadBack(l: SizeLine)
    requires WellFormed(l)
    ensures SizeOf(Text(l)) == Some(HexValue(l.digits))
  {
    var s := l.before + l.digits + l.after;
    assert Text(l) == s + l.extensions;
    forall i | 0 <= i < |s| ensures s[i] != SEMICOLON {
      if i < |l.before| { assert IsSpace(l.before[i]); }
      else if i < |l.before| + |l.digits| { assert HexDigit(l.digits[i - |l.before|]).Some?; }
      else { assert IsSpace(l.after[i - |l.before| - |l.digits|]); }
    }
    BeforeExtension(s, l.extensions);
    assert s == l.before + (l.digits + l.after);
    assert HexDigit(l.digits[0]).Some? && HexDigit(l.digits[|l.digits| - 1]).Some?;
    StripLeftSpace(l.before, l.digits + l.after);
    StripRightSpace(l.digits, l.after);
  }

  lemma ReadLine(l: SizeLine, rest: Bytes)
    requires WellFormed(l)
    ensures ReadSize(Text(l) + CRLF + rest, 0) == Size(|Text(l)| + 2, HexValue(l.digits))
  {
    var line := Text(l);
    FindLineEnd(line, rest, 0);
    SizeReadBack(l);
    assert (line + CRLF + rest)[0..|line|] == line;
  }

  /** One whole chunk. */
  lemma DecodeChunk(c: Chunk, rest: Bytes)
    requires WellFormedChunk(c)
    ensures Decode(Text(c.line) + CRLF + (c.payload + CRLF + rest)) == Prepend(c.payload, Decode(rest))
  {
    var head := Text(c.line) + CRLF;
    ReadLine(c.line, c.payload + CRLF + rest);
    TakePayload(head, c.payload, rest);
    RestAfterChunk(head, c.payload, rest);
    DecodeRound(head + (c.payload + CRLF + rest), c.payload, |head| + |c.payload| + 2, rest);
  }

  lemma DecodeRound(body: Bytes, payload: Bytes, next: nat, rest: Bytes)
    requires RoundAt(body, 0) == More(payload, next) && body[next..] == rest
    ensures Decode(body) == Prepend(payload, Decode(rest))
  {
  }

  lemma RestAfterChunk(head: Bytes, payload: Bytes, rest: Bytes)
    ensures (head + (payload + CRLF + rest))[|head| + |payload| + 2..] == rest
  {
    assert head + (payload + CRLF + rest) == (head + payload + CRLF) + rest;
  }

  lemma TakePayload(head: Bytes, payload: Bytes, rest: Bytes)
    requires payload != []
    ensures TakeChunk(head + (payload + CRLF + rest), Size(|head|, |payload|)) == More(payload, |head| + |payload| + 2)
  {
    var tail := payload + CRLF + rest;
    SliceShift(head, tail, 0, |payload|);
    assert tail[0..|payload|] == payload;
    CrlfShift(head, tail, |payload|);
    assert tail[|payload|..|payload| + 2] == CRLF;
  }

  lemma DecodeLast(last: SizeLine, trailer: Bytes)
    requires WellFormed(last) && HexValue(last.digits) == 0
    ensures Decode(Text(last) + CRLF + trailer) == Body([])
  {
    ReadLine(last, trailer);
  }

  /** Whatever the payloads hold, CRLF included, and however the sizes are written, decoding
      gives the concatenation of the chunks. */
  lemma {:induction false} DecodeUndoesEncode(chunks: seq<Chunk>, last: SizeLine, trailer: Bytes)
    requires AllWellFormed(chunks) && WellFormed(last) && HexValue(last.digits) == 0
    ensures Decode(Encode(chunks, last, trailer)) == Body(Payloads(chunks))
  {
    if chunks == [] {
      DecodeLast(last, trailer);
    } else {
      DecodeUndoesEncode(chunks[1..], last, trailer);
      DecodeChunk(chunks[0], Encode(chunks[1..], last, trailer));
    }
  }

  // ---- Nothing else is accepted -----------------------------------------------------------------

  lemma {:induction false} FindFirst(body: Bytes, pos: nat)
    ensures FindCrlf(body, pos).Some? ==> !HasCrlf(body[pos..FindCrlf(body, pos).value])
    decreases |body| - pos
  {
    if pos + 2 <= |body| && !(body[pos] == CR && body[pos + 1] == LF) {
      FindFirst(body, pos + 1);
      var end := FindCrlf(body, pos);
      if end.Some? {
        var line, rest := body[pos..end.value], body[pos + 1..end.value];
        forall i | 0 <= i < |line| - 1 ensures !(line[i] == CR && line[i + 1] == LF) {
          if i > 0 { assert line[i] == rest[i - 1] && line[i + 1] == rest[i]; }
        }
      }
    }
  }

  lemma {:induction false} SplitAtSemicolon(line: Bytes) returns (extensions: Bytes)
    ensures line == BeforeSemicolon(line) + extensions
    ensures extensions == [] || extensions[0] == SEMICOLON
  {
    if line == [] || line[0] == SEMICOLON {
      extensions := line;
    } else {
      extensions := SplitAtSemicolon(line[1..]);
      assert line == [line[0]] + line[1..];
    }
  }

  lemma {:induction false} SplitLeft(s: Bytes) returns (before: Bytes)
    ensures s == before + StripLeft(s) && AllSpace(before)
  {
    if s != [] && IsSpace(s[0]) {
      before := SplitLeft(s[1..]);
      before := [s[0]] + before;
    } else {
      before := [];
    }
  }

  lemma {:induction false} SplitRight(s: Bytes) returns (after: Bytes)
    ensures s == StripRight(s) + after && AllSpace(after)
  {
    if s != [] && IsSpace(s[|s| - 1]) {
      after := SplitRight(s[..|s| - 1]);
      assert s == s[..|s| - 1] + [s[|s| - 1]];
      after := after + [s[|s| - 1]];
    } else {
      after := [];
    }
  }

  lemma SizeLineOf(line: Bytes) returns (l: SizeLine)
    requires SizeOf(line).Some? && !HasCrlf(line)
    ensures WellFormed(l) && Text(l) == line && HexValue(l.digits) == SizeOf(line).value
  {
    var extensions := SplitAtSemicolon(line);
    var s := BeforeSemicolon(line);
    var before := SplitLeft(s);
    var after := SplitRight(StripLeft(s));
    l := SizeLine(before, Strip(s), after, extensions);
    assert s == before + (Strip(s) + after);
    assert Text(l) == line;
  }

  /** Where a size line was read, one stands. */
  lemma LineWasThere(body: Bytes) returns (l: SizeLine)
    requires ReadSize(body, 0).Size?
    ensures WellFormed(l) && HexValue(l.digits) == ReadSize(body, 0).size
    ensures body == Text(l) + CRLF + body[ReadSize(body, 0).start..] && |Text(l)| + 2 == ReadSize(body, 0).start
  {
    var end := FindCrlf(body, 0).value;
    FindFirst(body, 0);
    l := SizeLineOf(body[0..end]);
    assert body[end..end + 2] == CRLF;
    assert body == body[0..end] + body[end..end + 2] + body[end + 2..];
  }

  /** Where a chunk was read, one stands. */
  lemma ChunkWasThere(body: Bytes) returns (c: Chunk, rest: Bytes)
    requires RoundAt(body, 0).More?
    ensures WellFormedChunk(c) && |rest| < |body|
    ensures body == Text(c.line) + CRLF + (c.payload + CRLF + rest) && rest == body[RoundAt(body, 0).next..]
  {
    var l := ReadSize(body, 0);
    var line := LineWasThere(body);
    var stop := l.start + l.size;
    c, rest := Chunk(line, body[l.start..stop]), body[stop + 2..];
    assert body[stop..stop + 2] == CRLF;
    assert body[l.start..] == c.payload + CRLF + rest;
  }

  predicate AllWellFormed(chunks: seq<Chunk>) {
    forall i :: 0 <= i < |chunks| ==> WellFormedChunk(chunks[i])
  }

  lemma OneChunkMore(c: Chunk, chunks: seq<Chunk>, last: SizeLine, trailer: Bytes)
    requires AllWellFormed(chunks) && WellFormedChunk(c)
    ensures AllWellFormed([c] + chunks)
    ensures Encode([c] + chunks, last, trailer)
         == Text(c.line) + CRLF + (c.payload + CRLF + Encode(chunks, last, trailer))
  {
    assert ([c] + chunks)[1..] == chunks;
  }

  /** A body that is accepted is a well-formed coding: chunks of the stated sizes, each with its
      terminator, and a last chunk of size zero. (What it decodes to is then their payloads.) */
  lemma {:induction false} AcceptedIsEncoded(body: Bytes)
    returns (chunks: seq<Chunk>, last: SizeLine, trailer: Bytes)
    requires Decode(body).Body?
    ensures AllWellFormed(chunks) && WellFormed(last) && HexValue(last.digits) == 0
    ensures body == Encode(chunks, last, trailer)
    decreases |body|
  {
    if RoundAt(body, 0).End? {
      last := LineWasThere(body);
      return [], last, body[ReadSize(body, 0).start..];
    }
    var c, rest := ChunkWasThere(body);
    chunks, last, trailer := AcceptedIsEncoded(rest);
    OneChunkMore(c, chunks, last, trailer);
    chunks := [c] + chunks;
  }
}
