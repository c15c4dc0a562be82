/** The bounded HTTP/1.1 response reader of the fleet telemetry collector
    (aggregator/src/one_mail_agg/fleet_metrics.py): a body framed by Content-Length, by
    chunks (section 7.1 of RFC 9112) or by the end of the connection.

    The stream is a string whose characters stand for bytes. */
module HttpBody {
  import opened Wrappers
  import opened Text

  const MAX_RESPONSE_BYTES: nat := 512 * 1024
  const MAX_HEADER_BYTES: nat := 32 * 1024
  const STREAM_LIMIT: nat := 32 * 1024
  const LINE_MAX: nat := 8192
  const CHUNK_LINE_MAX: nat := 256
  const CRLF: string := "\r\n"

  datatype Code =
    | InvalidFraming | InvalidStatus | HttpStatus(digits: string) | InvalidHeaders
    | UnsupportedEncoding | InvalidChunk | TooLarge | TransportFailure

  /** What was read, and what is left of the stream. */
  datatype Read<+T> = Got(value: T, rest: string) | Fail(code: Code)
  {
    predicate IsFailure() { Fail? }
    function PropagateFailure<U>(): Read<U> requires Fail? { Fail(code) }
    function Extract(): (T, string) requires Got? { (value, rest) }
  }

  // ----- Lines -----

  /** `_read_line`: up to a line feed that must follow a carriage return. */
  function ReadLine(s: string, maximum: nat): Read<string> {
    var i := IndexOf(s, '\n');
    if i > STREAM_LIMIT then Fail(TransportFailure)
    else if i == |s| || i == 0 || s[i - 1] != '\r' || i + 1 > maximum then Fail(InvalidFraming)
    else Got(s[..i - 1], s[i + 1..])
  }

  lemma {:induction false} ReadLineShrinks(s: string, maximum: nat)
    ensures ReadLine(s, maximum).Got? ==> |ReadLine(s, maximum).rest| < |s|
  {
  }

  // ----- Header fields -----

  function Lower(c: char): char { if 'A' <= c <= 'Z' then 'a' + (c - 'A') else c }

  function LowerAll(s: string): (r: string)
    ensures |r| == |s|
  {
    seq(|s|, i requires 0 <= i < |s| => Lower(s[i]))
  }

  predicate IsSpace(c: char) { c in " \t\n\r" || c == 11 as char || c == 12 as char }

  function StripLeft(s: string): string { if s != [] && IsSpace(s[0]) then StripLeft(s[1..]) else s }

  function StripRight(s: string): string {
    if s != [] && IsSpace(s[|s| - 1]) then StripRight(s[..|s| - 1]) else s
  }

  function FieldName(line: string): string { LowerAll(line[..IndexOf(line, ':')]) }

  function FieldValue(line: string): string {
    var i := IndexOf(line, ':');
    if i == |line| then [] else LowerAll(StripRight(StripLeft(line[i + 1..])))
  }

  predicate IsFraming(name: string) {
    name == "content-length" || name == "transfer-encoding" || name == "content-encoding"
  }

  datatype Head = Head(fields: map<string, string>, bytes: nat)

  /** One header line added to what was read so far. */
  function AddLine(h: Head, line: string): Option<Head> {
    var bytes := h.bytes + |line|;
    if IndexOf(line, ':') == |line| || bytes > MAX_HEADER_BYTES || FieldName(line) in h.fields then None
    else if IsFraming(FieldName(line)) then Some(Head(h.fields[FieldName(line) := FieldValue(line)], bytes))
    else Some(Head(h.fields, bytes))
  }

  function ReadHead(s: string, h: Head): Read<Head>
    decreases |s|
  {
    var (line, rest) :- ReadLine(s, LINE_MAX);
    if line == [] then Got(h, rest)
    else
      match AddLine(h, line)
      case None => Fail(InvalidHeaders)
      case Some(more) => ReadLineShrinks(s, LINE_MAX); ReadHead(rest, more)
  }

  // ----- Bodies -----

  predicate IsHex(c: char) { IsDigit(c) || 'a' <= c <= 'f' || 'A' <= c <= 'F' }

  function HexDigit(c: char): nat
    requires IsHex(c)
  {
    if IsDigit(c) then (c - '0') as nat
    else if 'a' <= c then 10 + (c - 'a') as nat
    else 10 + (c - 'A') as nat
  }

  predicate AllHex(s: string) { forall i | 0 <= i < |s| :: IsHex(s[i]) }

  function HexValue(s: string): nat
    requires AllHex(s)
  {
    if s == [] then 0 else HexValue(s[..|s| - 1]) * 16 + HexDigit(s[|s| - 1])
  }

  function ReadExactly(s: string, n: nat): Read<string> {
    if n <= |s| then Got(s[..n], s[n..]) else Fail(TransportFailure)
  }

  /** The lines after the last chunk, up to an empty one. */
  function ReadTrailers(s: string, bytes: nat): Read<()>
    decreases |s|
  {
    var (line, rest) :- ReadLine(s, LINE_MAX);
    if line == [] then Got((), rest)
    else if bytes + |line| > MAX_HEADER_BYTES then Fail(InvalidHeaders)
    else
      ReadLineShrinks(s, LINE_MAX);
      ReadTrailers(rest, bytes + |line|)
  }

  /** The size of the next chunk. */
  function ReadSize(s: string): Read<nat> {
    var (line, rest) :- ReadLine(s, CHUNK_LINE_MAX);
    var text := line[..IndexOf(line, ';')];
    if text == [] || !AllHex(text) then Fail(InvalidChunk) else Got(HexValue(text), rest)
  }

  function ReadChunks(s: string, body: string, bytes: nat): Read<string>
    decreases |s|
  {
    var (size, s1) :- ReadSize(s);
    if |body| + size > MAX_RESPONSE_BYTES then Fail(TooLarge)
    else if size == 0 then
      var (_, s2) :- ReadTrailers(s1, bytes);
      Got(body, s2)
    else
      var (data, s2) :- ReadExactly(s1, size);
      var (end, s3) :- ReadExactly(s2, 2);
      if end != CRLF then Fail(InvalidChunk)
      else
        ReadLineShrinks(s, CHUNK_LINE_MAX);
        ReadChunks(s3, body + data, bytes)
  }

  function ReadBody(h: Head, s: string): Read<string> {
    if "content-encoding" in h.fields && h.fields["content-encoding"] != "identity" then Fail(UnsupportedEncoding)
    else if "transfer-encoding" in h.fields then
      if h.fields["transfer-encoding"] != "chunked" || "content-length" in h.fields then Fail(InvalidFraming)
      else ReadChunks(s, [], h.bytes)
    else if "content-length" in h.fields then
      var text := h.fields["content-length"];
      if text == [] || !AllDigits(text) then Fail(TooLarge)
      else
        match ParseInt(text)
        case None => Fail(TransportFailure)
        case Some(n) => if n > MAX_RESPONSE_BYTES then Fail(TooLarge) else ReadExactly(s, n)
    else if |s| > MAX_RESPONSE_BYTES then Fail(TooLarge)
    else Got(s, [])
  }

  predicate StatusShape(line: string) {
    |line| >= 12 && line[..7] == "HTTP/1." && (line[7] == '0' || line[7] == '1') && line[8] == ' '
    && AllDigits(line[9..12]) && (|line| == 12 || (line[12] == ' ' && '\r' !in line[13..]))
  }

  /** The whole response: status line, header, body. */
  function Response(s: string): Read<string> {
    var (status, s1) :- ReadLine(s, LINE_MAX);
    if !StatusShape(status) then Fail(InvalidStatus)
    else if status[9..12] != "200" then Fail(HttpStatus(status[9..12]))
    else
      var (h, s2) :- ReadHead(s1, Head(map[], |status|));
      ReadBody(h, s2)
  }

  /** No returned body exceeds the limit, whatever the peer sends. */
  lemma {:induction false} ChunksBounded(s: string, body: string, bytes: nat)
    requires |body| <= MAX_RESPONSE_BYTES
    ensures ReadChunks(s, body, bytes).Got? ==> |ReadChunks(s, body, bytes).value| <= MAX_RESPONSE_BYTES
    decreases |s|
  {
    var size := ReadSize(s);
    if size.Got? && size.value > 0 {
      var data := ReadExactly(size.rest, size.value);
      if data.Got? && |data.rest| >= 2 && |body| + size.value <= MAX_RESPONSE_BYTES {
        ReadLineShrinks(s, CHUNK_LINE_MAX);
        ChunksBounded(data.rest[2..], body + data.value, bytes);
      }
    }
  }

  lemma {:induction false} ResponseBounded(s: string)
    ensures Response(s).Got? ==> |Response(s).value| <= 512 * 1024
  {
    var status := ReadLine(s, LINE_MAX);
    if status.Got? {
      var h := ReadHead(status.rest, Head(map[], |status.value|));
      if h.Got? {
        ChunksBounded(h.rest, [], h.value.bytes);
      }
    }
  }

  // ----- The reader object and the code's loops -----

  class StreamReader {
    var buffer: string

    constructor (s: string)
      ensures buffer == s
    {
      buffer := s;
    }

    method Line(maximum: nat) returns (failed: Option<Code>, line: string)
      modifies this
      ensures var r := ReadLine(old(buffer), maximum);
              if r.Fail? then failed == Some(r.code) && buffer == old(buffer)
              else failed == None && line == r.value && buffer == r.rest
    {
      line := [];
      var i := IndexOf(buffer, '\n');
      if i > STREAM_LIMIT {
        return Some(TransportFailure), line;
      }
      if i == |buffer| || i == 0 || buffer[i - 1] != '\r' || i + 1 > maximum {
        return Some(InvalidFraming), line;
      }
      failed, line := None, buffer[..i - 1];
      buffer := buffer[i + 1..];
    }

    method Exactly(n: nat) returns (failed: Option<Code>, data: string)
      modifies this
      ensures var r := ReadExactly(old(buffer), n);
              if r.Fail? then failed == Some(r.code) && buffer == old(buffer)
              else failed == None && data == r.value && buffer == r.rest
    {
      if n > |buffer| {
        return Some(TransportFailure), [];
      }
      failed, data := None, buffer[..n];
      buffer := buffer[n..];
    }

    /** Some of what is there, at most n bytes; nothing only at the end of the stream. */
    method Available(n: nat) returns (data: string)
      requires n > 0
      modifies this
      ensures old(buffer) == data + buffer && |data| <= n && (data == [] <==> old(buffer) == [])
    {
      var k := if |buffer| < n then |buffer| else n;
      data := buffer[..k];
      buffer := buffer[k..];
    }
  }

  method ReadHeadLines(reader: StreamReader, start: Head) returns (failed: Option<Code>, h: Head)
    modifies reader
    ensures var r := ReadHead(old(reader.buffer), start);
            if r.Fail? then failed == Some(r.code)
            else failed == None && h == r.value && reader.buffer == r.rest
  {
    h := start;
    while true
      invariant ReadHead(old(reader.buffer), start) == ReadHead(reader.buffer, h)
      decreases |reader.buffer|
    {
      ReadLineShrinks(reader.buffer, LINE_MAX);
      var line: string;
      failed, line := reader.Line(LINE_MAX);
      if failed.Some? || line == [] {
        return;
      }
      var more := AddLine(h, line);
      if more.None? {
        return Some(InvalidHeaders), h;
      }
      h := more.value;
    }
  }

  method ReadTrailerLines(reader: StreamReader, start: nat) returns (failed: Option<Code>)
    modifies reader
    ensures var r := ReadTrailers(old(reader.buffer), start);
            if r.Fail? then failed == Some(r.code) else failed == None && reader.buffer == r.rest
  {
    var bytes: nat := start;
    while true
      invariant ReadTrailers(old(reader.buffer), start) == ReadTrailers(reader.buffer, bytes)
      decreases |reader.buffer|
    {
      ReadLineShrinks(reader.buffer, LINE_MAX);
      var line: string;
      failed, line := reader.Line(LINE_MAX);
      if failed.Some? || line == [] {
        return;
      }
      bytes := bytes + |line|;
      if bytes > MAX_HEADER_BYTES {
        return Some(InvalidHeaders);
      }
    }
  }

  method ReadChunkedBody(reader: StreamReader, bytes: nat) returns (failed: Option<Code>, body: string)
    modifies reader
    ensures var r := ReadChunks(old(reader.buffer), [], bytes);
            if r.Fail? then failed == Some(r.code)
            else failed == None && body == r.value && reader.buffer == r.rest
  {
    body := [];
    while true
      invariant ReadChunks(old(reader.buffer), [], bytes) == ReadChunks(reader.buffer, body, bytes)
      decreases |reader.buffer|
    {
      ReadLineShrinks(reader.buffer, CHUNK_LINE_MAX);
      var line: string;
      failed, line := reader.Line(CHUNK_LINE_MAX);
      if failed.Some? {
        return;
      }
      var text := line[..IndexOf(line, ';')];
      if text == [] || !AllHex(text) {
        return Some(InvalidChunk), body;
      }
      var size := HexValue(text);
      if |body| + size > MAX_RESPONSE_BYTES {
        return Some(TooLarge), body;
      }
      if size == 0 {
        failed := ReadTrailerLines(reader, bytes);
        return;
      }
      var data: string;
      failed, data := reader.Exactly(size);
      if failed.Some? {
        return;
      }
      var end: string;
      failed, end := reader.Exactly(2);
      if failed.Some? {
        return;
      }
      if end != CRLF {
        return Some(InvalidChunk), body;
      }
      body := body + data;
    }
  }

  method ReadToEnd(reader: StreamReader) returns (failed: Option<Code>, body: string)
    modifies reader
    ensures if |old(reader.buffer)| > MAX_RESPONSE_BYTES then failed == Some(TooLarge)
            else failed == None && body == old(reader.buffer) && reader.buffer == []
  {
    body := [];
    while true
      invariant body + reader.buffer == old(reader.buffer) && |body| <= MAX_RESPONSE_BYTES
      decreases |reader.buffer|
    {
      var room := MAX_RESPONSE_BYTES + 1 - |body|;
      var chunk := reader.Available(if room < 64 * 1024 then room else 64 * 1024);
      if chunk == [] {
        return None, body;
      }
      body := body + chunk;
      if |body| > MAX_RESPONSE_BYTES {
        return Some(TooLarge), body;
      }
    }
  }

  /** `_read_response`, up to the body it hands to the JSON parser. */
  method ReadResponse(reader: StreamReader) returns (failed: Option<Code>, body: string)
    modifies reader
    ensures var r := Response(old(reader.buffer));
            if r.Fail? then failed == Some(r.code) else failed == None && body == r.value
  {
    body := [];
    var status: string;
    failed, status := reader.Line(LINE_MAX);
    if failed.Some? {
      return;
    }
    if !StatusShape(status) {
      return Some(InvalidStatus), body;
    }
    if status[9..12] != "200" {
      return Some(HttpStatus(status[9..12])), body;
    }
    var h: Head;
    failed, h := ReadHeadLines(reader, Head(map[], |status|));
    if failed.Some? {
      return;
    }
    failed, body := ReadFramedBody(reader, h);
  }

  method ReadFramedBody(reader: StreamReader, h: Head) returns (failed: Option<Code>, body: string)
    modifies reader
    ensures var r := ReadBody(h, old(reader.buffer));
            if r.Fail? then failed == Some(r.code) else failed == None && body == r.value
  {
    body := [];
    if "content-encoding" in h.fields && h.fields["content-encoding"] != "identity" {
      return Some(UnsupportedEncoding), body;
    }
    if "transfer-encoding" in h.fields && h.fields["transfer-encoding"] == "chunked" {
      if "content-length" in h.fields {
        return Some(InvalidFraming), body;
      }
      failed, body := ReadChunkedBody(reader, h.bytes);
    } else {
      if "transfer-encoding" in h.fields {
        return Some(InvalidFraming), body;
      }
      if "content-length" in h.fields {
        var text := h.fields["content-length"];
        if text == [] || !AllDigits(text) {
          return Some(TooLarge), body;
        }
        var n := ParseInt(text);
        if n.None? {
          return Some(TransportFailure), body;
        }
        if n.value > MAX_RESPONSE_BYTES {
          return Some(TooLarge), body;
        }
        failed, body := reader.Exactly(n.value);
      } else {
        failed, body := ReadToEnd(reader);
      }
    }
  }

  // ----- Encoding, and the round trip -----

  /** A line as it travels; `ReadLine` takes it back off the stream. */
  function Sent(line: string, rest: string): string { line + (CRLF + rest) }

  lemma {:induction false} ReadSent(line: string, rest: string, maximum: nat)
    requires '\n' !in line && |line| + 2 <= maximum <= STREAM_LIMIT
    ensures ReadLine(Sent(line, rest), maximum) == Got(line, rest)
  {
    var s := Sent(line, rest);
    assert s[|line|] == '\r' && s[|line| + 1] == '\n';
    assert forall k | 0 <= k < |line| :: s[k] == line[k];
    IndexOfIs(s, '\n', |line| + 1);
    assert s[..|line|] == line && s[|line| + 2..] == rest;
  }

  predicate PlainLine(line: string) { line != [] && '\n' !in line && |line| + 2 <= 8192 }

  function SentLines(lines: seq<string>, rest: string): string {
    if lines == [] then Sent([], rest) else Sent(lines[0], SentLines(lines[1..], rest))
  }

  function AddLines(h: Head, lines: seq<string>): Option<Head>
    decreases |lines|
  {
    if lines == [] then Some(h)
    else
      match AddLine(h, lines[0])
      case None => None
      case Some(more) => AddLines(more, lines[1..])
  }

  /** A header section reads back as what its lines add up to. */
  lemma {:induction false} ReadSentHead(lines: seq<string>, rest: string, h: Head)
    requires forall l | l in lines :: PlainLine(l)
    requires AddLines(h, lines).Some?
    ensures ReadHead(SentLines(lines, rest), h) == Got(AddLines(h, lines).value, rest)
    decreases |lines|
  {
    if lines == [] {
      ReadSent([], rest, LINE_MAX);
    } else {
      assert lines[0] in lines;
      ReadSent(lines[0], SentLines(lines[1..], rest), LINE_MAX);
      ReadSentHead(lines[1..], rest, AddLine(h, lines[0]).value);
    }
  }

  lemma {:induction false} ReadOneTrailer(line: string, later: string, bytes: nat)
    requires PlainLine(line) && bytes + |line| <= MAX_HEADER_BYTES
    ensures ReadTrailers(Sent(line, later), bytes) == ReadTrailers(later, bytes + |line|)
  {
    ReadSent(line, later, LINE_MAX);
  }

  function TotalLength(lines: seq<string>): nat {
    if lines == [] then 0 else |lines[0]| + TotalLength(lines[1..])
  }

  lemma {:induction false} ReadSentTrailers(lines: seq<string>, rest: string, bytes: nat)
    requires forall l | l in lines :: PlainLine(l)
    requires bytes + TotalLength(lines) <= MAX_HEADER_BYTES
    ensures ReadTrailers(SentLines(lines, rest), bytes) == Got((), rest)
    decreases |lines|
  {
    if lines == [] {
      ReadSent([], rest, LINE_MAX);
    } else {
      assert PlainLine(lines[0]) by {
        assert lines[0] in lines;
      }
      var later := SentLines(lines[1..], rest);
      ReadSentTrailers(lines[1..], rest, bytes + |lines[0]|);
      ReadOneTrailer(lines[0], later, bytes);
    }
  }

  /** One chunk: its data, the hexadecimal text of its size, and an extension. */
  datatype Chunk = Chunk(data: string, digits: string, extension: string)

  predicate LegalSizeLine(digits: string, extension: string) {
    digits != [] && AllHex(digits) && (extension == [] || extension[0] == ';') && '\n' !in extension
    && |digits| + |extension| + 2 <= 256
  }

  predicate LegalChunk(c: Chunk) {
    LegalSizeLine(c.digits, c.extension) && c.data != [] && HexValue(c.digits) == |c.data|
  }

  /** The last chunk's size line, and the trailer lines after it. */
  datatype Ending = Ending(digits: string, extension: string, trailers: seq<string>)

  predicate LegalEnding(e: Ending, bytes: nat) {
    LegalSizeLine(e.digits, e.extension) && HexValue(e.digits) == 0
    && (forall l | l in e.trailers :: PlainLine(l)) && bytes + TotalLength(e.trailers) <= 32 * 1024
  }

  function Data(chunks: seq<Chunk>): string {
    if chunks == [] then [] else chunks[0].data + Data(chunks[1..])
  }

  function SentChunks(chunks: seq<Chunk>, e: Ending, rest: string): string {
    if chunks == [] then Sent(e.digits + e.extension, SentLines(e.trailers, rest))
    else
      Sent(chunks[0].digits + chunks[0].extension, Sent(chunks[0].data, SentChunks(chunks[1..], e, rest)))
  }

  lemma {:induction false} ReadSentSize(digits: string, extension: string, rest: string)
    requires LegalSizeLine(digits, extension)
    ensures ReadSize(Sent(digits + extension, rest)) == Got(HexValue(digits), rest)
  {
    var line := digits + extension;
    ReadSent(line, rest, CHUNK_LINE_MAX);
    assert forall k | 0 <= k < |digits| :: line[k] == digits[k];
    IndexOfIs(line, ';', |digits|);
    assert line[..|digits|] == digits;
  }

  /** A chunk-size line is read exactly when it is hexadecimal digits and then nothing or a
      semicolon. */
  lemma {:induction false} SizeReadExactlyWhen(line: string, rest: string)
    requires '\n' !in line && |line| + 2 <= CHUNK_LINE_MAX
    ensures ReadSize(Sent(line, rest)).Got?
            <==> exists digits: string, extension: string ::
                   LegalSizeLine(digits, extension) && line == digits + extension
    ensures !ReadSize(Sent(line, rest)).Got? ==> ReadSize(Sent(line, rest)) == Fail(InvalidChunk)
  {
    ReadSent(line, rest, CHUNK_LINE_MAX);
    if ReadSize(Sent(line, rest)).Got? {
      var n := IndexOf(line, ';');
      assert line == line[..n] + line[n..] && LegalSizeLine(line[..n], line[n..]);
    }
    if digits: string, extension: string :| LegalSizeLine(digits, extension) && line == digits + extension {
      ReadSentSize(digits, extension, rest);
    }
  }

  predicate Blank(s: string) { forall c | c in s :: c == ' ' || c == '\t' }

  /** Whitespace before the semicolon of an extension, which section 7.1.1 of RFC 9112 tells a
      recipient to parse and remove, ends the response as an invalid chunk. */
  lemma {:induction false} PaddedSizeRefused(digits: string, pad: string, extension: string, rest: string,
                                             body: string, bytes: nat)
    requires LegalSizeLine(digits, extension) && pad != [] && Blank(pad)
    requires |digits + pad + extension| + 2 <= CHUNK_LINE_MAX
    ensures ReadChunks(Sent(digits + pad + extension, rest), body, bytes) == Fail(InvalidChunk)
  {
    var line := digits + pad + extension;
    assert line == digits + (pad + extension);
    ReadSent(line, rest, CHUNK_LINE_MAX);
    forall k | 0 <= k < |digits| + |pad|
      ensures line[k] != ';'
    {
      assert line[k] == if k < |digits| then digits[k] else pad[k - |digits|];
      assert k < |digits| || pad[k - |digits|] in pad;
    }
    IndexOfIs(line, ';', |digits| + |pad|);
    assert line[|digits|] == pad[0] && pad[0] in pad;
    assert line[..|digits| + |pad|][|digits|] == pad[0];
  }

  lemma {:induction false} ReadSentData(data: string, rest: string)
    ensures ReadExactly(Sent(data, rest), |data|) == Got(data, CRLF + rest)
    ensures ReadExactly(CRLF + rest, 2) == Got(CRLF, rest)
  {
  }

  /** Whatever non-empty chunks a body is split into, however their sizes are written, with
      any extensions and trailers, the decoder returns the concatenated data. */
  lemma {:induction false} ChunksRoundTrip(chunks: seq<Chunk>, e: Ending, rest: string, body: string, bytes: nat)
    requires (forall c | c in chunks :: LegalChunk(c)) && LegalEnding(e, bytes)
    requires |body| + |Data(chunks)| <= MAX_RESPONSE_BYTES
    ensures ReadChunks(SentChunks(chunks, e, rest), body, bytes) == Got(body + Data(chunks), rest)
    decreases |chunks|
  {
    if chunks == [] {
      ReadSentSize(e.digits, e.extension, SentLines(e.trailers, rest));
      ReadSentTrailers(e.trailers, rest, bytes);
      assert body + Data(chunks) == body;
    } else {
      assert chunks[0] in chunks;
      ReadFirstChunk(chunks[0], SentChunks(chunks[1..], e, rest), body, bytes);
      ChunksRoundTrip(chunks[1..], e, rest, body + chunks[0].data, bytes);
      Regroup(body, chunks[0].data, Data(chunks[1..]));
    }
  }

  lemma {:induction false} Regroup(a: string, b: string, c: string)
    ensures a + b + c == a + (b + c)
  {
  }

  lemma {:induction false} ReadFirstChunk(c: Chunk, rest: string, body: string, bytes: nat)
    requires LegalChunk(c) && |body| + |c.data| <= MAX_RESPONSE_BYTES
    ensures ReadChunks(Sent(c.digits + c.extension, Sent(c.data, rest)), body, bytes)
            == ReadChunks(rest, body + c.data, bytes)
  {
    ReadSentSize(c.digits, c.extension, Sent(c.data, rest));
    ReadSentData(c.data, rest);
  }

  /** A chunk that would take the body over the limit ends the read before its data. */
  lemma {:induction false} OversizeChunkRejected(c: Chunk, rest: string, body: string, bytes: nat)
    requires LegalChunk(c) && |body| + |c.data| > MAX_RESPONSE_BYTES
    ensures ReadChunks(Sent(c.digits + c.extension, rest), body, bytes) == Fail(TooLarge)
  {
    ReadSentSize(c.digits, c.extension, rest);
  }

  lemma {:induction false} OversizeBodyRejected(chunks: seq<Chunk>, e: Ending, rest: string, body: string, bytes: nat)
    requires forall c | c in chunks :: LegalChunk(c)
    requires |body| <= MAX_RESPONSE_BYTES < |body| + |Data(chunks)|
    ensures ReadChunks(SentChunks(chunks, e, rest), body, bytes) == Fail(TooLarge)
    decreases |chunks|
  {
    var c := chunks[0];
    assert c in chunks;
    var later := SentChunks(chunks[1..], e, rest);
    if |body| + |c.data| > MAX_RESPONSE_BYTES {
      OversizeChunkRejected(c, Sent(c.data, later), body, bytes);
    } else {
      ReadFirstChunk(c, later, body, bytes);
      OversizeBodyRejected(chunks[1..], e, rest, body + c.data, bytes);
    }
  }

  const STATUS_200: string := "HTTP/1.1 200 OK"

  /** Header lines that do not frame the body. */
  predicate OrdinaryLine(line: string) {
    PlainLine(line) && IndexOf(line, ':') < |line| && !IsFraming(FieldName(line))
  }

  /** A line giving one framing field its value, in any case and spacing. */
  predicate FramingLine(line: string, name: string, value: string) {
    PlainLine(line) && IndexOf(line, ':') < |line| && IsFraming(name)
    && FieldName(line) == name && FieldValue(line) == value
  }

  lemma {:induction false} OrdinaryThenFraming(lines: seq<string>, last: string, name: string, value: string, h: Head)
    requires forall l | l in lines :: OrdinaryLine(l)
    requires FramingLine(last, name, value) && h.fields == map[]
    requires h.bytes + TotalLength(lines) + |last| <= MAX_HEADER_BYTES
    ensures AddLines(h, lines + [last]) == Some(Head(map[name := value], h.bytes + TotalLength(lines) + |last|))
    ensures forall l | l in lines + [last] :: PlainLine(l)
    decreases |lines|
  {
    if lines == [] {
      assert (lines + [last])[1..] == [];
    } else {
      assert lines[0] in lines;
      assert (lines + [last])[1..] == lines[1..] + [last];
      OrdinaryThenFraming(lines[1..], last, name, value, Head(map[], h.bytes + |lines[0]|));
    }
  }

  predicate LegalHead(lines: seq<string>, last: string, name: string, value: string) {
    (forall l | l in lines :: OrdinaryLine(l)) && FramingLine(last, name, value)
    && HeadBytes(lines, last) <= 32 * 1024
  }

  function HeadBytes(lines: seq<string>, last: string): nat {
    |STATUS_200| + TotalLength(lines) + |last|
  }

  /** A 200 response: status, ordinary header lines, one framing line, then the rest. */
  function SentResponse(lines: seq<string>, last: string, rest: string): string {
    Sent(STATUS_200, SentLines(lines + [last], rest))
  }

  /** Such a response hands the rest to its framing. */
  lemma {:induction false} ReadFramed(lines: seq<string>, last: string, name: string, value: string, rest: string)
    requires LegalHead(lines, last, name, value)
    ensures Response(SentResponse(lines, last, rest))
            == ReadBody(Head(map[name := value], HeadBytes(lines, last)), rest)
  {
    var text, h := SentLines(lines + [last], rest), Head(map[name := value], HeadBytes(lines, last));
    ReadFramedHead(lines, last, name, value, rest, Start());
    assert ReadHead(text, Start()) == Got(h, rest);
    ReadStatus(text, h, rest);
  }

  function Start(): Head { Head(map[], |STATUS_200|) }

  lemma {:induction false} ReadFramedHead(lines: seq<string>, last: string, name: string, value: string,
                                          rest: string, h: Head)
    requires forall l | l in lines :: OrdinaryLine(l)
    requires FramingLine(last, name, value) && h.fields == map[]
    requires h.bytes + TotalLength(lines) + |last| <= MAX_HEADER_BYTES
    ensures ReadHead(SentLines(lines + [last], rest), h)
            == Got(Head(map[name := value], h.bytes + TotalLength(lines) + |last|), rest)
  {
    OrdinaryThenFraming(lines, last, name, value, h);
    ReadSentHead(lines + [last], rest, h);
  }

  lemma {:induction false} ReadStatus(s: string, h: Head, rest: string)
    requires ReadHead(s, Start()) == Got(h, rest)
    ensures Response(Sent(STATUS_200, s)) == ReadBody(h, rest)
  {
    StatusAccepted();
    ReadSent(STATUS_200, s, LINE_MAX);
  }

  lemma {:induction false} StatusAccepted()
    ensures StatusShape(STATUS_200) && STATUS_200[9..12] == "200" && '\n' !in STATUS_200
  {
    assert STATUS_200[..7] == "HTTP/1.";
    assert STATUS_200[13..] == "OK";
  }

  const TRANSFER_ENCODING: string := "transfer-encoding"
  const CONTENT_LENGTH: string := "content-length"

  /** Framing does not matter: the same body sent in any chunks, or whole under a
      Content-Length, decodes to that body. */
  lemma {:induction false} FramingsAgree(lines: seq<string>, chunkedLine: string, lengthLine: string,
                      chunks: seq<Chunk>, e: Ending, after: string)
    requires LegalHead(lines, chunkedLine, TRANSFER_ENCODING, "chunked")
    requires LegalHead(lines, lengthLine, CONTENT_LENGTH, Print(|Data(chunks)|))
    requires (forall c | c in chunks :: LegalChunk(c)) && LegalEnding(e, HeadBytes(lines, chunkedLine))
    requires |Data(chunks)| <= 512 * 1024
    ensures Response(SentResponse(lines, chunkedLine, SentChunks(chunks, e, after))) == Got(Data(chunks), after)
    ensures Response(SentResponse(lines, lengthLine, Data(chunks) + after)) == Got(Data(chunks), after)
  {
    ChunkedResponse(lines, chunkedLine, chunks, e, after);
    LengthResponse(lines, lengthLine, Data(chunks), after);
  }

  lemma {:induction false} ChunkedResponse(lines: seq<string>, last: string, chunks: seq<Chunk>, e: Ending,
                                           after: string)
    requires LegalHead(lines, last, TRANSFER_ENCODING, "chunked")
    requires (forall c | c in chunks :: LegalChunk(c)) && LegalEnding(e, HeadBytes(lines, last))
    requires |Data(chunks)| <= MAX_RESPONSE_BYTES
    ensures Response(SentResponse(lines, last, SentChunks(chunks, e, after))) == Got(Data(chunks), after)
  {
    var h := Head(map[TRANSFER_ENCODING := "chunked"], HeadBytes(lines, last));
    ReadFramed(lines, last, TRANSFER_ENCODING, "chunked", SentChunks(chunks, e, after));
    NamesDiffer();
    OnlyChunked(h, SentChunks(chunks, e, after));
    ChunksRoundTrip(chunks, e, after, [], h.bytes);
    assert [] + Data(chunks) == Data(chunks);
  }

  lemma {:induction false} LengthResponse(lines: seq<string>, last: string, body: string, after: string)
    requires LegalHead(lines, last, CONTENT_LENGTH, Print(|body|)) && |body| <= MAX_RESPONSE_BYTES
    ensures Response(SentResponse(lines, last, body + after)) == Got(body, after)
  {
    LengthFramed(lines, last, Print(|body|), |body|, body + after);
    TakeBody(body, after);
  }

  lemma {:induction false} LengthFramed(lines: seq<string>, last: string, text: string, n: nat, rest: string)
    requires LegalHead(lines, last, CONTENT_LENGTH, text) && text == Print(n) && n < 10_000_000_000
    ensures Response(SentResponse(lines, last, rest)) ==
            if n > MAX_RESPONSE_BYTES then Fail(TooLarge) else ReadExactly(rest, n)
  {
    var h := Head(map[CONTENT_LENGTH := text], HeadBytes(lines, last));
    ReadFramed(lines, last, CONTENT_LENGTH, text, rest);
    NamesDiffer();
    OnlyLength(h, n, rest);
  }

  lemma {:induction false} TakeBody(body: string, after: string)
    ensures ReadExactly(body + after, |body|) == Got(body, after)
  {
  }

  lemma {:induction false} OnlyChunked(h: Head, s: string)
    requires "content-encoding" !in h.fields && CONTENT_LENGTH !in h.fields
    requires TRANSFER_ENCODING in h.fields && h.fields[TRANSFER_ENCODING] == "chunked"
    ensures ReadBody(h, s) == ReadChunks(s, [], h.bytes)
  {
  }

  lemma {:induction false} OnlyLength(h: Head, n: nat, s: string)
    requires "content-encoding" !in h.fields && TRANSFER_ENCODING !in h.fields && n < 10_000_000_000
    requires CONTENT_LENGTH in h.fields && h.fields[CONTENT_LENGTH] == Print(n)
    ensures ReadBody(h, s) == if n > MAX_RESPONSE_BYTES then Fail(TooLarge) else ReadExactly(s, n)
  {
    ParsePrinted(n);
  }

  lemma {:induction false} NamesDiffer()
    ensures CONTENT_LENGTH != TRANSFER_ENCODING && CONTENT_LENGTH != "content-encoding"
    ensures TRANSFER_ENCODING != "content-encoding"
  {
    assert CONTENT_LENGTH[0] == 'c' && TRANSFER_ENCODING[0] == 't' && "content-encoding"[0] == 'c';
    assert |CONTENT_LENGTH| == 14 && |"content-encoding"| == 16;
  }

  /** Over the limit nothing is returned, in either framing: the chunk that would cross it,
      or the announced length, ends the read. */
  lemma {:induction false} OversizeRejected(lines: seq<string>, chunkedLine: string, lengthLine: string,
                         chunks: seq<Chunk>, e: Ending, after: string)
    requires LegalHead(lines, chunkedLine, TRANSFER_ENCODING, "chunked")
    requires LegalHead(lines, lengthLine, CONTENT_LENGTH, Print(|Data(chunks)|))
    requires forall c | c in chunks :: LegalChunk(c)
    requires 512 * 1024 < |Data(chunks)| < 10_000_000_000
    ensures Response(SentResponse(lines, chunkedLine, SentChunks(chunks, e, after))) == Fail(TooLarge)
    ensures Response(SentResponse(lines, lengthLine, Data(chunks) + after)) == Fail(TooLarge)
  {
    OversizeChunkedResponse(lines, chunkedLine, chunks, e, after);
    LengthFramed(lines, lengthLine, Print(|Data(chunks)|), |Data(chunks)|, Data(chunks) + after);
  }

  lemma {:induction false} OversizeChunkedResponse(lines: seq<string>, last: string, chunks: seq<Chunk>, e: Ending,
                                                   after: string)
    requires LegalHead(lines, last, TRANSFER_ENCODING, "chunked")
    requires (forall c | c in chunks :: LegalChunk(c)) && |Data(chunks)| > MAX_RESPONSE_BYTES
    ensures Response(SentResponse(lines, last, SentChunks(chunks, e, after))) == Fail(TooLarge)
  {
    var h := Head(map[TRANSFER_ENCODING := "chunked"], HeadBytes(lines, last));
    ReadFramed(lines, last, TRANSFER_ENCODING, "chunked", SentChunks(chunks, e, after));
    NamesDiffer();
    OnlyChunked(h, SentChunks(chunks, e, after));
    OversizeBodyRejected(chunks, e, after, [], h.bytes);
  }
}
