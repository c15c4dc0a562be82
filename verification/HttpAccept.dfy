/** Which streams the response reader of the telemetry collector accepts, and what each gives
    (aggregator/src/one_mail_agg/fleet_metrics.py): the converse of the round trips, over the
    text of the stream alone. */
module HttpAccept {
  import opened Wrappers
  import opened Text
  import opened HttpBody

  // ----- Lines, fields and sizes -----

  /** A line is read exactly when it is the text up to the first line feed, a carriage return goes
      before that, and it is not too long. */
  lemma {:induction false} LineReadExactlyWhen(s: string, maximum: nat, line: string, rest: string)
    requires maximum <= 32 * 1024
    ensures ReadLine(s, maximum) == Got(line, rest)
            <==> s == line + ("\r\n" + rest) && '\n' !in line && |line| + 2 <= maximum
  {
    if ReadLine(s, maximum) == Got(line, rest) {
      var i := IndexOf(s, '\n');
      assert s == s[..i - 1] + ("\r\n" + s[i + 1..]);
    }
    if s == line + ("\r\n" + rest) && '\n' !in line && |line| + 2 <= maximum {
      ReadSent(line, rest, maximum);
    }
  }

  /** `lower` is `s` with its ASCII capitals made small. */
  ghost predicate Lowered(s: string, lower: string) {
    |lower| == |s|
    && forall i | 0 <= i < |s| ::
         lower[i] == if 'A' <= s[i] <= 'Z' then ((s[i] as int) + 32) as char else s[i]
  }

  /** Blanks at the ends of a value do not count. */
  ghost predicate Trimmed(value: string) {
    value != [] ==> !IsSpace(value[0]) && !IsSpace(value[|value| - 1])
  }

  ghost predicate AllSpace(s: string) { forall i | 0 <= i < |s| :: IsSpace(s[i]) }

  lemma {:induction false} StripLeftDrops(pad: string, s: string)
    requires AllSpace(pad) && (s != [] ==> !IsSpace(s[0]))
    ensures StripLeft(pad + s) == s
  {
    if pad != [] {
      assert (pad + s)[1..] == pad[1..] + s;
      StripLeftDrops(pad[1..], s);
    } else {
      assert pad + s == s;
    }
  }

  lemma {:induction false} StripRightDrops(s: string, pad: string)
    requires AllSpace(pad) && (s != [] ==> !IsSpace(s[|s| - 1]))
    ensures StripRight(s + pad) == s
  {
    if pad != [] {
      assert (s + pad)[..|s + pad| - 1] == s + pad[..|pad| - 1];
      StripRightDrops(s, pad[..|pad| - 1]);
    } else {
      assert s + pad == s;
    }
  }

  /** The name of a header line is what stands before its first colon and its value what stands
      behind it without the blanks around, both in small letters. */
  lemma {:induction false} FieldExactly(name: string, pad: string, value: string, pad': string)
    requires ':' !in name && AllSpace(pad) && AllSpace(pad') && Trimmed(value)
    ensures var line := name + ":" + (pad + value + pad');
            Lowered(name, FieldName(line)) && Lowered(value, FieldValue(line))
  {
    var behind := pad + value + pad';
    var line := name + ":" + behind;
    IndexOfIs(line, ':', |name|);
    assert line[..|name|] == name && line[|name| + 1..] == behind;
    if value == [] {
      assert behind == (pad + pad') + [];
      StripLeftDrops(pad + pad', []);
    } else {
      assert behind == pad + (value + pad');
      StripLeftDrops(pad, value + pad');
      StripRightDrops(value, pad');
    }
  }

  /** Hexadecimal digits in either case have their values, most significant first. */
  lemma {:induction false} HexExactly(d: nat, s: string)
    requires d < 16 && AllHex(s)
    ensures var small, capital := "0123456789abcdef"[d], "0123456789ABCDEF"[d];
            && AllHex(s + [small]) && HexValue(s + [small]) == 16 * HexValue(s) + d
            && AllHex(s + [capital]) && HexValue(s + [capital]) == 16 * HexValue(s) + d
            && HexValue([]) == 0
  {
    var small, capital := "0123456789abcdef"[d], "0123456789ABCDEF"[d];
    assert (s + [small])[..|s|] == s && (s + [capital])[..|s|] == s;
  }

  lemma {:induction false} HexExactlyWhen(c: char)
    ensures IsHex(c) <==> c in "0123456789abcdefABCDEF"
  {
    var all := "0123456789abcdefABCDEF";
    if IsHex(c) {
      var i := if c <= '9' then (c - '0') as int else if 'a' <= c then 10 + (c - 'a') as int else 16 + (c - 'A') as int;
      assert all[i] == c;
    }
  }

  // ----- Headers -----

  predicate Framing(name: string) {
    name == "content-length" || name == "transfer-encoding" || name == "content-encoding"
  }

  predicate HeaderLine(line: string) { line != [] && '\n' !in line && |line| + 2 <= 8192 && ':' in line }

  /** No framing field is given twice. */
  ghost predicate GivenOnce(lines: seq<string>) {
    forall j, k | 0 <= j < k < |lines| :: FieldName(lines[j]) == FieldName(lines[k]) ==> !Framing(FieldName(lines[j]))
  }

  /** A header section that is accepted behind a status line. */
  ghost predicate Headers(status: string, lines: seq<string>) {
    (forall l | l in lines :: HeaderLine(l)) && GivenOnce(lines) && |status| + TotalLength(lines) <= 32 * 1024
  }

  ghost predicate Has(lines: seq<string>, name: string, value: string) {
    exists k | 0 <= k < |lines| :: FieldName(lines[k]) == name && FieldValue(lines[k]) == value
  }

  ghost predicate HasField(lines: seq<string>, name: string) {
    exists k | 0 <= k < |lines| :: FieldName(lines[k]) == name
  }

  /** What is read of a header: its framing fields. */
  ghost predicate Collects(lines: seq<string>, fields: map<string, string>) {
    && (forall name | name in fields :: Framing(name) && Has(lines, name, fields[name]))
    && (forall k | 0 <= k < |lines| && Framing(FieldName(lines[k])) ::
          FieldName(lines[k]) in fields && fields[FieldName(lines[k])] == FieldValue(lines[k]))
  }

  lemma {:induction false} CollectsNext(lines: seq<string>, fields: map<string, string>, line: string)
    requires Collects(lines, fields) && FieldName(line) !in fields
    ensures Collects(lines + [line],
                     if Framing(FieldName(line)) then fields[FieldName(line) := FieldValue(line)] else fields)
  {
    var all := lines + [line];
    var more := if Framing(FieldName(line)) then fields[FieldName(line) := FieldValue(line)] else fields;
    assert all[|lines|] == line && forall k | 0 <= k < |lines| :: all[k] == lines[k];
    forall name | name in more
      ensures Framing(name) && Has(all, name, more[name])
    {
      if name in fields {
        assert Has(lines, name, fields[name]);
        var k :| 0 <= k < |lines| && FieldName(lines[k]) == name && FieldValue(lines[k]) == fields[name];
        assert FieldName(all[k]) == name;
      } else {
        assert FieldName(all[|lines|]) == name;
      }
    }
  }

  lemma {:induction false} OnceNext(lines: seq<string>, fields: map<string, string>, line: string)
    requires Collects(lines, fields) && GivenOnce(lines)
    ensures GivenOnce(lines + [line]) <==> FieldName(line) !in fields
  {
    var all := lines + [line];
    assert all[|lines|] == line && forall k | 0 <= k < |lines| :: all[k] == lines[k];
    if FieldName(line) in fields {
      assert Has(lines, FieldName(line), fields[FieldName(line)]);
      var k :| 0 <= k < |lines| && FieldName(lines[k]) == FieldName(line);
      assert FieldName(all[k]) == FieldName(all[|lines|]) && Framing(FieldName(all[k]));
    }
  }

  lemma {:induction false} TotalAppend(lines: seq<string>, line: string)
    ensures TotalLength(lines + [line]) == TotalLength(lines) + |line|
  {
    if lines != [] {
      assert (lines + [line])[1..] == lines[1..] + [line];
      TotalAppend(lines[1..], line);
    } else {
      assert [line][1..] == [];
    }
  }

  /** The header as far as it was read. */
  ghost predicate Holds(status: string, lines: seq<string>, h: Head) {
    Headers(status, lines) && Collects(lines, h.fields) && h.bytes == |status| + TotalLength(lines)
  }

  /** One more line goes into the header exactly when the lines are still a header with it. */
  lemma {:induction false} LineAdds(status: string, lines: seq<string>, h: Head, line: string)
    requires Holds(status, lines, h) && PlainLine(line)
    ensures AddLine(h, line).Some? <==> Headers(status, lines + [line])
    ensures AddLine(h, line).Some? ==> Holds(status, lines + [line], AddLine(h, line).value)
  {
    HeadersNext(status, lines, h, line);
    if FieldName(line) !in h.fields {
      CollectsNext(lines, h.fields, line);
      TotalAppend(lines, line);
    }
  }

  lemma {:induction false} HeadersNext(status: string, lines: seq<string>, h: Head, line: string)
    requires Holds(status, lines, h) && PlainLine(line)
    ensures Headers(status, lines + [line])
            <==> IndexOf(line, ':') < |line| && h.bytes + |line| <= 32 * 1024 && FieldName(line) !in h.fields
  {
    TotalAppend(lines, line);
    OnceNext(lines, h.fields, line);
    var all := lines + [line];
    assert all[|lines|] == line && forall l :: l in all <==> l in lines || l == line;
    assert HeaderLine(line) <==> IndexOf(line, ':') < |line| by {
      var i := IndexOf(line, ':');
      assert i < |line| ==> line[i] == ':';
    }
  }

  lemma {:induction false} HeadersPrefix(status: string, lines: seq<string>, more: seq<string>)
    requires Headers(status, lines + more) && more != []
    ensures Headers(status, lines + [more[0]]) && PlainLine(more[0])
    ensures lines + more == lines + [more[0]] + more[1..]
  {
    var all, first := lines + more, lines + [more[0]];
    assert all == first + more[1..];
    assert all[|lines|] == more[0] && HeaderLine(all[|lines|]);
    TotalConcat(first, more[1..]);
    assert forall k | 0 <= k < |first| :: first[k] == all[k];
    forall l | l in first
      ensures HeaderLine(l)
    {
      var k :| 0 <= k < |first| && first[k] == l;
      assert all[k] == l;
    }
  }

  lemma {:induction false} TotalConcat(a: seq<string>, b: seq<string>)
    ensures TotalLength(a + b) == TotalLength(a) + TotalLength(b)
  {
    if a == [] {
      assert a + b == b;
    } else {
      assert (a + b)[1..] == a[1..] + b;
      TotalConcat(a[1..], b);
    }
  }

  /** A header section that is one reads as what its lines say. */
  lemma {:induction false} HeadReads(status: string, before: seq<string>, h: Head, lines: seq<string>, rest: string)
    returns (h': Head)
    requires Holds(status, before, h) && Headers(status, before + lines)
    ensures ReadHead(SentLines(lines, rest), h) == Got(h', rest) && Holds(status, before + lines, h')
    decreases |lines|
  {
    if lines == [] {
      h' := h;
      ReadSent([], rest, LINE_MAX);
      assert before + lines == before;
    } else {
      HeadersPrefix(status, before, lines);
      LineAdds(status, before, h, lines[0]);
      ReadSent(lines[0], SentLines(lines[1..], rest), LINE_MAX);
      h' := HeadReads(status, before + [lines[0]], AddLine(h, lines[0]).value, lines[1..], rest);
    }
  }

  lemma {:induction false} FirstLine(s: string, h: Head) returns (line: string, rest: string)
    requires ReadHead(s, h).Got?
    ensures s == line + ("\r\n" + rest) && '\n' !in line && |line| + 2 <= 8192 && |rest| < |s|
    ensures line == [] ==> ReadHead(s, h) == Got(h, rest)
    ensures line != [] ==> AddLine(h, line).Some? && ReadHead(s, h) == ReadHead(rest, AddLine(h, line).value)
  {
    line, rest := ReadLine(s, LINE_MAX).value, ReadLine(s, LINE_MAX).rest;
    LineReadExactlyWhen(s, LINE_MAX, line, rest);
  }

  /** And whatever reads as a header is one. */
  lemma {:induction false} HeadIs(status: string, before: seq<string>, h: Head, s: string) returns (lines: seq<string>)
    requires Holds(status, before, h) && ReadHead(s, h).Got?
    ensures s == SentLines(lines, ReadHead(s, h).rest) && Holds(status, before + lines, ReadHead(s, h).value)
    decreases |s|
  {
    var line, rest := FirstLine(s, h);
    if line == [] {
      lines := [];
      assert before + lines == before;
    } else {
      LineAdds(status, before, h, line);
      var more := HeadIs(status, before + [line], AddLine(h, line).value, rest);
      lines := [line] + more;
      SentLinesCons(line, more, ReadHead(s, h).rest);
      HoldsRegroup(status, before, line, more, ReadHead(s, h).value);
    }
  }

  lemma {:induction false} HoldsRegroup(status: string, before: seq<string>, line: string, more: seq<string>, h: Head)
    requires Holds(status, before + [line] + more, h)
    ensures Holds(status, before + ([line] + more), h)
  {
    assert before + ([line] + more) == before + [line] + more;
  }

  lemma {:induction false} SentLinesCons(line: string, more: seq<string>, rest: string)
    ensures SentLines([line] + more, rest) == line + ("\r\n" + SentLines(more, rest))
  {
    assert ([line] + more)[1..] == more;
  }

  // ----- Bodies -----

  lemma {:induction false} FirstTrailer(s: string, bytes: nat) returns (line: string, rest: string)
    requires ReadTrailers(s, bytes).Got?
    ensures s == line + ("\r\n" + rest) && '\n' !in line && |line| + 2 <= 8192 && |rest| < |s|
    ensures line == [] ==> ReadTrailers(s, bytes) == Got((), rest)
    ensures line != [] ==> bytes + |line| <= 32 * 1024 && ReadTrailers(s, bytes) == ReadTrailers(rest, bytes + |line|)
  {
    line, rest := ReadLine(s, LINE_MAX).value, ReadLine(s, LINE_MAX).rest;
    TrailerNext(s, line, rest, bytes);
    LineReadExactlyWhen(s, LINE_MAX, line, rest);
  }

  lemma {:induction false} TrailerNext(s: string, line: string, rest: string, bytes: nat)
    requires ReadTrailers(s, bytes).Got? && ReadLine(s, LINE_MAX) == Got(line, rest)
    ensures line == [] ==> ReadTrailers(s, bytes) == Got((), rest)
    ensures line != [] ==> bytes + |line| <= 32 * 1024 && ReadTrailers(s, bytes) == ReadTrailers(rest, bytes + |line|)
  {
  }

  lemma {:induction false} TrailersAre(s: string, bytes: nat) returns (lines: seq<string>)
    requires ReadTrailers(s, bytes).Got? && bytes <= 32 * 1024
    ensures s == SentLines(lines, ReadTrailers(s, bytes).rest)
    ensures (forall l | l in lines :: PlainLine(l)) && bytes + TotalLength(lines) <= 32 * 1024
    decreases |s|
  {
    var line, rest := FirstTrailer(s, bytes);
    if line == [] {
      lines := [];
    } else {
      var more := TrailersAre(rest, bytes + |line|);
      lines := [line] + more;
      SentLinesCons(line, more, ReadTrailers(s, bytes).rest);
      TotalConcat([line], more);
    }
  }

  lemma {:induction false} SizeIs(s: string) returns (digits: string, extension: string)
    requires ReadSize(s).Got?
    ensures s == Sent(digits + extension, ReadSize(s).rest) && LegalSizeLine(digits, extension)
    ensures HexValue(digits) == ReadSize(s).value
  {
    var line := ReadLine(s, CHUNK_LINE_MAX);
    LineReadExactlyWhen(s, CHUNK_LINE_MAX, line.value, line.rest);
    var n := IndexOf(line.value, ';');
    digits, extension := line.value[..n], line.value[n..];
    assert digits + extension == line.value;
  }

  /** One step of the decoder: the last chunk, or one more. */
  lemma {:induction false} ChunkNext(s: string, body: string, bytes: nat) returns (data: string, rest: string)
    requires ReadChunks(s, body, bytes).Got?
    ensures var size := ReadSize(s);
            && size.Got? && |body| + size.value <= 512 * 1024
            && (size.value == 0 ==> ReadTrailers(size.rest, bytes).Got?
                                    && ReadChunks(s, body, bytes) == Got(body, ReadTrailers(size.rest, bytes).rest))
            && (size.value > 0 ==> |data| == size.value && size.rest == Sent(data, rest) && |rest| < |s|
                                   && ReadChunks(s, body, bytes) == ReadChunks(rest, body + data, bytes))
  {
    var size := ReadSize(s);
    SizeShrinks(s);
    if size.value > 0 {
      data, rest := DataThenEnd(size.rest, size.value, body, bytes, s);
    } else {
      data, rest := [], [];
    }
  }

  lemma {:induction false} SizeShrinks(s: string)
    ensures ReadSize(s).Got? ==> |ReadSize(s).rest| < |s|
  {
    ReadLineShrinks(s, CHUNK_LINE_MAX);
  }

  lemma {:induction false} DataThenEnd(s1: string, n: nat, body: string, bytes: nat, s: string)
    returns (data: string, rest: string)
    requires ReadSize(s) == Got(n, s1) && n > 0 && |body| + n <= MAX_RESPONSE_BYTES && ReadChunks(s, body, bytes).Got?
    ensures |data| == n && s1 == Sent(data, rest) && |rest| < |s1|
    ensures ReadChunks(s, body, bytes) == ReadChunks(rest, body + data, bytes)
  {
    var got := ReadExactly(s1, n);
    var end := ReadExactly(got.rest, 2);
    ExactlyIs(s1, n);
    ExactlyIs(got.rest, 2);
    data, rest := got.value, end.rest;
  }

  lemma {:induction false} ExactlyIs(s: string, n: nat)
    ensures ReadExactly(s, n).Got? ==>
              s == ReadExactly(s, n).value + ReadExactly(s, n).rest && |ReadExactly(s, n).value| == n
              && |ReadExactly(s, n).rest| == |s| - n
  {
  }

  /** Whatever decodes is a sequence of chunks and an ending. */
  lemma {:induction false} ChunksAre(s: string, body: string, bytes: nat) returns (chunks: seq<Chunk>, e: Ending)
    requires ReadChunks(s, body, bytes).Got? && bytes <= 32 * 1024 && |body| <= 512 * 1024
    ensures (forall c | c in chunks :: LegalChunk(c)) && LegalEnding(e, bytes)
    ensures s == SentChunks(chunks, e, ReadChunks(s, body, bytes).rest)
    ensures ReadChunks(s, body, bytes).value == body + Data(chunks)
    ensures |body + Data(chunks)| <= 512 * 1024
    decreases |s|
  {
    var digits, extension := SizeIs(s);
    var data, rest := ChunkNext(s, body, bytes);
    if ReadSize(s).value == 0 {
      var trailers := TrailersAre(ReadSize(s).rest, bytes);
      chunks, e := [], Ending(digits, extension, trailers);
      assert body + Data(chunks) == body;
    } else {
      var more;
      more, e := ChunksAre(rest, body + data, bytes);
      chunks := [Chunk(data, digits, extension)] + more;
      ChunksCons(Chunk(data, digits, extension), more, e, ReadChunks(s, body, bytes).rest);
      Regroup(body, data, Data(more));
    }
  }

  lemma {:induction false} ChunksCons(c: Chunk, more: seq<Chunk>, e: Ending, rest: string)
    ensures SentChunks([c] + more, e, rest)
            == Sent(c.digits + c.extension, Sent(c.data, SentChunks(more, e, rest)))
    ensures Data([c] + more) == c.data + Data(more)
  {
    assert ([c] + more)[1..] == more;
  }

  /** A body in the framing its header announces. */
  ghost predicate Framed(lines: seq<string>, bytes: nat, tail: string, body: string, rest: string) {
    && (forall value | Has(lines, "content-encoding", value) :: value == "identity")
    && |body| <= 512 * 1024
    && if HasField(lines, "transfer-encoding") then
         Has(lines, "transfer-encoding", "chunked") && !HasField(lines, "content-length")
         && Chunked(bytes, tail, body, rest)
       else if HasField(lines, "content-length") then
         (exists text :: Has(lines, "content-length", text) && Announces(text, |body|)) && tail == body + rest
       else tail == body && rest == []
  }

  ghost predicate Chunked(bytes: nat, tail: string, body: string, rest: string) {
    exists chunks: seq<Chunk>, e: Ending ::
      (forall c | c in chunks :: LegalChunk(c)) && LegalEnding(e, bytes)
      && tail == SentChunks(chunks, e, rest) && body == Data(chunks)
  }

  /** A decimal length that Python's `int` reads. */
  predicate Announces(text: string, n: nat) { text != [] && AllDigits(text) && |text| <= 4300 && Value(text) == n }

  lemma {:induction false} FieldIs(lines: seq<string>, fields: map<string, string>, name: string)
    requires Collects(lines, fields) && Framing(name)
    ensures HasField(lines, name) <==> name in fields
    ensures forall value :: Has(lines, name, value) <==> name in fields && fields[name] == value
  {
    if name in fields {
      assert Has(lines, name, fields[name]);
    }
  }

  lemma {:induction false} ChunkedExactly(bytes: nat, tail: string, body: string, rest: string)
    requires bytes <= 32 * 1024
    ensures ReadChunks(tail, [], bytes) == Got(body, rest) <==> |body| <= 512 * 1024 && Chunked(bytes, tail, body, rest)
  {
    if ReadChunks(tail, [], bytes) == Got(body, rest) {
      var chunks, e := ChunksAre(tail, [], bytes);
      assert [] + Data(chunks) == Data(chunks);
    }
    if |body| <= 512 * 1024 && Chunked(bytes, tail, body, rest) {
      var chunks: seq<Chunk>, e: Ending :| (forall c | c in chunks :: LegalChunk(c)) && LegalEnding(e, bytes)
                                           && tail == SentChunks(chunks, e, rest) && body == Data(chunks);
      ChunksRoundTrip(chunks, e, rest, [], bytes);
      assert [] + Data(chunks) == Data(chunks);
    }
  }

  lemma {:induction false} LengthExactly(text: string, tail: string, body: string, rest: string)
    ensures (if text == [] || !AllDigits(text) then Fail(TooLarge)
             else
               match ParseInt(text)
               case None => Fail(TransportFailure)
               case Some(n) => if n > MAX_RESPONSE_BYTES then Fail(TooLarge) else ReadExactly(tail, n))
            == Got(body, rest)
            <==> |body| <= 512 * 1024 && Announces(text, |body|) && tail == body + rest
  {
    if AllDigits(text) {
      ExactlyIs(tail, Value(text));
    }
  }

  /** The body in terms of the header lines. */
  lemma {:induction false} BodyExactly(lines: seq<string>, h: Head, tail: string, body: string, rest: string)
    requires Collects(lines, h.fields) && h.bytes <= 32 * 1024
    ensures ReadBody(h, tail) == Got(body, rest) <==> Framed(lines, h.bytes, tail, body, rest)
  {
    FieldIs(lines, h.fields, "content-encoding");
    FieldIs(lines, h.fields, "transfer-encoding");
    FieldIs(lines, h.fields, "content-length");
    if "transfer-encoding" in h.fields {
      ChunkedExactly(h.bytes, tail, body, rest);
    } else if "content-length" in h.fields {
      LengthExactly(h.fields["content-length"], tail, body, rest);
    }
  }

  /** A status line of version 1.0 or 1.1 that says 200. */
  predicate PlainStatus(line: string) {
    |line| + 2 <= 8192 && '\n' !in line && ("HTTP/1.0 200" <= line || "HTTP/1.1 200" <= line)
    && (|line| == 12 || (line[12] == ' ' && '\r' !in line[13..]))
  }

  lemma {:induction false} StatusExactly(line: string)
    requires '\n' !in line && |line| + 2 <= 8192
    ensures StatusShape(line) && line[9..12] == "200" <==> PlainStatus(line)
  {
    if |line| >= 12 {
      assert line[..12] == line[..7] + [line[7]] + [line[8]] + line[9..12];
      assert "HTTP/1.0 200" == "HTTP/1." + ['0'] + [' '] + "200";
      assert "HTTP/1.1 200" == "HTTP/1." + ['1'] + [' '] + "200";
    }
  }

  /** A response the reader accepts: a 200 status line, a header section, and a body in the framing
      the header announces. */
  ghost predicate Accepts(s: string, body: string, rest: string) {
    exists status, lines, tail :: AcceptsAs(s, status, lines, tail, body, rest)
  }

  ghost predicate AcceptsAs(s: string, status: string, lines: seq<string>, tail: string, body: string, rest: string) {
    s == status + ("\r\n" + SentLines(lines, tail)) && PlainStatus(status) && Headers(status, lines)
    && Framed(lines, |status| + TotalLength(lines), tail, body, rest)
  }

  /** The reader returns a body exactly for these streams. */
  lemma {:induction false} AcceptedExactlyWhen(s: string, body: string, rest: string)
    ensures Response(s) == Got(body, rest) <==> Accepts(s, body, rest)
  {
    if Response(s) == Got(body, rest) {
      ResponseIs(s, body, rest);
    }
    if status, lines, tail :| AcceptsAs(s, status, lines, tail, body, rest) {
      AcceptsReads(s, status, lines, tail, body, rest);
    }
  }

  lemma {:induction false} NoLines(status: string)
    requires |status| <= 32 * 1024
    ensures Holds(status, [], Head(map[], |status|))
  {
  }

  lemma {:induction false} ResponseIs(s: string, body: string, rest: string)
    requires Response(s) == Got(body, rest)
    ensures Accepts(s, body, rest)
  {
    var status, s1 := ReadLine(s, LINE_MAX).value, ReadLine(s, LINE_MAX).rest;
    StatusIs(s, status, s1);
    NoLines(status);
    var start := Head(map[], |status|);
    var lines := HeadIs(status, [], start, s1);
    assert [] + lines == lines;
    var h := ReadHead(s1, start);
    HandsOver(s, status, s1, h.value, h.rest);
    BodyExactly(lines, h.value, h.rest, body, rest);
    assert AcceptsAs(s, status, lines, h.rest, body, rest);
  }

  lemma {:induction false} StatusIs(s: string, status: string, s1: string)
    requires Response(s).Got? && ReadLine(s, LINE_MAX) == Got(status, s1)
    ensures s == status + ("\r\n" + s1) && PlainStatus(status) && ReadHead(s1, Head(map[], |status|)).Got?
  {
    LineReadExactlyWhen(s, LINE_MAX, status, s1);
    StatusExactly(status);
  }

  lemma {:induction false} AcceptsReads(s: string, status: string, lines: seq<string>, tail: string, body: string,
                                       rest: string)
    requires AcceptsAs(s, status, lines, tail, body, rest)
    ensures Response(s) == Got(body, rest)
  {
    var h := HeadAccepted(s, status, lines, tail);
    BodyExactly(lines, h, tail, body, rest);
  }

  lemma {:induction false} HeadAccepted(s: string, status: string, lines: seq<string>, tail: string) returns (h: Head)
    requires s == status + ("\r\n" + SentLines(lines, tail)) && PlainStatus(status) && Headers(status, lines)
    ensures Response(s) == ReadBody(h, tail)
    ensures Collects(lines, h.fields) && h.bytes == |status| + TotalLength(lines) <= 32 * 1024
  {
    h := LinesRead(status, lines, tail);
    HandsOver(s, status, SentLines(lines, tail), h, tail);
  }

  lemma {:induction false} LinesRead(status: string, lines: seq<string>, tail: string) returns (h: Head)
    requires Headers(status, lines)
    ensures ReadHead(SentLines(lines, tail), Head(map[], |status|)) == Got(h, tail)
    ensures Collects(lines, h.fields) && h.bytes == |status| + TotalLength(lines) <= 32 * 1024
  {
    NoLines(status);
    assert [] + lines == lines;
    h := HeadReads(status, [], Head(map[], |status|), lines, tail);
  }

  lemma {:induction false} HandsOver(s: string, status: string, s1: string, h: Head, tail: string)
    requires s == status + ("\r\n" + s1) && PlainStatus(status)
    requires ReadHead(s1, Head(map[], |status|)) == Got(h, tail)
    ensures Response(s) == ReadBody(h, tail)
  {
    LineReadExactlyWhen(s, LINE_MAX, status, s1);
    StatusExactly(status);
  }

  /** Any other status line ends the read: with its digits when it has the shape of one, otherwise
      as no status line at all. */
  lemma {:induction false} OtherStatusRefused(line: string, rest: string)
    requires '\n' !in line && |line| + 2 <= 8192 && !PlainStatus(line)
    ensures var r := Response(line + ("\r\n" + rest));
            r == if StatusShape(line) then Fail(HttpStatus(line[9..12])) else Fail(InvalidStatus)
  {
    LineReadExactlyWhen(line + ("\r\n" + rest), LINE_MAX, line, rest);
    StatusExactly(line);
  }

  // ----- Why a stream is refused -----

  /** A line that is not read: there is too much before its end, or it does not end as it must. */
  lemma {:induction false} LineRefused(s: string, maximum: nat)
    ensures ReadLine(s, maximum) == Fail(TransportFailure) <==> |s| > 32 * 1024 && '\n' !in s[..32 * 1024 + 1]
    ensures ReadLine(s, maximum).Fail? && !(|s| > 32 * 1024 && '\n' !in s[..32 * 1024 + 1])
            ==> ReadLine(s, maximum) == Fail(InvalidFraming)
  {
    var i := IndexOf(s, '\n');
    if |s| > 32 * 1024 {
      var front := s[..32 * 1024 + 1];
      assert forall k | 0 <= k < |front| :: front[k] == s[k];
      if i <= 32 * 1024 {
        assert front[i] == '\n';
      }
    }
  }

  /** A header line that cannot be added ends the read: it has no colon, is one byte too many, or
      gives a framing field again. */
  lemma {:induction false} HeaderRefused(status: string, before: seq<string>, h: Head, line: string, rest: string)
    requires Holds(status, before, h) && PlainLine(line) && !Headers(status, before + [line])
    ensures ReadHead(line + ("\r\n" + rest), h) == Fail(InvalidHeaders)
  {
    LineAdds(status, before, h, line);
    LineReadExactlyWhen(line + ("\r\n" + rest), LINE_MAX, line, rest);
  }

  /** The announced length, when it is one. */
  predicate TooLong(text: string) { AllDigits(text) && 0 < |text| <= 4300 && Value(text) > 512 * 1024 }

  /** What is wrong with a body outside chunks: it is encoded, */
  lemma {:induction false} EncodedRefused(lines: seq<string>, h: Head, tail: string, value: string)
    requires Collects(lines, h.fields) && Has(lines, "content-encoding", value) && value != "identity"
    ensures ReadBody(h, tail) == Fail(UnsupportedEncoding)
  {
    FieldIs(lines, h.fields, "content-encoding");
  }

  lemma {:induction false} PlainBody(lines: seq<string>, h: Head)
    requires Collects(lines, h.fields) && PlainEncoding(lines)
    ensures "content-encoding" in h.fields ==> h.fields["content-encoding"] == "identity"
  {
    if "content-encoding" in h.fields {
      assert Has(lines, "content-encoding", h.fields["content-encoding"]);
    }
  }

  /** or has a transfer encoding other than chunks, or beside a length, */
  lemma {:induction false} TransferRefused(lines: seq<string>, h: Head, tail: string, value: string)
    requires Collects(lines, h.fields) && PlainEncoding(lines) && Has(lines, "transfer-encoding", value)
    requires value != "chunked" || HasField(lines, "content-length")
    ensures ReadBody(h, tail) == Fail(InvalidFraming)
  {
    PlainBody(lines, h);
    FieldIs(lines, h.fields, "transfer-encoding");
    FieldIs(lines, h.fields, "content-length");
  }

  /** or a length that is no number or above the limit, or that the stream does not have. */
  lemma {:induction false} LengthRefused(lines: seq<string>, h: Head, tail: string, value: string)
    requires Collects(lines, h.fields) && PlainEncoding(lines) && !HasField(lines, "transfer-encoding")
    requires Has(lines, "content-length", value)
    ensures value == [] || !AllDigits(value) || TooLong(value) ==> ReadBody(h, tail) == Fail(TooLarge)
    ensures AllDigits(value) && |value| > 4300 ==> ReadBody(h, tail) == Fail(TransportFailure)
    ensures forall n :: Announces(value, n) && |tail| < n <= 512 * 1024 ==> ReadBody(h, tail) == Fail(TransportFailure)
  {
    PlainBody(lines, h);
    FieldIs(lines, h.fields, "transfer-encoding");
    FieldIs(lines, h.fields, "content-length");
  }

  predicate PlainEncoding(lines: seq<string>) {
    forall k | 0 <= k < |lines| && FieldName(lines[k]) == "content-encoding" :: FieldValue(lines[k]) == "identity"
  }

  /** Without any framing the body is everything, up to the limit. */
  lemma {:induction false} UnframedBody(lines: seq<string>, h: Head, tail: string)
    requires Collects(lines, h.fields) && PlainEncoding(lines)
    requires !HasField(lines, "transfer-encoding") && !HasField(lines, "content-length")
    ensures ReadBody(h, tail) == if |tail| > 512 * 1024 then Fail(TooLarge) else Got(tail, [])
  {
    PlainBody(lines, h);
    FieldIs(lines, h.fields, "transfer-encoding");
    FieldIs(lines, h.fields, "content-length");
  }

  /** A chunk that is not there in full, or does not end as it must. */
  lemma {:induction false} ChunkRefused(digits: string, extension: string, rest: string, body: string, bytes: nat)
    requires LegalSizeLine(digits, extension) && 0 < HexValue(digits) && |body| + HexValue(digits) <= 512 * 1024
    ensures var n, r := HexValue(digits), ReadChunks(Sent(digits + extension, rest), body, bytes);
            && (|rest| < n + 2 ==> r == Fail(TransportFailure))
            && (|rest| >= n + 2 && rest[n..n + 2] != "\r\n" ==> r == Fail(InvalidChunk))
  {
    ReadSentSize(digits, extension, rest);
    var n := HexValue(digits);
    if |rest| >= n + 2 {
      assert rest[n..][..2] == rest[n..n + 2];
    }
  }
}
