/** Chunked decoding, done in place on the buffer being scanned, undoes the
    chunked coding of section 4.1 of RFC 7230. */
module HttpChunks {
  import opened Bytes
  import opened HttpScanner
  import opened HttpStability
  import opened HttpMessage
  import opened HttpFragments

  const EOL: seq<Byte> := [13, 10]

  /** A chunk as it is sent: any spelling of its size, and an extension. */
  datatype Chunk = Chunk(size: seq<Byte>, ext: seq<Byte>, data: seq<Byte>)

  /** 1*HEXDIG that denotes n. */
  ghost predicate Spells(size: seq<Byte>, n: nat) {
    && size != []
    && (forall i :: 0 <= i < |size| ==> DigitValue(size[i], 16) != -1)
    && Numeral(size, 16) == n
  }

  predicate IsPlain(c: Byte) {
    (c == TAB || 32 <= c <= 126) && c != QUOTE
  }

  /** qdtext of RFC 7230, section 3.2.6. */
  predicate IsQuotable(c: Byte) {
    c == TAB || c == 32 || c == 33 || 35 <= c <= 91 || 93 <= c <= 126 || c >= 128
  }

  /** The second octet of a quoted-pair. */
  predicate IsEscapable(c: Byte) {
    c == TAB || 32 <= c <= 126 || c >= 128
  }

  /** What is left of a quoted-string from index i on ends at `end`. */
  ghost predicate QuotedTo(s: seq<Byte>, i: nat, end: nat)
    requires i <= end <= |s|
    decreases |s| - i
  {
    if i == end then false
    else if s[i] == QUOTE then end == i + 1
    else if s[i] == BACKSLASH then i + 2 <= end && IsEscapable(s[i + 1]) && QuotedTo(s, i + 2, end)
    else IsQuotable(s[i]) && QuotedTo(s, i + 1, end)
  }

  /** Plain octets and quoted-strings. */
  ghost predicate IsExtText(s: seq<Byte>)
    decreases |s|
  {
    s == [] || (IsPlain(s[0]) && IsExtText(s[1..])) || StartsQuoted(s)
  }

  ghost predicate StartsQuoted(s: seq<Byte>)
    requires s != []
    decreases |s|, 0
  {
    s[0] == QUOTE && exists n: nat :: 1 <= n <= |s| && QuotedTo(s, 1, n) && IsExtText(s[n..])
  }

  /** Empty, or from a semicolon on. */
  ghost predicate IsExtension(ext: seq<Byte>) {
    (ext != [] ==> ext[0] == 59) && IsExtText(ext)
  }

  ghost predicate IsChunk(c: Chunk) {
    c.data != [] && |c.data| < 0x8000_0000 && Spells(c.size, |c.data|) && IsExtension(c.ext)
  }

  ghost predicate AreChunks(cs: seq<Chunk>) {
    forall i :: 0 <= i < |cs| ==> IsChunk(cs[i])
  }

  function SizeLine(size: seq<Byte>, ext: seq<Byte>): seq<Byte> {
    size + ext + EOL
  }

  function Encode(c: Chunk): seq<Byte> {
    SizeLine(c.size, c.ext) + c.data + EOL
  }

  function EncodeAll(cs: seq<Chunk>): seq<Byte> {
    if cs == [] then [] else Encode(cs[0]) + EncodeAll(cs[1..])
  }

  function Data(cs: seq<Chunk>): seq<Byte> {
    if cs == [] then [] else cs[0].data + Data(cs[1..])
  }

  // ----- reading a size line

  lemma HexDigitIsIdentifier(c: Byte)
    requires DigitValue(c, 16) != -1
    ensures IsIdentifier(c) && !IsSpace(c) && c != 43 && c != 45
  {
  }

  /** The size is the first token of its line. */
  lemma SizeToken(size: seq<Byte>, n: nat, r: seq<Byte>)
    requires Spells(size, n) && |size| < |r| && size <= r && !IsIdentifier(r[|size|])
    ensures NextToken(r) == Token(|size|, Identifier)
  {
    forall i | 0 <= i < |size| ensures IsIdentifier(r[i]) {
      HexDigitIsIdentifier(size[i]);
    }
  }

  /** strtol in base 16 reads back what the size spells. */
  lemma SizeValue(size: seq<Byte>, n: nat)
    requires Spells(size, n) && n < LONG_LIMIT
    ensures StrToL(size, 16) == Strtol(n, |size|, false)
  {
    HexDigitIsIdentifier(size[0]);
    assert SkipSpaces(size, 0) == 0 && AfterSign(size, 0) == 0 && SignOf(size, 0) == Plus;
    assert AfterHexPrefix(size, 0, 16) == 0;
    var d := DigitsEnd(size, 0, 16);
    assert d == |size|;
    assert size[0..d] == size;
  }

  lemma PlainOctet(c: Byte)
    requires IsPlain(c)
    ensures IsIdentifier(c) || IsBlank(c) || (IsSeparator(c) && c != QUOTE && c != CR && c != LF)
  {
  }

  /** A quoted-string is one token, whatever follows it. */
  lemma {:induction false} QuotedToken(s: seq<Byte>, r: seq<Byte>, i: nat, end: nat)
    requires i <= end <= |s| && s <= r && QuotedTo(s, i, end)
    ensures QuotedScan(r, i) == Closed(end)
    decreases end - i
  {
    assert s[i] == r[i];
    if s[i] == BACKSLASH {
      QuotedToken(s, r, i + 2, end);
    } else if s[i] != QUOTE {
      QuotedToken(s, r, i + 1, end);
    }
  }

  /** Octets that are no quotes can be taken off the front of an extension. */
  lemma {:induction false} DropPlain(s: seq<Byte>, n: nat)
    requires IsExtText(s) && n <= |s| && forall k :: 0 <= k < n ==> s[k] != QUOTE
    ensures IsExtText(s[n..])
    decreases n
  {
    if n == 0 {
      assert s[0..] == s;
    } else {
      assert s[1..][n - 1..] == s[n..];
      DropPlain(s[1..], n - 1);
    }
  }

  /** Over an extension the scan for the end of the line stops at the first CRLF. */
  lemma {:induction false} UntilCrlfPlain(r: seq<Byte>, i: nat, k: nat)
    requires i <= k && k + 1 < |r| && r[k] == CR && r[k + 1] == LF
    requires IsExtText(r[i..k])
    ensures UntilCrlf(r, i) == Span(k, Ok)
    decreases k - i
  {
    hide IsExtText, QuotedScan;
    var u := r[i..];
    assert u[k - i] == r[k] && u[k - i + 1] == r[k + 1];
    if i < k {
      var n := ExtToken(u, r[i..k]);
      assert r[i..k][n..] == r[i + n..k];
      UntilCrlfPlain(r, i + n, k);
    }
  }

  lemma ExtToken(u: seq<Byte>, s: seq<Byte>) returns (n: nat)
    requires s != [] && s <= u && |s| < |u| && u[|s|] == CR && IsExtText(s)
    ensures n <= |s| && NextToken(u).Token? && NextToken(u).kind != Crlf && NextToken(u).len == n
    ensures IsExtText(s[n..])
  {
    assert u[0] == s[0];
    if s[0] == QUOTE {
      n :| 1 <= n <= |s| && QuotedTo(s, 1, n) && IsExtText(s[n..]);
      QuotedToken(s, u, 1, n);
    } else {
      PlainOctet(u[0]);
      PlainToken(u, |s|);
      n := NextToken(u).len;
      assert forall k :: 0 <= k < n ==> s[k] == u[k];
      DropPlain(s, n);
    }
  }

  lemma PlainToken(u: seq<Byte>, k: nat)
    requires 0 < k < |u| && u[k] == CR && IsPlain(u[0])
    ensures NextToken(u).Token? && NextToken(u).kind != Crlf && NextToken(u).len <= k
    ensures forall j :: 0 <= j < NextToken(u).len ==> u[j] != QUOTE
  {
    PlainOctet(u[0]);
    if IsIdentifier(u[0]) {
      assert !IsIdentifier(u[k]);
    } else if IsBlank(u[0]) {
      assert !IsBlank(u[k]);
    }
  }

  /** The pattern %x%L%c reads a whole size line. */
  lemma SizeLineMatches(size: seq<Byte>, n: nat, ext: seq<Byte>, tail: seq<Byte>)
    requires Spells(size, n) && n < 0x8000_0000 && IsExtension(ext)
    ensures MatchFormat(CHUNK_LINE, SizeLine(size, ext) + tail)
         == Match(|SizeLine(size, ext)|, [Num(n), Text(ext)], Ok)
  {
    hide NextToken, StrToL, UntilCrlf, Numeral;
    var r := SizeLine(size, ext) + tail;
    var k := |size|;
    var l := k + |ext|;
    assert r[k] == (ext + EOL)[0];
    SizeToken(size, n, r);
    StrToLToken(r, 16);
    assert r[..k] == size;
    SizeValue(size, n);
    assert MatchOne(Number(16), r[0..], true) == Match(k, [Num(n)], Ok) by { assert r[0..] == r; }

    var u := r[k..];
    assert u == ext + EOL + tail;
    assert u[..|ext|] == ext == u[0..|ext|];
    UntilCrlfPlain(u, 0, |ext|);
    assert MatchOne(Line, r[k..], true) == Match(|ext|, [Text(ext)], Ok);

    EolToken(r[l..], tail);
    assert MatchOne(LineEnd, r[l..], true) == Match(2, [], Ok);
    ThreeDirectives(r, k, l, n, ext);
  }

  lemma EolToken(r: seq<Byte>, tail: seq<Byte>)
    requires r == EOL + tail
    ensures NextToken(r) == Token(2, Crlf)
    ensures MatchOne(LineEnd, r, true) == Match(2, [], Ok)
  {
  }

  lemma ThreeDirectives(r: seq<Byte>, k: nat, l: nat, n: int, ext: seq<Byte>)
    requires k <= l && l + 2 <= |r|
    requires MatchOne(Number(16), r[0..], true) == Match(k, [Num(n)], Ok)
    requires MatchOne(Line, r[k..], true) == Match(l - k, [Text(ext)], Ok)
    requires MatchOne(LineEnd, r[l..], true) == Match(2, [], Ok)
    ensures MatchFormat(CHUNK_LINE, r) == Match(l + 2, [Num(n), Text(ext)], Ok)
  {
    hide MatchOne;
    var last: seq<Directive> := [LineEnd];
    var caps := [Num(n), Text(ext)];
    assert last[1..] == [];
    assert caps + [] == caps;
    assert VfMatch(last, r, l, caps, true) == Match(l + 2, caps, Ok);
    var two := [Line, LineEnd];
    assert two[1..] == last;
    assert [Num(n)] + [Text(ext)] == caps;
    assert VfMatch(two, r, k, [Num(n)], true) == VfMatch(last, r, l, caps, true);
    assert CHUNK_LINE[1..] == two;
    assert [] + [Num(n)] == [Num(n)];
  }

  // ----- decoding

  ghost predicate Chunking(s: State) {
    Inv(s) && s.position == PosEntity && s.mode == UsingChunked
  }

  /** The state once the chunks are decoded: their data joined the body, their
      coding is gone from the buffer, and the rest is unread. */
  function Decoded(s: State, cs: seq<Chunk>, tail: seq<Byte>): State {
    s.(head := s.head + Data(cs), rest := tail, entityLength := s.entityLength + |Data(cs)|,
       chunkSize := if cs == [] then s.chunkSize else |cs[|cs| - 1].data|)
  }

  lemma OneChunk(s: State, c: Chunk, tail: seq<Byte>)
    requires Chunking(s) && IsChunk(c)
    ensures var t := s.(rest := Encode(c) + tail);
            Run(t) == Run(Decoded(s, [c], tail))
  {
    hide MatchFormat, NextToken, SizeLine;
    var t := s.(rest := Encode(c) + tail);
    assert t.rest == SizeLine(c.size, c.ext) + (c.data + EOL + tail);
    SizeLineMatches(c.size, |c.data|, c.ext, c.data + EOL + tail);
    var u := Step(t).s;
    assert u == t.(chunkSize := |c.data|, rest := c.data + EOL + tail, mode := ChunkyBody);
    assert u.rest[|c.data|..] == EOL + tail;
    LineEndMatches(tail);
    assert (EOL + tail)[2..] == tail;
    assert u.rest[..|c.data|] == c.data;
    assert Data([c]) == c.data;
    assert Step(u) == Outcome(Decoded(s, [c], tail), Continue);
  }

  lemma LineEndMatches(tail: seq<Byte>)
    ensures MatchFormat(LINE_END, EOL + tail) == Match(2, [], Ok)
  {
    hide MatchOne;
    var r := EOL + tail;
    EolToken(r, tail);
    assert r[0..] == r && LINE_END[1..] == [];
  }

  lemma DecodedChunking(s: State, cs: seq<Chunk>, tail: seq<Byte>)
    requires Chunking(s)
    ensures Chunking(Decoded(s, cs, tail))
  {
  }

  /** Decoding one chunk and then the others is decoding all of them. */
  lemma DecodedFirst(s: State, cs: seq<Chunk>, middle: seq<Byte>, tail: seq<Byte>)
    requires cs != []
    ensures Decoded(Decoded(s, [cs[0]], middle), cs[1..], tail) == Decoded(s, cs, tail)
  {
    assert [cs[0]][1..] == [];
    assert Data([cs[0]]) == cs[0].data;
    assert s.head + cs[0].data + Data(cs[1..]) == s.head + Data(cs);
  }

  lemma NoChunks(s: State, tail: seq<Byte>)
    ensures EncodeAll([]) + tail == tail
    ensures Decoded(s, [], tail) == s.(rest := tail)
  {
    assert s.head + Data([]) == s.head;
  }

  /** Decoding undoes encoding, chunk after chunk. With `tail` the encoding of the
      chunks still to come, this is the state of the buffer in between: from
      entityStart to the cursor the decoded octets, then the unread input. */
  lemma {:induction false} ChunksDecode(s: State, cs: seq<Chunk>, tail: seq<Byte>)
    requires Chunking(s) && AreChunks(cs)
    ensures Run(s.(rest := EncodeAll(cs) + tail)) == Run(Decoded(s, cs, tail))
    decreases |cs|
  {
    hide Run, Step, Encode, IsChunk, Chunking, Decoded;
    if cs == [] {
      NoChunks(s, tail);
    } else {
      var more := EncodeAll(cs[1..]) + tail;
      assert EncodeAll(cs) + tail == Encode(cs[0]) + more;
      assert IsChunk(cs[0]);
      OneChunk(s, cs[0], more);
      var t := Decoded(s, [cs[0]], more);
      DecodedChunking(s, [cs[0]], more);
      assert t == t.(rest := more) by { DecodedRest(s, [cs[0]], more); }
      ChunksDecode(t, cs[1..], tail);
      DecodedFirst(s, cs, more, tail);
    }
  }

  lemma DecodedRest(s: State, cs: seq<Chunk>, tail: seq<Byte>)
    ensures Decoded(s, cs, tail).rest == tail
  {
  }

  // ----- the last chunk and the trailers

  /** The state after the last chunk: only trailers are left to read. */
  function Trailing(s: State, tail: seq<Byte>): State {
    s.(rest := tail, chunkSize := 0, mode := ChunkyHeaders, mark := |s.head|)
  }

  lemma LastChunk(s: State, size: seq<Byte>, ext: seq<Byte>, tail: seq<Byte>)
    requires Chunking(s) && Spells(size, 0) && IsExtension(ext)
    ensures Run(s.(rest := SizeLine(size, ext) + tail)) == Run(Trailing(s, tail))
    ensures Inv(Trailing(s, tail))
  {
    hide MatchFormat, SizeLine;
    SizeLineMatches(size, 0, ext, tail);
    var t := s.(rest := SizeLine(size, ext) + tail);
    assert Step(t) == Outcome(Trailing(s, tail), Continue);
  }

  /** Whatever trailers follow, a message that completes has the decoded body. */
  lemma {:induction false} TrailersKeepBody(s: State)
    requires Inv(s) && s.position == PosEntity && s.mode == ChunkyHeaders
    ensures Run(s).status == Success ==> Body(Run(s).s) == s.head[s.entityStart..s.entityStart + s.entityLength]
    decreases |s.rest|
  {
    hide StepHeader;
    TrailerStep(s);
    StepInv(s);
    var o := Step(s);
    if GoesOn(o.status) {
      HeaderGoesOn(s);
      TrailerKeeps(s);
      TrailersKeepBody(o.s);
    } else if o.status == Success {
      TrailerKeeps(s);
      SliceInHead(o.s.head, o.s.rest, s.entityStart, s.entityStart + s.entityLength);
    }
  }

  lemma TrailerKeeps(s: State)
    requires Inv(s) && s.position == PosEntity && s.mode == ChunkyHeaders
    requires GoesOn(StepHeader(s).status) || StepHeader(s).status == Success
    ensures var t := StepHeader(s).s;
            && t.entityStart == s.entityStart && t.entityLength == s.entityLength
            && s.entityStart + s.entityLength <= |t.head| && t.mode == ChunkyHeaders
            && t.head[..s.entityStart + s.entityLength] == s.head[..s.entityStart + s.entityLength]
            && t.head[s.entityStart..s.entityStart + s.entityLength]
               == s.head[s.entityStart..s.entityStart + s.entityLength]
            && (StepHeader(s).status == Success ==> t.position == PosComplete)
  {
    hide NextToken, MatchFormat, WithHeader;
  }

  /** The chunked coding of some data: chunks, the last chunk, trailers. */
  function Chunked(cs: seq<Chunk>, last: Chunk, trailers: seq<Byte>): seq<Byte> {
    EncodeAll(cs) + (SizeLine(last.size, last.ext) + trailers)
  }

  ghost predicate IsLast(c: Chunk) {
    Spells(c.size, 0) && IsExtension(c.ext)
  }

  ghost predicate BodyStarts(s: State) {
    Chunking(s) && s.entityLength == 0
  }

  /** Chunked decoding undoes chunked encoding: reading the coding of some data
      ends, if at all, with that data as the entity. */
  lemma DecodingUndoesEncoding(s: State, cs: seq<Chunk>, last: Chunk, trailers: seq<Byte>)
    requires BodyStarts(s) && AreChunks(cs) && IsLast(last)
    ensures var o := Run(s.(rest := Chunked(cs, last, trailers)));
            && (o.status == Success ==> Body(o.s) == Data(cs))
            && (trailers == EOL ==> o.status == Success && o.s.message == s.message && o.s.rest == [])
  {
    hide Run;
    var line := SizeLine(last.size, last.ext) + trailers;
    ChunksDecode(s, cs, line);
    assert EncodeAll(cs) + line == Chunked(cs, last, trailers);
    DecodedChunking(s, cs, line);
    var t := Decoded(s, cs, line);
    assert t == t.(rest := line);
    LastChunk(t, last.size, last.ext, trailers);
    var u := Trailing(t, trailers);
    TrailersKeepBody(u);
    assert u.head[u.entityStart..u.entityStart + u.entityLength] == Data(cs);
    if trailers == EOL { NoTrailers(u); }
  }

  lemma NoTrailers(u: State)
    requires Inv(u) && u.position == PosEntity && u.mode == ChunkyHeaders && u.rest == EOL
    ensures Run(u).status == Success && Run(u).s.message == u.message && Run(u).s.rest == []
    ensures Run(u).s.head == u.head[..u.mark]
  {
    hide NextToken;
    EolToken(u.rest, []);
  }

  /** End to end: header text that announces a chunked body, then the coding of
      some data, arriving in any pieces whatever, gives exactly that data. */
  lemma ChunkedResponseInPieces(
      requestMethod: Method, headers: seq<Byte>, cs: seq<Chunk>, last: Chunk, pieces: seq<seq<Byte>>)
    requires BodyStarts(Append(Fresh(requestMethod), headers).s)
    requires Append(Fresh(requestMethod), headers).status == Incomplete
    requires Append(Fresh(requestMethod), headers).s.rest == []
    requires AreChunks(cs) && IsLast(last)
    requires pieces != [] && Concat(pieces) == headers + Chunked(cs, last, EOL)
    ensures var seen := Observe(Feed(Fresh(requestMethod), pieces));
            seen.status == Success && seen.body == Data(cs)
  {
    hide Run, Step, Feed, Observe, Chunked, Fresh, AreChunks, IsLast;
    FreshInv(requestMethod);
    FragmentationIndependence(requestMethod, pieces);
    AppendTwice(Fresh(requestMethod), headers, Chunked(cs, last, EOL));
    BodyAfterHeaders(Append(Fresh(requestMethod), headers).s, cs, last);
    ObservedSuccess(Append(Append(Fresh(requestMethod), headers).s, Chunked(cs, last, EOL)));
  }

  lemma ObservedSuccess(o: Outcome)
    ensures Observe(o).status == o.status && Observe(o).body == Body(o.s)
  {
  }

  /** Appending a and then, since more was wanted, b is appending both at once. */
  lemma AppendTwice(s: State, a: seq<Byte>, b: seq<Byte>)
    requires Inv(s) && Waiting(Append(s, a).status)
    ensures Observe(Append(Append(s, a).s, b)) == Observe(Append(s, a + b))
    ensures Inv(Append(s, a).s)
  {
    hide Run, Step, Observe, Normal;
    var first := Extend(s, a).(mark := |s.head|);
    ExtendInv(s, a);
    RunInv(first);
    RunExtends(first, b);
    assert s.rest + a + b == s.rest + (a + b);
    assert Extend(first, b) == Extend(s, a + b).(mark := |s.head|);
    SameObserved(Append(Run(first).s, b), Run(Extend(first, b)));
  }

  lemma BodyAfterHeaders(h: State, cs: seq<Chunk>, last: Chunk)
    requires BodyStarts(h) && h.rest == [] && AreChunks(cs) && IsLast(last)
    ensures var o := Append(h, Chunked(cs, last, EOL));
            o.status == Success && Body(o.s) == Data(cs)
  {
    hide Run, Step, Chunked, AreChunks, IsLast, Data;
    var body := Chunked(cs, last, EOL);
    assert [] + body == body;
    var t := h.(mark := |h.head|);
    assert Extend(h, body).(mark := |h.head|) == t.(rest := body);
    DecodingUndoesEncoding(t, cs, last, EOL);
  }

  // ----- before the body is complete

  /** Inside a chunked body, or in the trailers behind it. */
  ghost predicate InBody(s: State) {
    Inv(s) && s.position == PosEntity && s.mode in {UsingChunked, ChunkyBody, ChunkyHeaders}
  }

  /** The octets of the entity, which end at or before the cursor. */
  function Entity(s: State): seq<Byte>
    requires s.entityStart + s.entityLength <= |s.head|
  {
    s.head[s.entityStart..s.entityStart + s.entityLength]
  }

  lemma EntityIsBody(s: State)
    requires s.entityStart + s.entityLength <= |s.head|
    ensures Entity(s) == Body(s)
  {
  }

  lemma SizeLineKeepsEntity(s: State)
    requires InBody(s) && s.mode == UsingChunked
    ensures var t := StepChunkLine(s).s;
            InBody(t) && t.entityStart + t.entityLength <= |t.head| && Entity(t) == Entity(s)
  {
    hide MatchFormat;
    ChunkLineInv(s);
  }

  lemma ChunkBodyGrowsEntity(s: State)
    requires InBody(s) && s.mode == ChunkyBody
    ensures var t := StepChunkBody(s).s;
            InBody(t) && t.entityStart + t.entityLength <= |t.head| && Entity(s) <= Entity(t)
  {
    hide MatchFormat;
    ChunkBodyInv(s);
  }

  lemma TrailerKeepsEntity(s: State)
    requires InBody(s) && s.mode == ChunkyHeaders
    ensures var t := StepHeader(s).s;
            t.entityStart + t.entityLength <= |t.head| && Entity(t) == Entity(s)
    ensures StepHeader(s).status != Success ==> InBody(StepHeader(s).s)
  {
    hide NextToken, MatchFormat, WithHeader;
    HeaderStepInv(s);
    if StepHeader(s).status == Success {
      TrailerKeeps(s);
    }
  }

  /** No step takes back an octet of the entity. */
  lemma {:induction false} RunGrowsEntity(s: State)
    requires InBody(s)
    ensures var t := Run(s).s;
            && t.entityStart + t.entityLength <= |t.head| && Entity(s) <= Entity(t)
            && (Waiting(Run(s).status) ==> InBody(t))
    decreases Rank(s), |s.rest|
  {
    hide StepChunkLine, StepChunkBody, StepHeader, Entity;
    if s.mode == UsingChunked {
      SizeLineKeepsEntity(s);
    } else if s.mode == ChunkyBody {
      ChunkBodyGrowsEntity(s);
    } else {
      TrailerKeepsEntity(s);
    }
    if GoesOn(Step(s).status) {
      StepProgress(s);
      RunGrowsEntity(Step(s).s);
    }
  }

  /** While a chunked body is still arriving, cut off anywhere, the entity is what
      has been decoded so far: a prefix of the data. */
  lemma EntityIsAlwaysAPrefix(h: State, cs: seq<Chunk>, last: Chunk, first: seq<Byte>, more: seq<Byte>)
    requires BodyStarts(h) && h.rest == [] && AreChunks(cs) && IsLast(last)
    requires first + more == Chunked(cs, last, EOL)
    ensures var o := Append(h, first);
            Waiting(o.status) ==> InBody(o.s) && Body(o.s) <= Data(cs)
  {
    hide Run, Step, Chunked, AreChunks, IsLast, Data, Observe, Body, Entity, Inv;
    var o := Append(h, first);
    ExtendInv(h, first);
    RunGrowsEntity(Extend(h, first).(mark := |h.head|));
    if Waiting(o.status) {
      AppendTwice(h, first, more);
      BodyAfterHeaders(h, cs, last);
      var p := Append(o.s, more);
      ObservedSuccess(p);
      ObservedSuccess(Append(h, first + more));
      ExtendInv(o.s, more);
      InBodyEntity(o.s);
      var q := Extend(o.s, more).(mark := |o.s.head|);
      SameEntity(o.s, q);
      RunGrowsEntity(q);
      EntityIsBody(o.s);
      EntityIsBody(p.s);
    }
  }

  lemma InBodyEntity(s: State)
    requires InBody(s)
    ensures s.entityStart + s.entityLength <= |s.head|
  {
  }

  lemma SameEntity(s: State, t: State)
    requires s.entityStart + s.entityLength <= |s.head|
    requires t.head == s.head && t.entityStart == s.entityStart && t.entityLength == s.entityLength
    ensures Entity(s) == Entity(t)
  {
  }

  // ----- every state in between

  ghost predicate IsSuffix(a: seq<Byte>, b: seq<Byte>) {
    |a| <= |b| && a == b[|b| - |a|..]
  }

  /** The chunks `todo` are not decoded yet: what is unread, together with what has
      still to arrive, is their coding; inside a chunk, from its data on. */
  ghost predicate Midway(s: State, todo: seq<Chunk>, last: Chunk, trailers: seq<Byte>, more: seq<Byte>) {
    && InBody(s)
    && match s.mode
       case UsingChunked => s.rest + more == Chunked(todo, last, trailers)
       case ChunkyBody =>
         && todo != [] && s.chunkSize == |todo[0].data|
         && s.rest + more == todo[0].data + (EOL + Chunked(todo[1..], last, trailers))
       case _ => todo == [] && IsSuffix(s.rest + more, trailers)
  }

  lemma ChunkedFirst(cs: seq<Chunk>, last: Chunk, trailers: seq<Byte>)
    requires cs != []
    ensures Chunked(cs, last, trailers) ==
            SizeLine(cs[0].size, cs[0].ext) + (cs[0].data + (EOL + Chunked(cs[1..], last, trailers)))
  {
    hide SizeLine;
  }

  lemma ChunkedLast(last: Chunk, trailers: seq<Byte>)
    ensures Chunked([], last, trailers) == SizeLine(last.size, last.ext) + trailers
  {
  }

  /** Reading a size line. */
  lemma SizeLineMidway(s: State, todo: seq<Chunk>, last: Chunk, trailers: seq<Byte>, more: seq<Byte>)
    requires Midway(s, todo, last, trailers, more) && s.mode == UsingChunked && AreChunks(todo) && IsLast(last)
    requires GoesOn(Step(s).status)
    ensures var t := Step(s).s;
            Midway(t, todo, last, trailers, more) && t.head == s.head && Entity(t) == Entity(s)
  {
    hide MatchFormat, SizeLine, Chunked, AreChunks, IsLast, Inv;
    var t := Extend(s, more);
    StepStable(s, more);
    SizeLineKeepsEntity(s);
    if todo == [] {
      ChunkedLast(last, trailers);
      assert IsLast(last);
      LastLine(t, last, trailers);
    } else {
      ChunkedFirst(todo, last, trailers);
      var tail := todo[0].data + (EOL + Chunked(todo[1..], last, trailers));
      FirstLine(t, todo, tail);
    }
  }

  lemma LastLine(t: State, last: Chunk, trailers: seq<Byte>)
    requires IsLast(last) && t.position == PosEntity && t.mode == UsingChunked
    requires t.rest == SizeLine(last.size, last.ext) + trailers && t.entityStart <= |t.head|
    ensures Step(t).s.mode == ChunkyHeaders && Step(t).s.rest == trailers && Step(t).s.head == t.head
  {
    hide MatchFormat, SizeLine;
    SizeLineMatches(last.size, 0, last.ext, trailers);
  }

  lemma FirstLine(t: State, todo: seq<Chunk>, tail: seq<Byte>)
    requires todo != [] && AreChunks(todo) && t.position == PosEntity && t.mode == UsingChunked
    requires t.rest == SizeLine(todo[0].size, todo[0].ext) + tail
    ensures Step(t).s.mode == ChunkyBody && Step(t).s.rest == tail && Step(t).s.head == t.head
    ensures Step(t).s.chunkSize == |todo[0].data|
  {
    hide MatchFormat, SizeLine;
    assert IsChunk(todo[0]);
    SizeLineMatches(todo[0].size, |todo[0].data|, todo[0].ext, tail);
  }

  /** Reading the data of a chunk and the line end behind it. */
  lemma ChunkDataMidway(s: State, todo: seq<Chunk>, last: Chunk, trailers: seq<Byte>, more: seq<Byte>)
    requires Midway(s, todo, last, trailers, more) && s.mode == ChunkyBody && GoesOn(Step(s).status)
    ensures var t := Step(s).s;
            Midway(t, todo[1..], last, trailers, more) && Entity(t) == Entity(s) + todo[0].data
  {
    hide MatchFormat, Chunked;
    var (t, data, tail) := (Extend(s, more), todo[0].data, Chunked(todo[1..], last, trailers));
    StepStable(s, more);
    ChunkBodyInv(s);
    assert t.rest[..|data|] == data && t.rest[|data|..] == EOL + tail;
    LineEndMatches(tail);
    assert (EOL + tail)[2..] == tail;
    assert Step(t).s.rest == tail && Step(t).s.head == s.head + data;
  }

  lemma TrailerMidway(s: State, todo: seq<Chunk>, last: Chunk, trailers: seq<Byte>, more: seq<Byte>)
    requires Midway(s, todo, last, trailers, more) && s.mode == ChunkyHeaders && GoesOn(Step(s).status)
    ensures var t := Step(s).s; Midway(t, todo, last, trailers, more) && Entity(t) == Entity(s)
  {
    hide NextToken, MatchFormat, WithHeader, Inv;
    TrailerStep(s);
    TrailerKeepsEntity(s);
    HeaderGoesOn(s);
    var t := Step(s).s;
    HeaderConsumes(s);
    var n := |s.rest| - |t.rest|;
    assert t.rest + more == (s.rest + more)[n..];
  }

  lemma HeaderConsumes(s: State)
    requires GoesOn(StepHeader(s).status)
    ensures var t := StepHeader(s).s; |t.rest| <= |s.rest| && t.rest == s.rest[|s.rest| - |t.rest|..]
  {
    hide NextToken, MatchFormat, WithHeader;
  }

  /** A step that waits changes neither the unread octets nor the entity. */
  lemma WaitMidway(s: State, todo: seq<Chunk>, last: Chunk, trailers: seq<Byte>, more: seq<Byte>)
    requires Midway(s, todo, last, trailers, more) && Waiting(Step(s).status)
    ensures var t := Step(s).s; Midway(t, todo, last, trailers, more) && Entity(t) == Entity(s) && t.mode == s.mode
  {
    hide StepHeader, StepChunkBody, StepChunkLine, Chunked, Inv;
    OtherWaits(s);
    if s.mode == UsingChunked {
      SizeLineKeepsEntity(s);
      SizeLineWaits(s);
    }
  }

  lemma SizeLineWaits(s: State)
    requires StepChunkLine(s).status == Incomplete
    ensures StepChunkLine(s).s == s.(chunkSize := StepChunkLine(s).s.chunkSize)
  {
    hide MatchFormat;
  }

  /** After any run the chunks up to some k-th are decoded: the entity has grown by
      just their data, and the coding of the others is unread. */
  ghost predicate Reached(
      s: State, t: State, todo: seq<Chunk>, last: Chunk, trailers: seq<Byte>, more: seq<Byte>, k: nat)
  {
    && k <= |todo| && Midway(t, todo[k..], last, trailers, more)
    && InBody(s) && Entity(t) == Entity(s) + Data(todo[..k])
  }

  lemma {:induction false} RunMidway(
      s: State, todo: seq<Chunk>, last: Chunk, trailers: seq<Byte>, more: seq<Byte>)
    requires Midway(s, todo, last, trailers, more) && AreChunks(todo) && IsLast(last)
    ensures Waiting(Run(s).status) ==> exists k :: Reached(s, Run(s).s, todo, last, trailers, more, k)
    decreases Rank(s), |s.rest|
  {
    hide Step, Midway, AreChunks, IsLast, Entity, Data;
    var o := Step(s);
    MidwayModes(s, todo, last, trailers, more);
    if Waiting(o.status) {
      WaitMidway(s, todo, last, trailers, more);
      ReachedNow(s, o.s, todo, last, trailers, more);
    } else if GoesOn(o.status) {
      StepProgress(s);
      if s.mode == ChunkyBody {
        ChunkDataMidway(s, todo, last, trailers, more);
        AllButFirst(todo);
        RunMidway(o.s, todo[1..], last, trailers, more);
        if Waiting(Run(s).status) {
          var k :| Reached(o.s, Run(s).s, todo[1..], last, trailers, more, k);
          ReachedLater(s, o.s, Run(s).s, todo, last, trailers, more, k);
        }
      } else {
        if s.mode == UsingChunked {
          SizeLineMidway(s, todo, last, trailers, more);
        } else {
          TrailerMidway(s, todo, last, trailers, more);
        }
        RunMidway(o.s, todo, last, trailers, more);
        if Waiting(Run(s).status) {
          var k :| Reached(o.s, Run(s).s, todo, last, trailers, more, k);
          assert Reached(s, Run(s).s, todo, last, trailers, more, k);
        }
      }
    }
  }

  lemma MidwayModes(s: State, todo: seq<Chunk>, last: Chunk, trailers: seq<Byte>, more: seq<Byte>)
    requires Midway(s, todo, last, trailers, more)
    ensures InBody(s) && s.mode in {UsingChunked, ChunkyBody, ChunkyHeaders} && (s.mode == ChunkyBody ==> todo != [])
  {
  }

  lemma AllButFirst(todo: seq<Chunk>)
    requires AreChunks(todo)
    ensures todo != [] ==> AreChunks(todo[1..])
  {
  }

  lemma ReachedNow(s: State, t: State, todo: seq<Chunk>, last: Chunk, trailers: seq<Byte>, more: seq<Byte>)
    requires Midway(t, todo, last, trailers, more) && InBody(s) && Entity(t) == Entity(s)
    ensures Reached(s, t, todo, last, trailers, more, 0)
  {
    hide Midway, Inv;
    InBodyEntity(s);
    assert todo[0..] == todo && todo[..0] == [] && Data([]) == [];
    assert Entity(s) + [] == Entity(s);
    MidwayModes(t, todo, last, trailers, more);
  }

  lemma ReachedLater(
      s: State, u: State, t: State, todo: seq<Chunk>, last: Chunk, trailers: seq<Byte>, more: seq<Byte>, k: nat)
    requires todo != [] && Reached(u, t, todo[1..], last, trailers, more, k)
    requires InBody(s) && Entity(u) == Entity(s) + todo[0].data
    ensures Reached(s, t, todo, last, trailers, more, k + 1)
  {
    hide Midway, Inv, Entity;
    InBodyEntity(s);
    assert todo[1..][k..] == todo[k + 1..] && todo[..k + 1][1..] == todo[1..][..k] && todo[..k + 1][0] == todo[0];
    assert Data(todo[..k + 1]) == todo[0].data + Data(todo[1..][..k]);
    assert Entity(s) + todo[0].data + Data(todo[1..][..k]) == Entity(s) + (todo[0].data + Data(todo[1..][..k]));
  }

  /** The first k chunks are decoded, and nothing else of the coding is. */
  ghost predicate DecodedTo(s: State, cs: seq<Chunk>, last: Chunk, trailers: seq<Byte>, more: seq<Byte>, k: nat) {
    && k <= |cs| && Midway(s, cs[k..], last, trailers, more)
    && Body(s) == Data(cs[..k])
    && s.entityStart <= |s.head| && (s.mode != ChunkyHeaders ==> s.head[s.entityStart..] == Data(cs[..k]))
  }

  /** One more piece: the chunks decoded so far stay so, and more may follow. */
  lemma NextIntermediateState(
      s: State, cs: seq<Chunk>, last: Chunk, trailers: seq<Byte>, first: seq<Byte>, more: seq<Byte>, k: nat)
    requires DecodedTo(s, cs, last, trailers, first + more, k) && AreChunks(cs) && IsLast(last)
    ensures var o := Append(s, first);
            Waiting(o.status) ==> exists n :: k <= n && DecodedTo(o.s, cs, last, trailers, more, n)
  {
    hide Run, Step, Chunked, AreChunks, IsLast, Data, Body, Entity, Inv;
    ExtendInv(s, first);
    var t := Extend(s, first).(mark := |s.head|);
    assert s.rest + first + more == s.rest + (first + more);
    SomeOf(cs, k);
    RunMidway(t, cs[k..], last, trailers, more);
    if Waiting(Run(t).status) {
      var n :| Reached(t, Run(t).s, cs[k..], last, trailers, more, n);
      InBodyEntity(s);
      SameEntity(s, t);
      EntityIsBody(s);
      FurtherReached(t, Run(t).s, cs, last, trailers, more, k, n);
    }
  }

  lemma {:induction false} FeedMidway(
      s: State, cs: seq<Chunk>, last: Chunk, trailers: seq<Byte>, pieces: seq<seq<Byte>>, more: seq<Byte>, k: nat)
    requires pieces != [] && DecodedTo(s, cs, last, trailers, Concat(pieces) + more, k)
    requires AreChunks(cs) && IsLast(last)
    ensures var o := Feed(s, pieces);
            Waiting(o.status) ==> exists n :: k <= n && DecodedTo(o.s, cs, last, trailers, more, n)
    decreases |pieces|
  {
    hide Append, AreChunks, IsLast, DecodedTo;
    var left := Concat(pieces[1..]) + more;
    assert Concat(pieces) + more == pieces[0] + left;
    NextIntermediateState(s, cs, last, trailers, pieces[0], left, k);
    var o := Append(s, pieces[0]);
    if |pieces| == 1 {
      assert pieces[1..] == [] && left == more;
    } else if Waiting(o.status) {
      var n :| k <= n && DecodedTo(o.s, cs, last, trailers, left, n);
      FeedMidway(o.s, cs, last, trailers, pieces[1..], more, n);
    }
  }

  /** Every state in which the parser waits inside a chunked body, whatever pieces
      have led to it: up to some k-th the chunks are decoded, the buffer holds from
      the start of the entity their data and nothing else up to the cursor, and then
      the unread coding of the others, as far as it has arrived. */
  lemma EveryIntermediateState(
      h: State, cs: seq<Chunk>, last: Chunk, trailers: seq<Byte>, pieces: seq<seq<Byte>>, more: seq<Byte>)
    requires BodyStarts(h) && h.rest == [] && AreChunks(cs) && IsLast(last)
    requires pieces != [] && Concat(pieces) + more == Chunked(cs, last, trailers)
    ensures var o := Feed(h, pieces);
            Waiting(o.status) ==> exists k :: DecodedTo(o.s, cs, last, trailers, more, k)
  {
    hide Feed, Chunked, AreChunks, IsLast;
    NothingYet(h, cs, last, trailers, Concat(pieces) + more);
    FeedMidway(h, cs, last, trailers, pieces, more, 0);
  }

  lemma NothingYet(h: State, cs: seq<Chunk>, last: Chunk, trailers: seq<Byte>, coding: seq<Byte>)
    requires BodyStarts(h) && h.rest == [] && coding == Chunked(cs, last, trailers)
    ensures DecodedTo(h, cs, last, trailers, coding, 0)
  {
    hide Chunked;
    assert cs[0..] == cs && cs[..0] == [] && [] + coding == coding;
  }

  lemma SomeOf(cs: seq<Chunk>, k: nat)
    requires AreChunks(cs) && k <= |cs|
    ensures AreChunks(cs[k..])
  {
  }

  lemma FurtherReached(
      s: State, t: State, cs: seq<Chunk>, last: Chunk, trailers: seq<Byte>, more: seq<Byte>, k: nat, n: nat)
    requires k <= |cs| && Reached(s, t, cs[k..], last, trailers, more, n) && Entity(s) == Data(cs[..k])
    ensures DecodedTo(t, cs, last, trailers, more, k + n)
  {
    hide Data, Chunked;
    assert cs[k..][n..] == cs[k + n..] && cs[..k] + cs[k..][..n] == cs[..k + n];
    DataConcat(cs[..k], cs[k..][..n]);
    EntityIsBody(t);
  }

  lemma {:induction false} DataConcat(a: seq<Chunk>, b: seq<Chunk>)
    ensures Data(a + b) == Data(a) + Data(b)
    decreases |a|
  {
    if a == [] {
      assert a + b == b;
    } else {
      assert (a + b)[1..] == a[1..] + b;
      DataConcat(a[1..], b);
    }
  }

  /** Exactly after the last octet of some chunk the parser waits with that chunk,
      and all before it, decoded, and nothing unread. */
  lemma DecodedAtBoundary(h: State, done: seq<Chunk>)
    requires BodyStarts(h) && h.rest == [] && AreChunks(done)
    ensures var o := Append(h, EncodeAll(done));
            o.status == Incomplete && o.s == Decoded(h, done, []).(mark := |h.head|)
  {
    hide Run, EncodeAll, AreChunks, Data;
    var s := h.(mark := |h.head|);
    assert EncodeAll(done) + [] == EncodeAll(done);
    ChunksDecode(s, done, []);
    assert [] + EncodeAll(done) == EncodeAll(done);
    assert Extend(h, EncodeAll(done)).(mark := |h.head|) == s.(rest := EncodeAll(done));
    NothingToRead(Decoded(s, done, []));
  }

  lemma NothingToRead(s: State)
    requires s.position == PosEntity && s.mode == UsingChunked && s.rest == []
    ensures Run(s) == Outcome(s, Incomplete)
  {
  }
}
