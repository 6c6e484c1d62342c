/** The head of a response, from its first octet on: any status line and any header
    lines, and what they say about the body. */
module HttpResponse {
  import opened Bytes
  import opened HttpScanner
  import opened StrIntMap
  import opened HttpTables
  import opened HttpMessage
  import opened HttpFragments
  import opened HttpChunks
  import opened HttpFields
  import opened HttpLengths
  import opened Wrappers

  /** The head of a response: blank lines, the name of the protocol, what follows it
      on the status line, and the header lines. */
  datatype Preamble = Preamble(blank: seq<Byte>, name: seq<Byte>, status: seq<Byte>, fields: seq<HeaderField>)

  /** Blanks and line ends. */
  ghost predicate IsBlankText(s: seq<Byte>)
    decreases |s|
  {
    || s == []
    || ((IsBlank(s[0]) || s[0] == LF) && IsBlankText(s[1..]))
    || (s[0] == CR && |s| > 1 && s[1] == LF && IsBlankText(s[2..]))
  }

  /** HTTP, whatever the case. */
  predicate IsHttp(name: seq<Byte>) {
    |name| == 4 && ToLower(name[0]) == 104 && ToLower(name[1]) == 116 && ToLower(name[2]) == 116
    && ToLower(name[3]) == 112
  }

  /** What follows the protocol name on a status line: plain octets, white space not
      first, that begin with version and code. */
  ghost predicate IsStatus(v: seq<Byte>) {
    v != [] && IsIdentifier(v[0]) && (forall k :: 0 <= k < |v| ==> IsPlain(v[k])) && ParseStatusLine(v).Some?
  }

  ghost predicate IsPreamble(h: Preamble) {
    IsBlankText(h.blank) && IsHttp(h.name) && IsStatus(h.status) && AreFields(h.fields)
  }

  function StatusText(name: seq<Byte>, v: seq<Byte>): seq<Byte> {
    name + ([47] + (v + EOL))
  }

  function HeadText(h: Preamble): seq<Byte> {
    h.blank + (StatusText(h.name, h.status) + (FieldLines(h.fields) + EOL))
  }

  // ----- blank lines

  lemma SkipsToken(u: seq<Byte>, i: nat, n: nat)
    requires i <= |u| && (NextToken(u[i..]) == Token(n, Whitespace) || NextToken(u[i..]) == Token(n, Crlf))
    ensures i + n <= |u| && SkipBlankLines(u, i) == SkipBlankLines(u, i + n)
  {
    hide NextToken;
  }

  lemma SkipsNothing(u: seq<Byte>, i: nat)
    requires i <= |u| && NextToken(u[i..]).Token? && NextToken(u[i..]).kind == Identifier
    ensures SkipBlankLines(u, i) == Span(i, Ok)
  {
    hide NextToken;
  }

  /** Blank lines before the status line are skipped. */
  lemma {:induction false} BlankLinesSkipped(u: seq<Byte>, i: nat, b: seq<Byte>, r: seq<Byte>)
    requires i <= |u| && u[i..] == b + r && IsBlankText(b)
    requires NextToken(r).Token? && NextToken(r).kind == Identifier
    ensures SkipBlankLines(u, i) == Span(i + |b|, Ok)
    decreases |b|
  {
    hide NextToken, IsBlankText, SkipBlankLines, IsIdentifier;
    if b == [] {
      assert u[i..] == r;
      SkipsNothing(u, i);
    } else {
      FirstOctet(r);
      var n := FirstBlankToken(u[i..], b, r);
      SkipsToken(u, i, n);
      SliceTwice(u, i, n);
      assert (b + r)[n..] == b[n..] + r;
      BlankLinesSkipped(u, i + n, b[n..], r);
    }
  }

  lemma FirstOctet(r: seq<Byte>)
    requires NextToken(r).Token? && NextToken(r).kind == Identifier
    ensures r != [] && IsIdentifier(r[0])
  {
  }

  /** The first token of blank text. */
  lemma FirstBlankToken(v: seq<Byte>, b: seq<Byte>, r: seq<Byte>) returns (n: nat)
    requires v == b + r && b != [] && IsBlankText(b) && r != [] && IsIdentifier(r[0])
    ensures 0 < n <= |b| && IsBlankText(b[n..])
    ensures NextToken(v) == Token(n, if IsBlank(b[0]) then Whitespace else Crlf)
  {
    if IsBlank(b[0]) {
      n := BlankEnd(v, 0);
      assert !IsBlank(r[0]) && v[|b|] == r[0];
      assert n <= |b|;
      BlankToken(v, n);
      assert forall k :: 0 <= k < n ==> b[k] == v[k];
      DropBlankText(b, n);
    } else if b[0] == LF {
      n := 1;
    } else {
      n := 2;
    }
  }

  lemma {:induction false} DropBlankText(b: seq<Byte>, n: nat)
    requires IsBlankText(b) && n <= |b| && forall k :: 0 <= k < n ==> IsBlank(b[k])
    ensures IsBlankText(b[n..])
    decreases n
  {
    if n == 0 {
      assert b[0..] == b;
    } else {
      assert b[1..][n - 1..] == b[n..];
      DropBlankText(b[1..], n - 1);
    }
  }

  // ----- the status line

  lemma NameMatches(ds: seq<Directive>, r: seq<Byte>)
    requires ds == STATUS_LINE && |r| >= 4 && IsHttp(r[..4])
    ensures VfMatch(ds, r, 0, [], true) == VfMatch(ds[5..], r, 4, [], false)
  {
    hide MatchOne, VfMatch;
    assert ds[0..] == ds && r[0..] == r;
    IgnoreCaseMatches(r);
    VfStep(ds, 0, r, 0, [], true, Match(0, [], Ok));
    LitStep(ds, 1, r, 0, [], false);
    LitStep(ds, 2, r, 1, [], false);
    LitStep(ds, 3, r, 2, [], false);
    LitStep(ds, 4, r, 3, [], false);
  }

  lemma SlashMatches(ds: seq<Directive>, r: seq<Byte>)
    requires ds == STATUS_LINE && |r| >= 6 && r[4] == 47
    requires NextToken(r[5..]).Token? && NextToken(r[5..]).kind == Identifier
    ensures VfMatch(ds[5..], r, 4, [], false) == VfMatch(ds[8..], r, 5, [], false)
  {
    hide NextToken, MatchOne, VfMatch;
    SlashToken(r[4..]);
    EmptyStep(ds, 5, r, 4, [], false);
    LitStep(ds, 6, r, 4, [], false);
    EmptyStep(ds, 7, r, 5, [], false);
  }

  lemma ProtocolMatches(r: seq<Byte>)
    requires |r| >= 6 && IsHttp(r[..4]) && r[4] == 47
    requires NextToken(r[5..]).Token? && NextToken(r[5..]).kind == Identifier
    ensures MatchFormat(STATUS_LINE, r) == VfMatch(STATUS_LINE[8..], r, 5, [], false)
  {
    hide NextToken, MatchOne, VfMatch;
    NameMatches(STATUS_LINE, r);
    SlashMatches(STATUS_LINE, r);
  }

  lemma StatusLineMatches(name: seq<Byte>, v: seq<Byte>, tail: seq<Byte>)
    requires IsHttp(name) && IsStatus(v)
    ensures MatchFormat(STATUS_LINE, StatusText(name, v) + tail) == Match(|v| + 7, [Text(v)], Ok)
  {
    hide NextToken, MatchOne, VfMatch, MatchFormat, ParseStatusLine;
    var r := StatusText(name, v) + tail;
    assert r[..4] == name && r[4] == 47;
    RestOfStatusLine(name, v, r, tail);
    ProtocolMatches(r);
    TextThenEnd(STATUS_LINE, 8, r, 5, |v|, v, false);
  }

  lemma IgnoreCaseMatches(r: seq<Byte>)
    ensures MatchOne(IgnoreCase, r, true) == Match(0, [], Ok)
  {
  }

  lemma RestOfStatusLine(name: seq<Byte>, v: seq<Byte>, r: seq<Byte>, tail: seq<Byte>)
    requires |name| == 4 && IsStatus(v) && r == StatusText(name, v) + tail
    ensures MatchOne(Line, r[5..], false) == Match(|v|, [Text(v)], Ok)
    ensures MatchOne(LineEnd, r[5 + |v|..], false) == Match(2, [], Ok)
    ensures NextToken(r[5..]).Token? && NextToken(r[5..]).kind == Identifier
  {
    hide NextToken, UntilCrlf, IsExtText, ParseStatusLine, IsIdentifier, IsPlain;
    var (u, n) := (r[5..], |v|);
    assert u == v + EOL + tail;
    assert u[0..n] == u[..n] == v;
    PlainIsExtText(v);
    UntilCrlfPlain(u, 0, n);
    assert r == (name + [47] + v) + (EOL + tail) && |name + [47] + v| == 5 + n;
    assert r[5 + n..] == EOL + tail;
    EolToken(r[5 + n..], tail);
    StartsWithToken(u, n);
  }

  lemma StartsWithToken(u: seq<Byte>, n: nat)
    requires 0 < n < |u| && IsIdentifier(u[0]) && u[n] == 13
    ensures NextToken(u).Token? && NextToken(u).kind == Identifier
  {
    hide NextToken;
    var k := IdentifierEnd(u, 1);
    assert k <= n;
    IdentifierToken(u, k);
  }

  /** The protocol name is a token. */
  lemma HttpToken(name: seq<Byte>, r: seq<Byte>)
    requires IsHttp(name) && |r| > 4 && r[..4] == name && r[4] == 47
    ensures NextToken(r) == Token(4, Identifier)
  {
    assert forall k :: 0 <= k < 4 ==> r[k] == name[k];
    IdentifierToken(r, 4);
  }

  // ----- the run over the head

  function HeadMessage(m: Method, h: Preamble): Message
    requires ParseStatusLine(h.status).Some?
  {
    WithFields(WithStatus(Fresh(m).message, ParseStatusLine(h.status).value), h.fields)
  }

  /** The states in which the parser reads the status line, the header lines, and
      chooses how to read the body. */
  function AtStatus(m: Method, h: Preamble): State {
    Fresh(m).(head := h.blank, rest := StatusText(h.name, h.status) + (FieldLines(h.fields) + EOL))
  }

  function AtHeaders(m: Method, h: Preamble): State
    requires ParseStatusLine(h.status).Some?
  {
    Fresh(m).(head := h.blank + StatusText(h.name, h.status), rest := FieldLines(h.fields) + EOL,
              position := PosHeaders, message := WithStatus(Fresh(m).message, ParseStatusLine(h.status).value))
  }

  function AtBody(m: Method, h: Preamble): State
    requires ParseStatusLine(h.status).Some?
  {
    Fresh(m).(head := HeadText(h), position := PosEntity, message := HeadMessage(m, h))
  }

  lemma StatusLineStep(m: Method, h: Preamble)
    requires IsPreamble(h)
    ensures StatusLineAt(AtStatus(m, h)) == Outcome(AtHeaders(m, h), Ok)
  {
    hide MatchFormat, ParseStatusLine, FieldLines, IsBlankText, IsHttp;
    var s := AtStatus(m, h);
    var (r, n) := (s.rest, |h.status| + 7);
    StatusLineMatches(h.name, h.status, FieldLines(h.fields) + EOL);
    assert |StatusText(h.name, h.status)| == n by { NameLength(h.name); }
    assert r[..n] == StatusText(h.name, h.status) && r[n..] == FieldLines(h.fields) + EOL;
  }

  lemma NameLength(name: seq<Byte>)
    requires IsHttp(name)
    ensures |name| == 4
  {
  }

  lemma StatusStep(m: Method, h: Preamble)
    requires IsPreamble(h)
    ensures Step(Fresh(m).(rest := HeadText(h))) == Outcome(AtHeaders(m, h), Ok)
  {
    hide NextToken, StatusLineAt, SkipBlankLines, IsBlankText, IsStatus, AreFields;
    var s := Fresh(m).(rest := HeadText(h));
    var r := AtStatus(m, h).rest;
    HttpToken(h.name, r);
    assert s.rest[0..] == h.blank + r;
    BlankLinesSkipped(s.rest, 0, h.blank, r);
    assert [] + h.blank == h.blank;
    assert Advance(s, |h.blank|) == AtStatus(m, h);
    StatusLineStep(m, h);
  }

  /** All header lines, one after another. */
  lemma {:induction false} FieldsRun(s: State, fs: seq<HeaderField>)
    requires s.position == PosHeaders && AreFields(fs) && s.rest == FieldLines(fs) + EOL
    ensures Run(s) == Run(s.(head := s.head + FieldLines(fs) + EOL, rest := [], position := PosEntity,
                             message := WithFields(s.message, fs)))
    decreases |fs|
  {
    hide StepHeader, StepEntity, WithHeader, FieldValue, IsField, FieldLine;
    if fs == [] {
      EmptyLine(s);
      assert s.head + FieldLines(fs) + EOL == s.head + EOL;
    } else {
      var tail := FieldLines(fs[1..]) + EOL;
      assert s.rest == FieldLine(fs[0]) + tail;
      assert AreFields(fs[1..]) && IsField(fs[0]);
      LinesFollow(fs[1..]);
      ReadsField(s, fs[0], tail);
      var t := Step(s).s;
      FieldsRun(t, fs[1..]);
      assert t.head + FieldLines(fs[1..]) + EOL == s.head + FieldLines(fs) + EOL;
    }
  }

  lemma EmptyLine(s: State)
    requires s.position == PosHeaders && s.rest == FieldLines([]) + EOL
    ensures Step(s) == Outcome(s.(head := s.head + EOL, rest := [], position := PosEntity), Ok)
  {
    hide MatchFormat, NextToken;
    assert s.rest == EOL + [] && s.rest[..2] == EOL && s.rest[2..] == [];
    EolToken(s.rest, []);
  }

  lemma RunSteps(s: State)
    requires GoesOn(Step(s).status)
    ensures Run(s) == Run(Step(s).s)
  {
    hide Step;
  }

  /** Any blank lines, status line and header lines bring the parser to the body, with
      just these headers. */
  lemma HeadRuns(m: Method, h: Preamble)
    requires IsPreamble(h)
    ensures Append(Fresh(m), HeadText(h)) == Run(AtBody(m, h))
  {
    hide Step, Run, ParseStatusLine, HeadMessage, AreFields, IsBlankText, IsHttp, HeadText, StatusText, FieldLines;
    AppendToNothing(m, HeadText(h));
    StatusStep(m, h);
    RunSteps(Fresh(m).(rest := HeadText(h)));
    HeadersRun(m, h);
  }

  lemma AppendToNothing(m: Method, text: seq<Byte>)
    ensures Append(Fresh(m), text) == Run(Fresh(m).(rest := text))
  {
    hide Run;
    assert [] + text == text;
    assert Extend(Fresh(m), text).(mark := 0) == Fresh(m).(rest := text);
  }

  lemma HeadersRun(m: Method, h: Preamble)
    requires IsPreamble(h)
    ensures Run(AtHeaders(m, h)) == Run(AtBody(m, h))
  {
    hide Run, ParseStatusLine, WithFields, AreFields, IsBlankText, IsHttp, StatusText, FieldLines;
    var (a, b) := (StatusText(h.name, h.status), FieldLines(h.fields));
    FieldsRun(AtHeaders(m, h), h.fields);
    FourParts(h.blank, a, b, EOL);
  }

  lemma FourParts(a: seq<Byte>, b: seq<Byte>, c: seq<Byte>, d: seq<Byte>)
    ensures a + b + c + d == a + (b + (c + d))
  {
  }

  // ----- what the headers say

  /** Lowering the Transfer-Encoding leaves the headers of other names alone. */
  lemma {:induction false} FindInUpdated(hs: seq<Header>, te: nat, h: Header, id: int, i: nat)
    requires te < |hs| && h.nameId == hs[te].nameId != id && i <= |hs|
    ensures FindById(hs[te := h], id, i) == FindById(hs, id, i)
    decreases |hs| - i
  {
    if i < |hs| && hs[i].nameId != id {
      FindInUpdated(hs, te, h, id, i + 1);
    }
  }

  /** The value of the header with the id. */
  function ValueOf(hs: seq<Header>, id: int): Option<seq<Byte>> {
    var i := FindById(hs, id, 0);
    if i == -1 then None else Some(hs[i].value)
  }

  lemma LoweredKeeps(hs: seq<Header>, id: int)
    requires id != HDR_TRANSFER_ENCODING
    ensures ValueOf(LowerTransferEncoding(hs), id) == ValueOf(hs, id)
  {
    hide LowerCString;
    var te := FindById(hs, HDR_TRANSFER_ENCODING, 0);
    if te != -1 {
      FindInUpdated(hs, te, hs[te].(value := LowerCString(hs[te].value)), id, 0);
    }
  }

  /** Looking for chunks lowers the value of the Transfer-Encoding up to its first NUL,
      and nothing else. */
  lemma LoweredIs(hs: seq<Header>, k: nat)
    requires k < |hs|
    ensures var (low, te) := (LowerTransferEncoding(hs), FindById(hs, HDR_TRANSFER_ENCODING, 0));
            && |low| == |hs|
            && if k != te then low[k] == hs[k]
               else
                 && low[k] == hs[k].(value := low[k].value) && |low[k].value| == |hs[k].value|
                 && forall i :: 0 <= i < |hs[k].value| ==>
                      low[k].value[i] ==
                      if i < |CString(hs[k].value)| then ToLower(hs[k].value[i]) else hs[k].value[i]
  {
    hide CString;
  }

  /** The choice of the read method, on a message that has a body. */
  lemma ChoiceStep(s: State)
    requires s.position == PosEntity && s.mode == DetermineReadMethod && !NoBody(s.message)
    ensures var t := Step(s).s;
            && t.position == PosEntity && t.head == s.head && t.rest == s.rest
            && t.entityStart == |s.head| && t.entityLength == 0 && Step(s).status == Continue
            && t.message == s.message.(headers := LowerTransferEncoding(s.message.headers))
            && if IsChunkedTransfer(s.message.headers) then t.mode == UsingChunked
               else match ValueOf(s.message.headers, HDR_CONTENT_LENGTH)
                    case Some(value) => t.mode == UsingClen && t.contentLength == RawToInt(value) % WORD
                    case None => t.mode == UntilClose
  {
    hide NoBody, IsChunkedTransfer, LowerTransferEncoding, RawToInt;
    LoweredKeeps(s.message.headers, HDR_CONTENT_LENGTH);
  }

  /** A Transfer-Encoding that mentions chunked: the parser waits for chunks. */
  lemma HeadAnnouncesChunks(m: Method, h: Preamble)
    requires IsPreamble(h)
    requires !NoBody(HeadMessage(m, h)) && IsChunkedTransfer(HeadMessage(m, h).headers)
    ensures var o := Append(Fresh(m), HeadText(h));
            BodyStarts(o.s) && o.status == Incomplete && o.s.rest == []
  {
    hide Step, ParseStatusLine, AreFields, IsBlankText, HeadMessage, IsChunkedTransfer, HeadText, NoBody, ValueOf;
    HeadRuns(m, h);
    var s := AtBody(m, h);
    ChoiceStep(s);
    NothingToRead(Step(s).s);
  }

  /** No such header, and a Content-Length: the parser waits for that many octets. */
  lemma HeadAnnouncesLength(m: Method, h: Preamble)
    requires IsPreamble(h)
    requires !NoBody(HeadMessage(m, h)) && !IsChunkedTransfer(HeadMessage(m, h).headers)
    requires ValueOf(HeadMessage(m, h).headers, HDR_CONTENT_LENGTH).Some?
    ensures var n := RawToInt(ValueOf(HeadMessage(m, h).headers, HDR_CONTENT_LENGTH).value) % WORD;
            var o := Append(Fresh(m), HeadText(h));
            LengthAnnounced(o.s, n) && o.status == if n == 0 then Success else Incomplete
  {
    hide Step, ParseStatusLine, AreFields, IsBlankText, HeadMessage, IsChunkedTransfer, HeadText, NoBody, RawToInt,
         ValueOf;
    HeadRuns(m, h);
    var s := AtBody(m, h);
    ChoiceStep(s);
    ClenWaits(Step(s).s);
  }

  lemma ClenWaits(s: State)
    requires s.position == PosEntity && s.mode == UsingClen && s.rest == []
    requires s.entityStart == |s.head| && s.entityLength == 0
    ensures LengthAnnounced(Run(s).s, s.contentLength)
    ensures Run(s).status == if s.contentLength == 0 then Success else Incomplete
  {
  }

  /** A status or a request that excludes a body: the response is complete. */
  lemma HeadWithoutBody(m: Method, h: Preamble)
    requires IsPreamble(h) && NoBody(HeadMessage(m, h))
    ensures var o := Append(Fresh(m), HeadText(h)); o.status == Success && Body(o.s) == []
  {
    hide ParseStatusLine, WithFields, HeadText, NoBody;
    HeadRuns(m, h);
  }

  // ----- end to end

  /** A whole chunked response: any status line, any headers that announce chunks, any
      chunks and any trailers, in any pieces, is parsed into exactly its data. */
  lemma ChunksInPieces(
      m: Method, h: Preamble, cs: seq<Chunk>, last: Chunk, ts: seq<HeaderField>,
      pieces: seq<seq<Byte>>)
    requires IsPreamble(h)
    requires !NoBody(HeadMessage(m, h)) && IsChunkedTransfer(HeadMessage(m, h).headers)
    requires AreChunks(cs) && IsLast(last) && AreFields(ts)
    requires pieces != [] && Concat(pieces) == HeadText(h) + Chunked(cs, last, FieldLines(ts) + EOL)
    ensures var seen := Observe(Feed(Fresh(m), pieces));
            seen.status == Success && seen.body == Data(cs)
  {
    hide Append, HeadText, Chunked, BodyStarts, Feed, Observe, AreFields, WithFields, FieldLines, ParseStatusLine,
         NoBody, IsChunkedTransfer;
    HeadAnnouncesChunks(m, h);
    TrailedResponseInPieces(m, HeadText(h), cs, last, ts, pieces);
  }

  /** A whole response of known length, with any surplus behind it, in any pieces. */
  lemma LengthInPieces(
      m: Method, h: Preamble, data: seq<Byte>, surplus: seq<Byte>, pieces: seq<seq<Byte>>)
    requires IsPreamble(h)
    requires !NoBody(HeadMessage(m, h)) && !IsChunkedTransfer(HeadMessage(m, h).headers)
    requires ValueOf(HeadMessage(m, h).headers, HDR_CONTENT_LENGTH).Some?
    requires RawToInt(ValueOf(HeadMessage(m, h).headers, HDR_CONTENT_LENGTH).value) % WORD == |data|
    requires pieces != [] && Concat(pieces) == HeadText(h) + (data + surplus)
    ensures var seen := Observe(Feed(Fresh(m), pieces));
            seen.status == Success && seen.body == data
  {
    hide Append, HeadText, LengthAnnounced, Feed, Observe, AreFields, WithFields, ParseStatusLine, NoBody,
         IsChunkedTransfer, RawToInt, ValueOf;
    HeadAnnouncesLength(m, h);
    LengthResponseInPieces(m, HeadText(h), data, surplus, pieces);
  }

  /** After such a head without a Content-Length the entity is whatever comes. */
  lemma HeadThenClose(m: Method, h: Preamble)
    requires IsPreamble(h) && !NoBody(HeadMessage(m, h)) && !IsChunkedTransfer(HeadMessage(m, h).headers)
    requires ValueOf(HeadMessage(m, h).headers, HDR_CONTENT_LENGTH).None?
    ensures var o := Append(Fresh(m), HeadText(h)); UntilTheClose(o.s) && o.status == IncompleteEntity
  {
    hide Step, ParseStatusLine, AreFields, IsBlankText, HeadMessage, IsChunkedTransfer, HeadText, NoBody, ValueOf;
    HeadRuns(m, h);
    var s := AtBody(m, h);
    ChoiceStep(s);
    CloseWaits(Step(s).s);
  }

  /** The body goes on to the close of the connection, and none of it is there yet. */
  ghost predicate UntilTheClose(s: State) {
    Inv(s) && s.position == PosEntity && s.mode == UntilClose && s.rest == [] && s.entityStart == |s.head|
  }

  lemma CloseWaits(s: State)
    requires s.position == PosEntity && s.mode == UntilClose && s.rest == []
    requires s.entityStart == |s.head| && s.entityLength == 0
    ensures UntilTheClose(Run(s).s) && Run(s).status == IncompleteEntity
  {
    assert s.head + [] == s.head;
  }

  lemma AllIsEntity(s: State, data: seq<Byte>)
    requires UntilTheClose(s)
    ensures Append(s, data).status == IncompleteEntity && Body(Append(s, data).s) == data
  {
    assert s.head + ([] + data) + [] == s.head + data;
    assert (s.head + data)[|s.head|..] == data;
  }

  /** A whole response that ends with the connection, in any pieces. */
  lemma CloseInPieces(m: Method, h: Preamble, data: seq<Byte>, pieces: seq<seq<Byte>>)
    requires IsPreamble(h) && !NoBody(HeadMessage(m, h)) && !IsChunkedTransfer(HeadMessage(m, h).headers)
    requires ValueOf(HeadMessage(m, h).headers, HDR_CONTENT_LENGTH).None?
    requires pieces != [] && Concat(pieces) == HeadText(h) + data
    ensures var seen := Observe(Feed(Fresh(m), pieces));
            seen.status == IncompleteEntity && seen.body == data
  {
    hide Append, HeadText, UntilTheClose, Feed, Observe, IsPreamble, HeadMessage, NoBody, IsChunkedTransfer, ValueOf,
         Inv;
    HeadThenClose(m, h);
    FreshInv(m);
    FragmentationIndependence(m, pieces);
    AppendTwice(Fresh(m), HeadText(h), data);
    AllIsEntity(Append(Fresh(m), HeadText(h)).s, data);
    ObservedSuccess(Append(Append(Fresh(m), HeadText(h)).s, data));
  }
}
