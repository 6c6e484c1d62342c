/** From header lines to headers: what the parser finds under an id after it has read
    any header lines, and so which of them say how the body is delimited. */
module HttpHeaders {
  import opened Bytes
  import opened HttpScanner
  import opened StrIntMap
  import opened HttpTables
  import opened HttpMessage
  import opened HttpFragments
  import opened HttpChunks
  import opened HttpFields
  import opened HttpLengths
  import opened HttpResponse
  import opened HttpStatus
  import opened Wrappers

  // ----- names and ids

  lemma {:induction false} SameIndex(a: seq<Byte>, b: seq<Byte>, table: seq<Entry>, i: nat)
    requires i <= |table| && FoldedEqual(a, b, false)
    ensures NameIndex(a, table, i) == NameIndex(b, table, i)
    decreases |table| - i
  {
    if i < |table| {
      SameIndex(a, b, table, i + 1);
    }
  }

  /** Every name of the table, in any spelling, has its id. */
  lemma IdOfName(name: seq<Byte>, t: nat)
    requires t < |HeaderNames()| && FoldedEqual(name, HeaderNames()[t].name, false)
    ensures HeaderId(name) == HeaderNames()[t].id
  {
    hide FoldAll, HeaderNames;
    HeaderNamesSearchable();
    var i := NameIndex(name, HeaderNames(), 0);
    assert i != -1 && FoldedEqual(HeaderNames()[i].name, HeaderNames()[t].name, false);
    assert i == t;
  }

  /** The headers so far have the ids of their names. */
  ghost predicate Consistent(hs: seq<Header>) {
    forall k :: 0 <= k < |hs| ==> hs[k].nameId == HeaderId(hs[k].name) && NulFree(hs[k].name)
  }

  lemma {:induction false} NameFound(hs: seq<Header>, name: seq<Byte>, i: nat)
    requires i <= |hs| && FindByName(hs, name, i) != -1
    ensures MemptrCmp(hs[FindByName(hs, name, i)].name, name, false) == 0
    decreases |hs| - i
  {
    if i < |hs| && MemptrCmp(hs[i].name, name, false) != 0 {
      NameFound(hs, name, i + 1);
    }
  }

  /** A line is joined only to a header of its own id. */
  lemma JoinedToItsOwn(hs: seq<Header>, name: seq<Byte>)
    requires Consistent(hs) && NulFree(name) && FindHeader(hs, name) != -1
    ensures hs[FindHeader(hs, name)].nameId == HeaderId(name)
  {
    hide FoldAll, MemptrCmp, NameIndex;
    if HeaderId(name) == HDR_UNKNOWN {
      NameFound(hs, name, 0);
      var at := FindByName(hs, name, 0);
      MemptrCmpIsLexicographic(hs[at].name, name, false);
      SameIndex(hs[at].name, name, HeaderNames(), 0);
    }
  }

  // ----- headers by name

  /** The first header with the name, whatever its case, or the length. */
  function NamedAt(hs: seq<Header>, name: seq<Byte>, i: nat): (r: nat)
    requires i <= |hs|
    ensures i <= r <= |hs|
    decreases |hs| - i
  {
    if i == |hs| || FoldAll(hs[i].name, false) == FoldAll(name, false) then i else NamedAt(hs, name, i + 1)
  }

  function ValueByName(hs: seq<Header>, name: seq<Byte>): Option<seq<Byte>> {
    var i := NamedAt(hs, name, 0);
    if i == |hs| then None else Some(hs[i].value)
  }

  /** What a further value does to the one so far: a comma, a space and the value are
      added, unless it is empty; the first one is stored, an empty one as a NUL. */
  function Joined(before: Option<seq<Byte>>, value: seq<Byte>): Option<seq<Byte>> {
    match before
    case None => Some(if value == [] then [0] else value)
    case Some(v) => Some(if value == [] then v else v + [44, 32] + value)
  }

  /** The values of all lines with the name, in order. */
  function Collected(before: Option<seq<Byte>>, fs: seq<HeaderField>, name: seq<Byte>): Option<seq<Byte>>
    decreases |fs|
  {
    if fs == [] then before
    else if FoldAll(fs[0].name, false) == FoldAll(name, false) then
      Collected(Joined(before, FieldValue(fs[0].value)), fs[1..], name)
    else Collected(before, fs[1..], name)
  }

  lemma NumbersDiffer(i: nat, j: nat)
    requires i < j < 34
    ensures HeaderNumber(i) != HeaderNumber(j) && HeaderNumber(i) != HDR_UNKNOWN && HeaderNumber(j) != HDR_UNKNOWN
  {
  }

  /** A known id is that of one name only. */
  lemma SameIdSameName(a: seq<Byte>, b: seq<Byte>)
    requires HeaderId(a) == HeaderId(b) != HDR_UNKNOWN
    ensures FoldedEqual(a, b, false)
  {
    hide FoldAll, HeaderNumber, HeaderName;
    var (i, j) := (NameIndex(a, HeaderNames(), 0), NameIndex(b, HeaderNames(), 0));
    assert i != -1 && j != -1;
    assert HeaderNumber(i) == HeaderNumber(j);
    if i < j { NumbersDiffer(i, j); } else if j < i { NumbersDiffer(j, i); }
  }

  /** The lookup of the parser, by id or by name, finds the first header of the name. */
  lemma FindsByName(hs: seq<Header>, name: seq<Byte>)
    requires Consistent(hs) && NulFree(name)
    ensures var at := FindHeader(hs, name);
            NamedAt(hs, name, 0) == if at == -1 then |hs| else at
  {
    hide FoldAll, NameIndex;
    if HeaderId(name) != HDR_UNKNOWN {
      ByIdIsByName(hs, name, 0);
    } else {
      ByNameIsByName(hs, name, 0);
    }
  }

  lemma {:induction false} ByIdIsByName(hs: seq<Header>, name: seq<Byte>, i: nat)
    requires Consistent(hs) && HeaderId(name) != HDR_UNKNOWN && i <= |hs|
    ensures var at := FindById(hs, HeaderId(name), i);
            NamedAt(hs, name, i) == if at == -1 then |hs| else at
    decreases |hs| - i
  {
    hide FoldAll, HeaderId;
    if i < |hs| {
      if hs[i].nameId == HeaderId(name) {
        SameIdSameName(hs[i].name, name);
      } else if FoldedEqual(hs[i].name, name, false) {
        SameId(hs[i].name, name);
      }
      ByIdIsByName(hs, name, i + 1);
    }
  }

  lemma SameId(a: seq<Byte>, b: seq<Byte>)
    requires FoldedEqual(a, b, false)
    ensures HeaderId(a) == HeaderId(b)
  {
    hide FoldAll, HeaderNames;
    SameIndex(a, b, HeaderNames(), 0);
  }

  lemma {:induction false} ByNameIsByName(hs: seq<Header>, name: seq<Byte>, i: nat)
    requires Consistent(hs) && NulFree(name) && i <= |hs|
    ensures var at := FindByName(hs, name, i);
            NamedAt(hs, name, i) == if at == -1 then |hs| else at
    decreases |hs| - i
  {
    hide FoldAll, MemptrCmp, HeaderId;
    if i < |hs| {
      MemptrCmpIsLexicographic(hs[i].name, name, false);
      ByNameIsByName(hs, name, i + 1);
    }
  }

  lemma {:induction false} NamedInAppended(hs: seq<Header>, h: Header, name: seq<Byte>, i: nat)
    requires i <= |hs|
    ensures NamedAt(hs + [h], name, i) ==
            if NamedAt(hs, name, i) < |hs| then NamedAt(hs, name, i)
            else if FoldedEqual(h.name, name, false) then |hs| else |hs| + 1
    decreases |hs| - i
  {
    hide FoldAll;
    if i < |hs| {
      NamedInAppended(hs, h, name, i + 1);
    }
  }

  lemma {:induction false} NamedInUpdated(hs: seq<Header>, at: nat, h: Header, name: seq<Byte>, i: nat)
    requires at < |hs| && i <= |hs| && h.name == hs[at].name
    ensures NamedAt(hs[at := h], name, i) == NamedAt(hs, name, i)
    decreases |hs| - i
  {
    hide FoldAll;
    if i < |hs| {
      NamedInUpdated(hs, at, h, name, i + 1);
    }
  }

  lemma NamedMatches(hs: seq<Header>, name: seq<Byte>, i: nat)
    requires i <= |hs|
    ensures NamedAt(hs, name, i) < |hs| ==> FoldedEqual(hs[NamedAt(hs, name, i)].name, name, false)
    decreases |hs| - i
  {
    hide FoldAll;
    if i < |hs| {
      NamedMatches(hs, name, i + 1);
    }
  }

  lemma NamedSame(hs: seq<Header>, a: seq<Byte>, b: seq<Byte>, i: nat)
    requires i <= |hs| && FoldedEqual(a, b, false)
    ensures NamedAt(hs, a, i) == NamedAt(hs, b, i)
    decreases |hs| - i
  {
    hide FoldAll;
    if i < |hs| {
      NamedSame(hs, a, b, i + 1);
    }
  }

  /** One line: its value is joined to that of its name, and those of other names stay. */
  lemma AddedByName(hs: seq<Header>, name: seq<Byte>, value: seq<Byte>, other: seq<Byte>)
    requires Consistent(hs) && NulFree(name)
    ensures ValueByName(AddHeader(hs, name, value), other) ==
            if FoldedEqual(name, other, false) then Joined(ValueByName(hs, other), value) else ValueByName(hs, other)
  {
    hide FoldAll, FindHeader, HeaderId, NamedAt, Consistent;
    FindsByName(hs, name);
    var at := FindHeader(hs, name);
    if FoldedEqual(name, other, false) {
      NamedSame(hs, name, other, 0);
    }
    if at == -1 {
      NamedInAppended(hs, Header(HeaderId(name), name, Stored(value)), other, 0);
    } else {
      NamedMatches(hs, name, 0);
      NamedMatches(hs, other, 0);
      if value != [] {
        NamedInUpdated(hs, at, hs[at].(value := hs[at].value + [44, 32] + value), other, 0);
      }
    }
  }

  // ----- one line more

  lemma {:induction false} FindInAppended(hs: seq<Header>, h: Header, id: int, i: nat)
    requires i <= |hs|
    ensures var at := FindById(hs, id, i);
            FindById(hs + [h], id, i) == if at != -1 then at else if h.nameId == id then |hs| else -1
    decreases |hs| - i
  {
    if i < |hs| && hs[i].nameId != id {
      FindInAppended(hs, h, id, i + 1);
    }
  }

  function Stored(value: seq<Byte>): seq<Byte> {
    if value == [] then [0] else value
  }

  /** A line under another name changes nothing under the id; the first one under its
      name gives it its value. */
  lemma AddedLine(hs: seq<Header>, name: seq<Byte>, value: seq<Byte>, id: int)
    requires Consistent(hs) && NulFree(name) && id != HDR_UNKNOWN
    ensures Consistent(AddHeader(hs, name, value))
    ensures HeaderId(name) != id ==> ValueOf(AddHeader(hs, name, value), id) == ValueOf(hs, id)
    ensures HeaderId(name) == id && ValueOf(hs, id).None? ==>
              ValueOf(AddHeader(hs, name, value), id) == Some(Stored(value))
  {
    hide HeaderId, FindByName;
    var at := FindHeader(hs, name);
    if at == -1 {
      FindInAppended(hs, Header(HeaderId(name), name, Stored(value)), id, 0);
    } else {
      JoinedToItsOwn(hs, name);
      if value != [] && HeaderId(name) != id {
        FindInUpdated(hs, at, hs[at].(value := hs[at].value + [44, 32] + value), id, 0);
      }
    }
  }

  // ----- all lines

  ghost predicate Absent(fs: seq<HeaderField>, id: int) {
    forall k :: 0 <= k < |fs| ==> HeaderId(fs[k].name) != id
  }

  lemma FieldNameNulFree(f: HeaderField)
    requires IsField(f)
    ensures NulFree(f.name)
  {
  }

  lemma {:induction false} FieldsKeep(m: Message, fs: seq<HeaderField>, id: int)
    requires Consistent(m.headers) && AreFields(fs) && Absent(fs, id) && id != HDR_UNKNOWN
    ensures ValueOf(WithFields(m, fs).headers, id) == ValueOf(m.headers, id)
    decreases |fs|
  {
    hide Consistent, ValueOf, AddHeader, HeaderId, FieldValue, IsField;
    if fs != [] {
      assert IsField(fs[0]) && AreFields(fs[1..]) && Absent(fs[1..], id);
      FieldNameNulFree(fs[0]);
      AddedLine(m.headers, fs[0].name, FieldValue(fs[0].value), id);
      FieldsKeep(WithHeader(m, fs[0].name, FieldValue(fs[0].value)), fs[1..], id);
    }
  }

  /** After any header lines the parser has under each name the values of all lines with
      that name, in order, joined by commas. */
  lemma {:induction false} FieldsCollect(m: Message, fs: seq<HeaderField>, name: seq<Byte>)
    requires Consistent(m.headers) && AreFields(fs)
    ensures ValueByName(WithFields(m, fs).headers, name) == Collected(ValueByName(m.headers, name), fs, name)
    decreases |fs|
  {
    hide Consistent, ValueByName, AddHeader, FieldValue, IsField, Joined, FoldAll;
    if fs != [] {
      assert IsField(fs[0]) && AreFields(fs[1..]);
      FieldNameNulFree(fs[0]);
      AddedConsistent(m.headers, fs[0].name, FieldValue(fs[0].value));
      AddedByName(m.headers, fs[0].name, FieldValue(fs[0].value), name);
      FieldsCollect(WithHeader(m, fs[0].name, FieldValue(fs[0].value)), fs[1..], name);
    }
  }

  lemma AddedConsistent(hs: seq<Header>, name: seq<Byte>, value: seq<Byte>)
    requires Consistent(hs) && NulFree(name)
    ensures Consistent(AddHeader(hs, name, value))
  {
    hide FindHeader, HeaderId;
  }

  lemma {:induction false} FieldsFind(m: Message, fs: seq<HeaderField>, i: nat, id: int)
    requires Consistent(m.headers) && AreFields(fs) && id != HDR_UNKNOWN && ValueOf(m.headers, id).None?
    requires OnlyAt(fs, i, id)
    ensures ValueOf(WithFields(m, fs).headers, id) == Some(Stored(FieldValue(fs[i].value)))
    decreases |fs|
  {
    hide Consistent, ValueOf, AddHeader, HeaderId, FieldValue, IsField;
    var n := WithHeader(m, fs[0].name, FieldValue(fs[0].value));
    assert IsField(fs[0]) && AreFields(fs[1..]);
    FieldNameNulFree(fs[0]);
    AddedLine(m.headers, fs[0].name, FieldValue(fs[0].value), id);
    if i == 0 {
      FieldsKeep(n, fs[1..], id);
    } else {
      assert OnlyAt(fs[1..], i - 1, id);
      FieldsFind(n, fs[1..], i - 1, id);
    }
  }

  /** The i-th line, and no other, is under the id. */
  ghost predicate OnlyAt(fs: seq<HeaderField>, i: nat, id: int) {
    i < |fs| && HeaderId(fs[i].name) == id && forall k :: 0 <= k < |fs| && k != i ==> HeaderId(fs[k].name) != id
  }

  // ----- the lines that delimit the body

  /** One Transfer-Encoding line whose value mentions chunked. */
  lemma ChunkedLine(m: Method, h: Preamble, i: nat)
    requires ParseStatusLine(h.status).Some? && AreFields(h.fields) && OnlyAt(h.fields, i, HDR_TRANSFER_ENCODING)
    ensures IsChunkedTransfer(HeadMessage(m, h).headers) <==> SaysChunked(Stored(FieldValue(h.fields[i].value)))
  {
    hide ParseStatusLine, SaysChunked, AreFields, OnlyAt, WithFields;
    FieldsFind(WithStatus(Fresh(m).message, ParseStatusLine(h.status).value), h.fields, i, HDR_TRANSFER_ENCODING);
  }

  /** The letters of chunked, in any case, stand at k. */
  predicate ChunkedAt(t: seq<Byte>, k: nat) {
    && k + 7 <= |t|
    && ToLower(t[k]) == 99 && ToLower(t[k + 1]) == 104 && ToLower(t[k + 2]) == 117 && ToLower(t[k + 3]) == 110
    && ToLower(t[k + 4]) == 107 && ToLower(t[k + 5]) == 101 && ToLower(t[k + 6]) == 100
  }

  /** A value mentions chunked if the word stands somewhere in front of its first NUL,
      whatever the case. */
  lemma SaysChunkedMeans(value: seq<Byte>)
    ensures SaysChunked(value) <==> exists k: nat :: ChunkedAt(CString(value), k)
  {
    hide FoldAll, CString, ChunkedAt;
    var t := CString(value);
    LoweredText(value);
    var f := FoldAll(t, false);
    var at := FindStr(f, CHUNKED, 0);
    if at != -1 {
      FoldedWord(t, at);
    }
    forall k: nat | ChunkedAt(t, k) ensures at != -1 {
      FoldedWord(t, k);
    }
  }

  lemma FoldedWord(t: seq<Byte>, k: nat)
    ensures ChunkedAt(t, k) <==> k <= |t| && CHUNKED <= FoldAll(t, false)[k..]
  {
    if k + 7 <= |t| {
      var w := FoldAll(t, false)[k..];
      assert forall i :: 0 <= i < 7 ==> w[i] == ToLower(t[k + i]);
      assert w[..7] == [w[0], w[1], w[2], w[3], w[4], w[5], w[6]];
    }
  }

  /** The C string of the lowered value is the lowered C string. */
  lemma LoweredText(value: seq<Byte>)
    ensures CString(LowerCString(value)) == FoldAll(CString(value), false)
  {
    var t := CString(value);
    var f := FoldAll(t, false);
    assert NulFree(f);
    var low := LowerCString(value);
    CStringIs(low, f);
  }

  lemma {:induction false} CStringIs(s: seq<Byte>, t: seq<Byte>)
    requires t <= s && NulFree(t) && (|t| < |s| ==> s[|t|] == 0)
    ensures CString(s) == t
    decreases |t|
  {
    if t != [] {
      CStringIs(s[1..], t[1..]);
    }
  }

  /** No Transfer-Encoding line. */
  lemma NotChunked(m: Method, h: Preamble)
    requires ParseStatusLine(h.status).Some? && AreFields(h.fields) && Absent(h.fields, HDR_TRANSFER_ENCODING)
    ensures !IsChunkedTransfer(HeadMessage(m, h).headers)
  {
    hide ParseStatusLine, SaysChunked, AreFields, Absent, WithFields;
    FieldsKeep(WithStatus(Fresh(m).message, ParseStatusLine(h.status).value), h.fields, HDR_TRANSFER_ENCODING);
  }

  lemma DecimalValue(digits: seq<Byte>, n: nat)
    requires Denotes(digits, n) && n < 0x8000_0000
    ensures RawToInt(digits) == n
  {
    hide Numeral;
    assert IsDigit(digits[0]);
    assert SkipSpaces(digits, 0) == 0 && AfterSign(digits, 0) == 0;
    DigitsStop(digits, 0, |digits|);
    assert digits[0..|digits|] == digits;
  }

  /** Anything behind the digits spoils the number. */
  lemma JunkIsRejected(value: seq<Byte>, k: nat)
    requires 0 < k < |value| && !IsDigit(value[k]) && forall i :: 0 <= i < k ==> IsDigit(value[i])
    ensures RawToInt(value) == -1
  {
    hide Numeral;
    assert IsDigit(value[0]);
    assert SkipSpaces(value, 0) == 0 && AfterSign(value, 0) == 0;
    DigitsStop(value, 0, k);
  }

  /** One Content-Length line, and no Transfer-Encoding. */
  lemma LengthLine(m: Method, h: Preamble, i: nat, n: nat)
    requires ParseStatusLine(h.status).Some? && AreFields(h.fields)
    requires OnlyAt(h.fields, i, HDR_CONTENT_LENGTH) && Denotes(FieldValue(h.fields[i].value), n) && n < 0x8000_0000
    ensures ValueOf(HeadMessage(m, h).headers, HDR_CONTENT_LENGTH) == Some(FieldValue(h.fields[i].value))
    ensures RawToInt(FieldValue(h.fields[i].value)) == n
  {
    hide ParseStatusLine, AreFields, WithFields, RawToInt, FieldValue;
    FieldsFind(WithStatus(Fresh(m).message, ParseStatusLine(h.status).value), h.fields, i, HDR_CONTENT_LENGTH);
    DecimalValue(FieldValue(h.fields[i].value), n);
  }

  /** The lines do not change what the status line and the request say. */
  lemma {:induction false} FieldsKeepStatus(m: Message, fs: seq<HeaderField>)
    ensures WithFields(m, fs) == m.(headers := WithFields(m, fs).headers)
    decreases |fs|
  {
    if fs != [] {
      FieldsKeepStatus(WithHeader(m, fs[0].name, FieldValue(fs[0].value)), fs[1..]);
    }
  }

  /** Whether a response to the request, with the code, can have a body. */
  predicate MayHaveBody(m: Method, code: int) {
    m !in {Head, MSearch, Subscribe, Unsubscribe, Notify} && code != 204 && code != 304 && !(100 <= code <= 199)
  }

  lemma BodyByStatus(m: Method, h: Preamble)
    requires ParseStatusLine(h.status).Some?
    ensures NoBody(HeadMessage(m, h)) <==> !MayHaveBody(m, ParseStatusLine(h.status).value.code)
  {
    hide ParseStatusLine, WithFields;
    FieldsKeepStatus(WithStatus(Fresh(m).message, ParseStatusLine(h.status).value), h.fields);
  }

  // ----- end to end

  /** A whole chunked response: any status line with a code that allows a body, any
      header lines, just one of them a Transfer-Encoding that mentions chunked, any
      chunks and any trailers. In any pieces it is parsed into exactly its data. */
  lemma ChunkedResponse(
      m: Method, h: Preamble, i: nat, cs: seq<Chunk>, last: Chunk, ts: seq<HeaderField>,
      pieces: seq<seq<Byte>>)
    requires IsPreamble(h) && MayHaveBody(m, ParseStatusLine(h.status).value.code)
    requires OnlyAt(h.fields, i, HDR_TRANSFER_ENCODING) && SaysChunked(Stored(FieldValue(h.fields[i].value)))
    requires AreChunks(cs) && IsLast(last) && AreFields(ts)
    requires pieces != [] && Concat(pieces) == HeadText(h) + Chunked(cs, last, FieldLines(ts) + EOL)
    ensures var seen := Observe(Feed(Fresh(m), pieces));
            seen.status == Success && seen.body == Data(cs)
  {
    hide HeadText, Chunked, Feed, Observe, AreFields, HeadMessage, FieldLines, ParseStatusLine, NoBody, MayHaveBody,
         IsChunkedTransfer, SaysChunked, OnlyAt, AreChunks, IsLast;
    BodyByStatus(m, h);
    ChunkedLine(m, h, i);
    ChunksInPieces(m, h, cs, last, ts, pieces);
  }

  /** A whole response of known length: the same with just one Content-Length, in
      digits, and no Transfer-Encoding; what follows the data does not matter. */
  lemma LengthResponse(
      m: Method, h: Preamble, i: nat, data: seq<Byte>, surplus: seq<Byte>,
      pieces: seq<seq<Byte>>)
    requires IsPreamble(h) && MayHaveBody(m, ParseStatusLine(h.status).value.code)
    requires OnlyAt(h.fields, i, HDR_CONTENT_LENGTH) && Absent(h.fields, HDR_TRANSFER_ENCODING)
    requires |data| < 0x8000_0000 && Denotes(FieldValue(h.fields[i].value), |data|)
    requires pieces != [] && Concat(pieces) == HeadText(h) + (data + surplus)
    ensures var seen := Observe(Feed(Fresh(m), pieces));
            seen.status == Success && seen.body == data
  {
    hide HeadText, Feed, Observe, AreFields, HeadMessage, ParseStatusLine, NoBody, MayHaveBody, IsChunkedTransfer,
         OnlyAt, Absent, Denotes, RawToInt, ValueOf;
    BodyByStatus(m, h);
    NotChunked(m, h);
    LengthLine(m, h, i, |data|);
    LengthInPieces(m, h, data, surplus, pieces);
  }

  /** A whole response without a length: no Transfer-Encoding and no Content-Length. In
      any pieces, all that has come is the entity, and the parser waits for the close
      of the connection. */
  lemma CloseResponse(m: Method, h: Preamble, data: seq<Byte>, pieces: seq<seq<Byte>>)
    requires IsPreamble(h) && MayHaveBody(m, ParseStatusLine(h.status).value.code)
    requires Absent(h.fields, HDR_CONTENT_LENGTH) && Absent(h.fields, HDR_TRANSFER_ENCODING)
    requires pieces != [] && Concat(pieces) == HeadText(h) + data
    ensures var seen := Observe(Feed(Fresh(m), pieces));
            seen.status == IncompleteEntity && seen.body == data
  {
    hide HeadText, Feed, Observe, AreFields, HeadMessage, ParseStatusLine, NoBody, MayHaveBody, IsChunkedTransfer,
         Absent, ValueOf, IsBlankText;
    BodyByStatus(m, h);
    NotChunked(m, h);
    NoLengthLine(m, h);
    CloseInPieces(m, h, data, pieces);
  }

  lemma NoLengthLine(m: Method, h: Preamble)
    requires ParseStatusLine(h.status).Some? && AreFields(h.fields) && Absent(h.fields, HDR_CONTENT_LENGTH)
    ensures ValueOf(HeadMessage(m, h).headers, HDR_CONTENT_LENGTH).None?
  {
    hide ParseStatusLine, AreFields, Absent, WithFields;
    FieldsKeep(WithStatus(Fresh(m).message, ParseStatusLine(h.status).value), h.fields, HDR_CONTENT_LENGTH);
  }
}
