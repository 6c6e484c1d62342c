/** One response of each kind that meets the conditions of the theorems about whole
    responses. */
module HttpSample {
  import opened Bytes
  import opened HttpScanner
  import opened StrIntMap
  import opened HttpTables
  import opened HttpMessage
  import opened HttpFragments
  import opened HttpChunks
  import opened HttpFields
  import opened HttpResponse
  import opened HttpStatus
  import opened HttpHeaders
  import opened Wrappers

  const HTTP: seq<Byte> := [72, 84, 84, 80]
  const VERSION: seq<Byte> := [49, 46, 49, 32, 50, 48, 48, 32, 79, 75] // 1.1 200 OK
  const TRANSFER_ENCODING_AT := 31
  const CONTENT_LENGTH_AT := 9

  /** TRANSFER-ENCODING: chunked */
  function ChunkedField(): HeaderField {
    HeaderField(HeaderNames()[TRANSFER_ENCODING_AT].name, CHUNKED)
  }

  /** CONTENT-LENGTH: 200 */
  function LengthField(): HeaderField {
    HeaderField(HeaderNames()[CONTENT_LENGTH_AT].name, [50, 48, 48])
  }

  /** The heads: an empty line, HTTP/1.1 200 OK, and one of the fields. */
  function ChunkedHead(): Preamble {
    Preamble(EOL, HTTP, VERSION, [ChunkedField()])
  }

  function LengthHead(): Preamble {
    Preamble([], HTTP, VERSION, [LengthField()])
  }

  // ----- the status line

  lemma TwoHundred()
    ensures Numeral([50, 48, 48], 10) == 200
  {
    assert [50, 48, 48][..2] == [50, 48] && [50, 48][..1] == [50] && [50][..0] == [];
    assert Numeral([50], 10) == 2;
    assert Numeral([50, 48], 10) == 20;
  }

  lemma VersionIsStatus()
    ensures ParseStatusLine(VERSION) == Some(StatusLine(1, 1, 200, [79, 75])) && IsStatus(VERSION)
  {
    hide ParseStatusLine;
    TwoHundred();
    assert [49][..0] == [];
    assert Denotes([49], 1) && Denotes([50, 48, 48], 200);
    StatusIs([49], [49], [32], [50, 48, 48], [32], [79, 75], 1, 1, 200);
    assert StatusOf([49], [49], [32], [50, 48, 48], [32], [79, 75]) == VERSION;
  }

  lemma ArePreambles()
    ensures IsPreamble(ChunkedHead()) && IsPreamble(LengthHead())
  {
    hide IsStatus, IsField, ChunkedField, LengthField, IsBlankText, IsHttp, IsPreamble, ParseStatusLine;
    VersionIsStatus();
    AreSampleFields();
    EmptyLineIsBlank();
    OneField(EOL, HTTP, VERSION, ChunkedField());
    OneField([], HTTP, VERSION, LengthField());
  }

  lemma OneField(blank: seq<Byte>, name: seq<Byte>, status: seq<Byte>, f: HeaderField)
    requires IsBlankText(blank) && IsHttp(name) && IsStatus(status) && IsField(f)
    ensures IsPreamble(Preamble(blank, name, status, [f]))
  {
    hide IsStatus, IsField, IsBlankText, IsHttp;
  }

  lemma EmptyLineIsBlank()
    ensures IsBlankText([]) && IsBlankText(EOL) && IsHttp(HTTP)
  {
    assert EOL[2..] == [];
  }

  // ----- the headers

  lemma NamesAreTokens()
    ensures var name := HeaderName(TRANSFER_ENCODING_AT); |name| == 17 && Octets(name) == ChunkedField().name
    ensures var name := HeaderName(CONTENT_LENGTH_AT); |name| == 14 && Octets(name) == LengthField().name
    ensures HeaderNumber(TRANSFER_ENCODING_AT) == HDR_TRANSFER_ENCODING
    ensures HeaderNumber(CONTENT_LENGTH_AT) == HDR_CONTENT_LENGTH
  {
  }

  /** Capital letters and hyphens make a token. */
  lemma LettersAreTokens(name: string)
    requires Plain(name) && forall k :: 0 <= k < |name| ==> 'A' <= name[k] <= 'Z' || name[k] == '-'
    ensures forall k :: 0 <= k < |name| ==> IsIdentifier(Octets(name)[k])
  {
  }

  lemma AreSampleFields()
    ensures IsField(ChunkedField()) && IsField(LengthField())
  {
    hide IsExtText, HeaderNames, IsIdentifier;
    NamesAreTokens();
    LettersAreTokens("TRANSFER-ENCODING");
    LettersAreTokens("CONTENT-LENGTH");
    PlainIsExtText(CHUNKED);
    PlainIsExtText(LengthField().value);
  }

  lemma SampleIds()
    ensures HeaderId(ChunkedField().name) == HDR_TRANSFER_ENCODING
    ensures HeaderId(LengthField().name) == HDR_CONTENT_LENGTH
  {
    hide HeaderId, HeaderName, FoldAll;
    IdOfName(ChunkedField().name, TRANSFER_ENCODING_AT);
    IdOfName(LengthField().name, CONTENT_LENGTH_AT);
  }

  lemma PlainValue()
    ensures FieldValue(CHUNKED) == CHUNKED
  {
    assert CHUNKED[0..] == CHUNKED && !IsBlank(CHUNKED[0]) && CHUNKED[6] == 100;
  }

  lemma LowerAlready()
    ensures LowerCString(CHUNKED) == CHUNKED && CString(CHUNKED) == CHUNKED
  {
    assert CString(CHUNKED) == CHUNKED;
    assert CHUNKED[7..] == [] && FoldAll(CHUNKED, false) == CHUNKED;
  }

  lemma SaysSo()
    ensures SaysChunked(Stored(FieldValue(ChunkedField().value)))
  {
    hide HeaderNames, FieldValue, LowerCString, CString;
    PlainValue();
    LowerAlready();
    assert CHUNKED[0..] == CHUNKED;
  }

  lemma DigitsSaySo()
    ensures Denotes(FieldValue(LengthField().value), 200)
  {
    hide HeaderNames;
    var d: seq<Byte> := [50, 48, 48];
    assert d[0..] == d && !IsBlank(d[0]) && d[2] == 48;
    assert FieldValue(d) == d;
    TwoHundred();
  }

  // ----- the responses

  /** HTTP/1.1 200 OK with chunks. */
  lemma ChunkedSample(
      m: Method, cs: seq<Chunk>, last: Chunk, ts: seq<HeaderField>, pieces: seq<seq<Byte>>)
    requires MayHaveBody(m, 200)
    requires AreChunks(cs) && IsLast(last) && AreFields(ts)
    requires pieces != [] &&
             Concat(pieces) == HeadText(ChunkedHead()) + Chunked(cs, last, FieldLines(ts) + EOL)
    ensures var seen := Observe(Feed(Fresh(m), pieces));
            seen.status == Success && seen.body == Data(cs)
  {
    hide IsStatus, HeadText, Chunked, Feed, Observe, ParseStatusLine, ChunkedField, HeaderId, SaysChunked, IsField,
         FieldValue, Stored, FieldLines, AreChunks, IsLast;
    VersionIsStatus();
    ArePreambles();
    SampleIds();
    SaysSo();
    ChunkedResponse(m, ChunkedHead(), 0, cs, last, ts, pieces);
  }

  /** HTTP/1.1 200 OK with 200 octets. */
  lemma LengthSample(m: Method, data: seq<Byte>, surplus: seq<Byte>, pieces: seq<seq<Byte>>)
    requires MayHaveBody(m, 200) && |data| == 200
    requires pieces != [] && Concat(pieces) == HeadText(LengthHead()) + (data + surplus)
    ensures var seen := Observe(Feed(Fresh(m), pieces));
            seen.status == Success && seen.body == data
  {
    hide IsStatus, HeadText, Feed, Observe, ParseStatusLine, LengthField, HeaderId, IsField, FieldValue, Denotes;
    VersionIsStatus();
    ArePreambles();
    SampleIds();
    DigitsSaySo();
    LengthResponse(m, LengthHead(), 0, data, surplus, pieces);
  }
}
