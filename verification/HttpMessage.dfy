/** The response parser of httpparser.c as a function: one step of the state
    machine, and a run of steps until it needs input or is done. */
module HttpMessage {
  import opened Bytes
  import opened HttpScanner
  import opened StrIntMap
  import opened HttpTables
  import opened Wrappers

  datatype Method =
    Post | MPost | Subscribe | Unsubscribe | Notify | Get | Head | MSearch | Unknown | SoapPost | SimpleGet

  datatype Position = PosResponseLine | PosHeaders | PosEntity | PosComplete

  datatype EntityMode = DetermineReadMethod | UsingClen | UsingChunked | UntilClose | ChunkyBody | ChunkyHeaders

  datatype Header = Header(nameId: int, name: seq<Byte>, value: seq<Byte>)

  datatype Message = Message(
    requestMethod: Method, major: int, minor: int, statusCode: int, statusMsg: seq<Byte>, headers: seq<Header>)

  /** The parser. The message buffer is head + rest with the cursor between them;
      `mark` is the cursor at which the current call began to read trailers. */
  datatype State = State(
    position: Position, mode: EntityMode, message: Message,
    contentLength: nat, chunkSize: nat, entityStart: nat, entityLength: nat,
    head: seq<Byte>, rest: seq<Byte>, mark: nat)

  datatype Outcome = Outcome(s: State, status: Status)

  const STATUS_LINE := [IgnoreCase, Lit(104), Lit(116), Lit(116), Lit(112), OptWs, Lit(47), OptWs, Line, LineEnd]
  const HEADER_LINE := [Lws, Lit(58), Lws, RawValue, LineEnd]
  const CHUNK_LINE := [Number(16), Line, LineEnd]
  const LINE_END := [LineEnd]

  /** parser_response_init */
  function Fresh(requestMethod: Method): State {
    State(PosResponseLine, DetermineReadMethod, Message(requestMethod, 0, 0, 0, [], []), 0, 0, 0, 0, [], [], 0)
  }

  predicate GoesOn(status: Status) {
    status == Ok || status == Continue
  }

  predicate Waiting(status: Status) {
    status == Incomplete || status == IncompleteEntity
  }

  function CapturedText(caps: seq<Capture>, i: nat): seq<Byte> {
    if i < |caps| && caps[i].Text? then caps[i].text else []
  }

  /** Moves the cursor over n unread octets. */
  function Advance(s: State, n: nat): State
    requires n <= |s.rest|
  {
    s.(head := s.head + s.rest[..n], rest := s.rest[n..])
  }

  // ----- the status line

  /** One %d conversion of sscanf: where its digits are and what it stores. */
  datatype Field = Field(start: nat, end: nat, value: int)

  function ScanField(s: seq<Byte>, i: nat): (f: Option<Field>)
    requires i <= |s|
    ensures f.Some? ==> i <= f.value.start < f.value.end <= |s|
    ensures f.Some? ==> forall k :: i <= k < f.value.start ==> !IsDigit(s[k])
    ensures f.Some? ==> forall k :: f.value.start <= k < f.value.end ==> IsDigit(s[k])
    ensures f.Some? && f.value.end < |s| ==> !IsDigit(s[f.value.end])
  {
    var a := SkipSpaces(s, i);
    var b := AfterSign(s, a);
    var d := DigitsEnd(s, b, 10);
    if d == b then None
    else
      var m: int := Numeral(s[b..d], 10);
      Some(Field(b, d, WrapInt32(ClampLong(if SignOf(s, a) == Minus then -m else m))))
  }

  /** sscanf(line, "%d . %d %d"), when all three conversions succeed. */
  function ScanVersionAndCode(line: seq<Byte>): (fs: Option<(Field, Field, Field)>)
    ensures fs.Some? ==> fs.value.2.end <= |line|
  {
    var s := CString(line);
    match ScanField(s, 0)
    case None => None
    case Some(major) =>
      var dot := SkipSpaces(s, major.end);
      if dot == |s| || s[dot] != 46 then None
      else
        match ScanField(s, dot + 1)
        case None => None
        case Some(minor) =>
          match ScanField(s, minor.end)
          case None => None
          case Some(code) => Some((major, minor, code))
  }

  function SkipBlanksFrom(s: seq<Byte>, i: nat): (j: nat)
    requires i <= |s|
    ensures i <= j <= |s|
    ensures forall k :: i <= k < j ==> IsBlank(s[k])
    ensures j < |s| ==> !IsBlank(s[j])
  {
    BlankEnd(s, i)
  }

  datatype StatusLine = StatusLine(major: int, minor: int, code: int, message: seq<Byte>)

  /** What parser_parse_responseline reads out of the text after "HTTP/". */
  function ParseStatusLine(line: seq<Byte>): Option<StatusLine> {
    match ScanVersionAndCode(line)
    case None => None
    case Some((major, minor, code)) =>
      if major.value < 0 || minor.value < 0 || code.value < 0 then None
      else if code.end == |line| || !IsBlank(line[code.end]) then None
      else Some(StatusLine(major.value, minor.value, code.value, line[SkipBlanksFrom(line, code.end)..]))
  }

  // ----- headers

  /** The first entry with the name, whatever its case, or -1. */
  function NameIndex(name: seq<Byte>, table: seq<Entry>, i: nat): (r: int)
    requires i <= |table|
    ensures r == -1 || i <= r < |table|
    ensures var end := if r == -1 then |table| else r;
            forall k :: i <= k < end ==> FoldAll(table[k].name, false) != FoldAll(name, false)
    ensures r != -1 ==> FoldAll(table[r].name, false) == FoldAll(name, false)
    decreases |table| - i
  {
    if i == |table| then -1
    else if FoldAll(table[i].name, false) == FoldAll(name, false) then i
    else NameIndex(name, table, i + 1)
  }

  function HeaderId(name: seq<Byte>): int {
    var i := NameIndex(name, HeaderNames(), 0);
    if i == -1 then HDR_UNKNOWN else HeaderNames()[i].id
  }

  /** httpmsg_find_hdr */
  function FindById(hs: seq<Header>, id: int, i: nat): (r: int)
    requires i <= |hs|
    ensures r == -1 || (i <= r < |hs| && hs[r].nameId == id)
    decreases |hs| - i
  {
    if i == |hs| then -1
    else if hs[i].nameId == id then i
    else FindById(hs, id, i + 1)
  }

  /** httpmsg_find_hdr_str */
  function FindByName(hs: seq<Header>, name: seq<Byte>, i: nat): (r: int)
    requires i <= |hs|
    ensures r == -1 || i <= r < |hs|
    decreases |hs| - i
  {
    if i == |hs| then -1
    else if MemptrCmp(hs[i].name, name, false) == 0 then i
    else FindByName(hs, name, i + 1)
  }

  function FindHeader(hs: seq<Header>, name: seq<Byte>): (r: int)
    ensures r == -1 || 0 <= r < |hs|
  {
    var id := HeaderId(name);
    if id != HDR_UNKNOWN then FindById(hs, id, 0) else FindByName(hs, name, 0)
  }

  /** What one header line does to the header list: a new header at the end (an
      empty value is stored as one NUL), or ", " and the value behind an old one. */
  function AddHeader(hs: seq<Header>, name: seq<Byte>, value: seq<Byte>): seq<Header> {
    var at := FindHeader(hs, name);
    if at == -1 then hs + [Header(HeaderId(name), name, if value == [] then [0] else value)]
    else if value == [] then hs
    else hs[at := hs[at].(value := hs[at].value + [44, 32] + value)]
  }

  // ----- how the body is delimited

  function LowerCString(s: seq<Byte>): seq<Byte> {
    var t := CString(s);
    FoldAll(t, false) + s[|t|..]
  }

  /** strstr: the first place the pattern occurs, or -1. */
  function FindStr(s: seq<Byte>, pattern: seq<Byte>, i: nat): (r: int)
    requires i <= |s|
    ensures r == -1 || i <= r <= |s|
    ensures r != -1 ==> pattern <= s[r..]
    ensures r == -1 ==> forall k :: i <= k <= |s| ==> !(pattern <= s[k..])
    decreases |s| - i
  {
    if pattern <= s[i..] then i
    else if i == |s| then -1
    else FindStr(s, pattern, i + 1)
  }

  const CHUNKED: seq<Byte> := [99, 104, 117, 110, 107, 101, 100]

  predicate SaysChunked(value: seq<Byte>) {
    FindStr(CString(LowerCString(value)), CHUNKED, 0) != -1
  }

  function RawToInt(value: seq<Byte>): int {
    var n := StrToL(value, 10);
    if value == [] || n.value < 0 || n.end != |value| || n.erange then -1 else WrapInt32(n.value)
  }

  predicate NoBody(m: Message) {
    || m.statusCode == 204 || m.statusCode == 304 || 100 <= m.statusCode <= 199
    || m.requestMethod in {Head, MSearch, Subscribe, Unsubscribe, Notify}
  }

  /** Looking for "chunked" lower-cases the value of the Transfer-Encoding header. */
  function LowerTransferEncoding(hs: seq<Header>): seq<Header> {
    var te := FindById(hs, HDR_TRANSFER_ENCODING, 0);
    if te == -1 then hs else hs[te := hs[te].(value := LowerCString(hs[te].value))]
  }

  predicate IsChunkedTransfer(hs: seq<Header>) {
    var te := FindById(hs, HDR_TRANSFER_ENCODING, 0);
    te != -1 && SaysChunked(hs[te].value)
  }

  /** parser_get_entity_read_method */
  function ChooseMode(s: State): Outcome {
    var t := s.(entityStart := |s.head|, entityLength := 0);
    if NoBody(s.message) then Outcome(t.(position := PosComplete), Success)
    else
      var hs := LowerTransferEncoding(s.message.headers);
      var u := t.(message := s.message.(headers := hs));
      if IsChunkedTransfer(s.message.headers) then Outcome(u.(mode := UsingChunked), Continue)
      else
        var cl := FindById(hs, HDR_CONTENT_LENGTH, 0);
        if cl == -1 then Outcome(u.(mode := UntilClose), Continue)
        else Outcome(u.(contentLength := RawToInt(hs[cl].value) % WORD, mode := UsingClen), Continue)
  }

  // ----- the steps

  function WithStatus(m: Message, line: StatusLine): Message {
    m.(major := line.major, minor := line.minor, statusCode := line.code, statusMsg := line.message)
  }

  function WithHeader(m: Message, name: seq<Byte>, value: seq<Byte>): Message {
    m.(headers := AddHeader(m.headers, name, value))
  }

  /** The status line, once the blank lines before it are skipped. */
  function StatusLineAt(t: State): Outcome {
    var m := MatchFormat(STATUS_LINE, t.rest);
    if m.status != Ok then Outcome(t, m.status)
    else
      match ParseStatusLine(CapturedText(m.caps, 0))
      case None => Outcome(Advance(t, m.n), Failure)
      case Some(line) =>
        Outcome(Advance(t, m.n).(position := PosHeaders, message := WithStatus(t.message, line)), Ok)
  }

  /** parser_parse_responseline */
  function StepResponseLine(s: State): Outcome {
    var skipped := SkipBlankLines(s.rest, 0);
    var t := Advance(s, skipped.n);
    if skipped.status != Ok then Outcome(t, skipped.status) else StatusLineAt(t)
  }

  /** The end of the headers, or of the trailers: those are cut out of the buffer
      from the mark on. */
  function EndOfHeaders(s: State, n: nat): Outcome
    requires n <= |s.rest|
  {
    if s.position == PosEntity then
      Outcome(s.(position := PosComplete, rest := s.rest[n..],
                 head := if s.mark <= |s.head| then s.head[..s.mark] else s.head), Success)
    else Outcome(Advance(s, n).(position := PosEntity), Ok)
  }

  /** One turn of the loop in parser_parse_headers. */
  function StepHeader(s: State): Outcome {
    match NextToken(s.rest)
    case Token(n, Crlf) => EndOfHeaders(s, n)
    case Token(n, Identifier) =>
      var m := MatchFormat(HEADER_LINE, s.rest[n..]);
      if m.status != Ok then Outcome(s, m.status)
      else Outcome(Advance(s, n + m.n).(message := WithHeader(s.message, s.rest[..n], CapturedText(m.caps, 0))),
                   Continue)
    case Token(n, _) => Outcome(Advance(s, n), Failure)
    case t => Outcome(s, ScanError(t))
  }

  /** parser_parse_entity_using_clen: surplus octets stay, the first one zeroed. */
  function StepClen(s: State): Outcome {
    var total := |s.head| + |s.rest| - s.entityStart;
    var length := if total < 0 then 0 else total;
    if length < s.contentLength then Outcome(s.(entityLength := length), Incomplete)
    else
      var t := s.(entityLength := s.contentLength, position := PosComplete);
      if length > s.contentLength && s.entityStart == |s.head|
      then Outcome(t.(rest := s.rest[s.contentLength := 0]), Success)
      else Outcome(t, Success)
  }

  function UntilCloseState(s: State): State {
    var total := |s.head| + |s.rest| - s.entityStart;
    s.(head := s.head + s.rest, rest := [], entityLength := if total < 0 then 0 else total)
  }

  /** Reads the size line of a chunk and deletes it. */
  function ReadSizeLine(s: State): Outcome {
    var m := MatchFormat(CHUNK_LINE, s.rest);
    var t := if |m.caps| > 0 && m.caps[0].Num? then s.(chunkSize := m.caps[0].num % WORD) else s;
    if m.status != Ok then Outcome(t, m.status) else Outcome(t.(rest := s.rest[m.n..]), Ok)
  }

  /** What follows the size: a zero size ends the entity and starts the trailers. */
  function EnterChunk(s: State): State {
    if s.chunkSize == 0 then
      var length := |s.head| - s.entityStart;
      s.(entityLength := if length < 0 then 0 else length, mode := ChunkyHeaders, mark := |s.head|)
    else s.(mode := ChunkyBody)
  }

  /** parser_parse_chunky_entity */
  function StepChunkLine(s: State): Outcome {
    var o := ReadSizeLine(s);
    if o.status != Ok then o else Outcome(EnterChunk(o.s), Continue)
  }

  /** parser_parse_chunky_body: keeps the data, deletes the line end after it. */
  function StepChunkBody(s: State): Outcome {
    if |s.rest| < s.chunkSize then Outcome(s, Incomplete)
    else
      var m := MatchFormat(LINE_END, s.rest[s.chunkSize..]);
      if m.status != Ok then Outcome(s, m.status)
      else Outcome(s.(head := s.head + s.rest[..s.chunkSize], rest := s.rest[s.chunkSize..][m.n..],
                      entityLength := s.entityLength + s.chunkSize, mode := UsingChunked), Continue)
  }

  function StepEntity(s: State): Outcome {
    match s.mode
    case DetermineReadMethod => ChooseMode(s)
    case UsingClen => StepClen(s)
    case UntilClose => Outcome(UntilCloseState(s), IncompleteEntity)
    case UsingChunked => StepChunkLine(s)
    case ChunkyBody => StepChunkBody(s)
    case ChunkyHeaders => StepHeader(s)
  }

  function Step(s: State): Outcome {
    match s.position
    case PosResponseLine => StepResponseLine(s)
    case PosHeaders => StepHeader(s)
    case PosEntity => StepEntity(s)
    case PosComplete => Outcome(s, Failure)
  }

  // ----- termination

  function Rank(s: State): nat {
    match s.position
    case PosResponseLine => 4
    case PosHeaders => 3
    case PosEntity =>
      (match s.mode
       case DetermineReadMethod => 2
       case ChunkyHeaders => 0
       case _ => 1)
    case PosComplete => 0
  }

  /** Matching a pattern that ends in a line end consumes something. */
  lemma {:induction false} LineEndConsumes(ds: seq<Directive>, r: seq<Byte>, i: nat, caps: seq<Capture>, cs: bool)
    requires i <= |r| && ds != [] && ds[|ds| - 1] == LineEnd
    requires VfMatch(ds, r, i, caps, cs).status == Ok
    ensures VfMatch(ds, r, i, caps, cs).n > i
    decreases |ds|
  {
    hide NextToken, MatchOne;
    var m := MatchOne(ds[0], r[i..], cs);
    if |ds| == 1 {
      assert ds[1..] == [];
      assert m.n > 0 by { LineEndToken(r[i..], cs); }
    } else {
      LineEndConsumes(ds[1..], r, i + m.n, caps + m.caps, NextCase(ds[0], cs));
    }
  }

  lemma LineEndToken(r: seq<Byte>, cs: bool)
    ensures MatchOne(LineEnd, r, cs).status == Ok ==> MatchOne(LineEnd, r, cs).n > 0
  {
  }

  lemma HeaderProgress(s: State)
    requires StepHeader(s).status == Continue
    ensures var t := StepHeader(s).s;
            t.position == s.position && t.mode == s.mode && |t.rest| < |s.rest|
  {
    hide NextToken, MatchFormat, WithHeader;
    var t := NextToken(s.rest);
    assert t.Token? && t.kind == Identifier;
    var m := MatchFormat(HEADER_LINE, s.rest[t.len..]);
    assert t.len + m.n <= |s.rest|;
  }

  lemma ChunkLineProgress(s: State)
    requires StepChunkLine(s).status == Continue
    ensures var t := StepChunkLine(s).s;
            t.position == s.position && |t.rest| < |s.rest| && t.mode in {ChunkyBody, ChunkyHeaders}
  {
    hide NextToken, MatchFormat;
    ChunkLineConsumes(s.rest);
  }

  lemma ChunkBodyProgress(s: State)
    requires StepChunkBody(s).status == Continue
    ensures var t := StepChunkBody(s).s;
            t.position == s.position && |t.rest| < |s.rest| && t.mode == UsingChunked
  {
    hide NextToken, MatchFormat;
    LineEndLineConsumes(s.rest[s.chunkSize..]);
  }

  /** Every step that goes on lowers the phase or shrinks the unread input. */
  lemma StepProgress(s: State)
    requires GoesOn(Step(s).status)
    ensures var t := Step(s).s;
            Rank(t) < Rank(s) || (Rank(t) == Rank(s) && |t.rest| < |s.rest|)
  {
    hide StepHeader, StepChunkLine, StepChunkBody, StepResponseLine, ChooseMode;
    match s.position {
      case PosResponseLine => ResponseLineProgress(s);
      case PosHeaders => HeaderGoesOn(s);
      case PosEntity =>
        match s.mode {
          case DetermineReadMethod => ChooseModeProgress(s);
          case UsingChunked => ChunkLineGoesOn(s); ChunkLineProgress(s);
          case ChunkyBody => ChunkBodyGoesOn(s); ChunkBodyProgress(s);
          case ChunkyHeaders => HeaderGoesOn(s);
          case _ =>
        }
      case PosComplete =>
    }
  }

  lemma ResponseLineProgress(s: State)
    ensures GoesOn(StepResponseLine(s).status) ==> StepResponseLine(s).s.position == PosHeaders
  {
    hide NextToken, MatchFormat, ParseStatusLine, WithStatus, SkipBlankLines;
  }

  lemma HeaderGoesOn(s: State)
    requires GoesOn(StepHeader(s).status)
    ensures StepHeader(s).status == Continue || (s.position != PosEntity && StepHeader(s).s.position == PosEntity)
    ensures StepHeader(s).status == Continue ==>
              var t := StepHeader(s).s;
              t.position == s.position && t.mode == s.mode && |t.rest| < |s.rest|
  {
    hide NextToken, MatchFormat, WithHeader;
    if StepHeader(s).status == Continue { HeaderProgress(s); }
  }

  lemma ChunkLineGoesOn(s: State)
    requires GoesOn(StepChunkLine(s).status)
    ensures StepChunkLine(s).status == Continue
  {
    hide NextToken, MatchFormat;
  }

  lemma ChunkBodyGoesOn(s: State)
    requires GoesOn(StepChunkBody(s).status)
    ensures StepChunkBody(s).status == Continue
  {
    hide NextToken, MatchFormat;
  }

  lemma ChooseModeProgress(s: State)
    requires s.position == PosEntity && GoesOn(ChooseMode(s).status)
    ensures ChooseMode(s).s.position == PosEntity && ChooseMode(s).s.mode in {UsingChunked, UsingClen, UntilClose}
  {
  }

  lemma ChunkLineConsumes(r: seq<Byte>)
    requires MatchFormat(CHUNK_LINE, r).status == Ok
    ensures MatchFormat(CHUNK_LINE, r).n > 0
  {
    hide VfMatch;
    LineEndConsumes(CHUNK_LINE, r, 0, [], true);
  }

  lemma LineEndLineConsumes(r: seq<Byte>)
    requires MatchFormat(LINE_END, r).status == Ok
    ensures MatchFormat(LINE_END, r).n > 0
  {
    hide VfMatch;
    LineEndConsumes(LINE_END, r, 0, [], true);
  }

  /** parser_parse: steps until the machine stops. */
  function Run(s: State): (o: Outcome)
    ensures !GoesOn(o.status)
    decreases Rank(s), |s.rest|
  {
    var o := Step(s);
    if GoesOn(o.status) then StepProgress(s); Run(o.s) else o
  }

  function Extend(s: State, e: seq<Byte>): State {
    s.(rest := s.rest + e)
  }

  /** parser_append */
  function Append(s: State, e: seq<Byte>): Outcome {
    Run(Extend(s, e).(mark := |s.head|))
  }

  /** The entity bytes: what entity.buf and entity.length delimit. */
  function Body(s: State): seq<Byte> {
    var msg := s.head + s.rest;
    var end := s.entityStart + s.entityLength;
    if end <= |msg| then msg[s.entityStart..end] else []
  }
}
