/** The response parser as the source runs it: methods that move the scanner,
    delete octets from the buffer it scans and update the parser's fields, each
    proved to do what HttpMessage says. */
module HttpParser {
  import opened Bytes
  import opened HttpScanner
  import opened HttpStability
  import opened HttpMatcher
  import opened StrIntMap
  import opened HttpTables
  import opened HttpMessage
  import opened HttpFragments
  import opened Wrappers

  /** parser_parse_headers up to the line end that closes the header section. */
  function HeaderLines(s: State): Outcome
    decreases |s.rest|
  {
    var t := NextToken(s.rest);
    if t.Token? && t.kind == Crlf then Outcome(Advance(s, t.len).(position := PosEntity), Ok)
    else
      var o := StepHeader(s);
      if o.status == Continue then HeaderProgress(s); HeaderLines(o.s) else o
  }

  /** The header section is what the run of the machine makes of it. */
  lemma {:induction false} HeaderLinesRun(s: State)
    requires s.position == PosHeaders || (s.position == PosEntity && s.mode == ChunkyHeaders)
    requires s.position == PosEntity ==> s.mark <= |s.head|
    ensures HeaderLines(s).status in {Ok, Incomplete, Failure, NoMatch}
    ensures HeaderLines(s).s.mark == s.mark
    ensures s.head <= HeaderLines(s).s.head
    ensures var o := HeaderLines(s);
            Run(s) == if o.status != Ok then o
                      else if s.position == PosHeaders then Run(o.s)
                      else Outcome(o.s.(position := PosComplete, head := s.head[..s.mark]), Success)
    decreases |s.rest|
  {
    hide NextToken, StepHeader, EndOfHeaders;
    var t := NextToken(s.rest);
    StepIsHeader(s);
    if t.Token? && t.kind == Crlf {
      EndOfHeaderLines(s, t.len);
    } else if StepHeader(s).status == Continue {
      HeaderProgress(s);
      var u := StepHeader(s).s;
      ContinuedHeader(s);
      HeaderLinesRun(u);
      if s.position == PosEntity { assert u.head[..s.mark] == s.head[..s.mark]; }
    } else {
      PlainHeaderStop(s);
    }
  }

  lemma EndOfHeaderLines(s: State, n: nat)
    requires NextToken(s.rest) == Token(n, Crlf)
    requires s.position == PosEntity ==> s.mark <= |s.head|
    ensures StepHeader(s) == EndOfHeaders(s, n)
    ensures s.position != PosEntity ==> EndOfHeaders(s, n) == Outcome(Advance(s, n).(position := PosEntity), Ok)
    ensures s.position == PosEntity ==>
              EndOfHeaders(s, n) == Outcome(Advance(s, n).(position := PosComplete, head := s.head[..s.mark]), Success)
  {
    hide NextToken;
  }

  lemma StepIsHeader(s: State)
    requires s.position == PosHeaders || (s.position == PosEntity && s.mode == ChunkyHeaders)
    ensures Step(s) == StepHeader(s)
  {
    hide StepHeader;
  }

  lemma ContinuedHeader(s: State)
    requires StepHeader(s).status == Continue
    ensures var u := StepHeader(s).s;
            u.position == s.position && u.mode == s.mode && u.mark == s.mark && s.head <= u.head
  {
    hide NextToken, MatchFormat, WithHeader;
  }

  lemma PlainHeaderStop(s: State)
    requires !(NextToken(s.rest).Token? && NextToken(s.rest).kind == Crlf) && StepHeader(s).status != Continue
    ensures StepHeader(s).status in {Incomplete, Failure, NoMatch}
    ensures StepHeader(s).s.mark == s.mark && s.head <= StepHeader(s).s.head
  {
    hide NextToken, MatchFormat, WithHeader;
  }

  // ----- helpers of the status line and of the header list

  /** The character at p, or the one that ended the line. */
  function CharAt(line: seq<Byte>, p: nat): Byte {
    if p < |line| then line[p] else CR
  }

  ghost predicate DigitsIn(line: seq<Byte>, from: nat, start: nat, end: nat) {
    && from <= start < end <= |line|
    && (forall k :: from <= k < start ==> !IsDigit(line[k]))
    && (forall k :: start <= k < end ==> IsDigit(line[k]))
    && (end < |line| ==> !IsDigit(line[end]))
  }

  lemma FieldInLine(line: seq<Byte>, i: nat)
    requires i <= |CString(line)| && ScanField(CString(line), i).Some?
    ensures var f := ScanField(CString(line), i).value; DigitsIn(line, i, f.start, f.end)
  {
    hide CString, ScanField;
    var s := CString(line);
    var f := ScanField(s, i).value;
    assert forall k :: 0 <= k < |s| ==> s[k] == line[k];
  }

  /** When sscanf converted three numbers, the digits up to the end of the third
      are exactly those numbers: the loops that skip them stay inside the line. */
  lemma ThreeNumbers(line: seq<Byte>)
    requires ScanVersionAndCode(line).Some?
    ensures var (a, b, c) := ScanVersionAndCode(line).value;
            && DigitsIn(line, 0, a.start, a.end)
            && DigitsIn(line, a.end, b.start, b.end)
            && DigitsIn(line, b.end, c.start, c.end)
  {
    hide ScanField;
    var (a, b, c) := ScanVersionAndCode(line).value;
    var s := CString(line);
    FieldInLine(line, 0);
    var dot := SkipSpaces(s, a.end);
    FieldInLine(line, dot + 1);
    FieldInLine(line, b.end);
    forall k | a.end <= k < b.start ensures !IsDigit(line[k]) {
      if k <= dot { assert line[k] == s[k]; }
    }
  }

  /** The three pairs of loops that skip the version and the status code. */
  method SkipThreeNumbers(line: seq<Byte>) returns (p: nat)
    requires ScanVersionAndCode(line).Some?
    ensures p == ScanVersionAndCode(line).value.2.end
  {
    hide ScanVersionAndCode;
    ThreeNumbers(line);
    ghost var (a, b, c) := ScanVersionAndCode(line).value;
    ghost var starts, ends := [a.start, b.start, c.start], [0, a.end, b.end, c.end];
    p := 0;
    for i := 0 to 3
      invariant p == ends[i]
    {
      assert DigitsIn(line, ends[i], starts[i], ends[i + 1]);
      while !IsDigit(line[p])
        invariant ends[i] <= p <= starts[i]
        decreases starts[i] - p
      {
        p := p + 1;
      }
      while IsDigit(CharAt(line, p))
        invariant starts[i] <= p <= ends[i + 1]
        decreases ends[i + 1] - p
      {
        p := p + 1;
      }
    }
  }

  /** What parser_parse_responseline does with the text after "HTTP/". */
  method ReadStatusLine(line: seq<Byte>) returns (r: Option<StatusLine>)
    ensures r == ParseStatusLine(line)
  {
    hide ScanVersionAndCode;
    var scanned := ScanVersionAndCode(line);
    if scanned == None { return None; }
    var (a, b, c) := scanned.value;
    if a.value < 0 || b.value < 0 || c.value < 0 { return None; }
    var p := SkipThreeNumbers(line);
    if !IsBlank(CharAt(line, p)) { return None; }
    while IsBlank(CharAt(line, p))
      invariant c.end <= p <= |line|
      invariant forall k :: c.end <= k < p ==> IsBlank(line[k])
      decreases |line| - p
    {
      p := p + 1;
    }
    assert p == SkipBlanksFrom(line, c.end);
    r := Some(StatusLine(a.value, b.value, c.value, line[p..]));
  }

  /** raw_find_str: lower-cases the value in place, as far as its first NUL. */
  method RawFindStr(value: seq<Byte>, pattern: seq<Byte>) returns (lowered: seq<Byte>, index: int)
    ensures lowered == LowerCString(value)
    ensures index == FindStr(CString(LowerCString(value)), pattern, 0)
  {
    lowered := value;
    var i := 0;
    while i < |lowered| && lowered[i] != 0
      invariant i <= |lowered| == |value|
      invariant forall k :: 0 <= k < i ==> value[k] != 0 && lowered[k] == ToLower(value[k])
      invariant forall k :: i <= k < |value| ==> lowered[k] == value[k]
    {
      lowered := lowered[i := ToLower(lowered[i])];
      i := i + 1;
    }
    CStringLength(value, i);
    index := FindStr(CString(lowered), pattern, 0);
  }

  lemma CStringLength(s: seq<Byte>, n: nat)
    requires n <= |s| && (forall k :: 0 <= k < n ==> s[k] != 0) && (n < |s| ==> s[n] == 0)
    ensures CString(s) == s[..n]
  {
    var t := CString(s);
    assert t == s[..|t|];
  }

  /** Searching the header table gives the id that HeaderId says. */
  method FindHeaderId(name: seq<Byte>) returns (id: int)
    requires NulFree(name)
    ensures id == HeaderId(name)
  {
    hide FoldAll, LexLess, HeaderNames, Searchable;
    HeaderNamesInOrder();
    HeaderNamesSearchable();
    var table := HeaderNames();
    var index := MapStrToInt(name, table, false);
    ghost var first := NameIndex(name, table, 0);
    if index != -1 {
      assert first != -1;
      assert FoldedEqual(table[index].name, table[first].name, false);
    }
    id := if index == -1 then HDR_UNKNOWN else table[index].id;
  }

  class Parser {
    const scanner: Scanner
    var position: Position
    var mode: EntityMode
    var message: Message
    var contentLength: nat
    var chunkSize: nat
    var entityStart: nat
    var entityLength: nat
    ghost var mark: nat

    ghost predicate Valid()
      reads this, scanner
    {
      scanner.Valid() && Inv(View())
    }

    ghost function View(): State
      requires scanner.Valid()
      reads this, scanner
    {
      State(position, mode, message, contentLength, chunkSize, entityStart, entityLength,
            scanner.msg[..scanner.cursor], scanner.msg[scanner.cursor..], mark)
    }

    /** parser_response_init */
    constructor (requestMethod: Method)
      ensures fresh(scanner) && Valid() && View() == Fresh(requestMethod)
    {
      scanner := new Scanner();
      position, mode := PosResponseLine, DetermineReadMethod;
      message := Message(requestMethod, 0, 0, 0, [], []);
      contentLength, chunkSize, entityStart, entityLength, mark := 0, 0, 0, 0, 0;
    }

    /** Moving the cursor is advancing the view. */
    lemma Moved(s: State, msg: seq<Byte>, from: nat, n: nat)
      requires from + n <= |msg| && s.head == msg[..from] && s.rest == msg[from..]
      ensures Advance(s, n).head == msg[..from + n] && Advance(s, n).rest == msg[from + n..]
    {
    }

    /** The status line, once the blank lines before it are skipped. */
    method ParseStatusLineAt() returns (status: Status)
      requires scanner.Valid()
      modifies this, scanner
      ensures scanner.Valid() && Outcome(View(), status) == StatusLineAt(old(View()))
    {
      hide MatchFormat, ParseStatusLine;
      ghost var t := View();
      Moved(t, scanner.msg, scanner.cursor, MatchFormat(STATUS_LINE, t.rest).n);
      var caps;
      status, caps := scanner.Vfmatch(STATUS_LINE);
      if status != Ok { return; }
      var line := ReadStatusLine(CapturedText(caps, 0));
      if line == None { return Failure; }
      message := WithStatus(message, line.value);
      position := PosHeaders;
    }

    /** parser_parse_responseline */
    method ParseResponseLine() returns (status: Status)
      requires Valid() && position == PosResponseLine
      modifies this, scanner
      ensures Valid() && Outcome(View(), status) == StepResponseLine(old(View()))
    {
      hide SkipBlankLines, StatusLineAt, NextToken, Inv;
      ghost var s := View();
      ResponseLineInv(s);
      Moved(s, scanner.msg, scanner.cursor, SkipBlankLines(s.rest, 0).n);
      status := scanner.SkipBlanks();
      if status == Ok { status := ParseStatusLineAt(); }
    }

    /** The part of parser_parse_headers that stores a header. */
    method StoreHeader(name: seq<Byte>, value: seq<Byte>)
      requires NulFree(name)
      modifies `message
      ensures message == WithHeader(old(message), name, value)
    {
      var headers := message.headers;
      var id := FindHeaderId(name);
      var at := if id != HDR_UNKNOWN then FindById(headers, id, 0) else FindByName(headers, name, 0);
      if at == -1 {
        var stored := if value == [] then [0] else value;
        message := message.(headers := headers + [Header(id, name, stored)]);
      } else if |value| > 0 {
        var joined := headers[at].value + [44, 32] + value;
        message := message.(headers := headers[at := headers[at].(value := joined)]);
      }
    }

    /** One turn of the loop in parser_parse_headers; `ended` says it was the line
        end that closes the section. */
    method ParseHeader() returns (status: Status, ended: bool)
      requires scanner.Valid()
      modifies this, scanner
      ensures scanner.Valid()
      ensures ended <==> NextToken(old(View()).rest).Token? && NextToken(old(View()).rest).kind == Crlf
      ensures ended ==>
                status == Ok
                && View() == Advance(old(View()), NextToken(old(View()).rest).len).(position := PosEntity)
      ensures !ended ==> Outcome(View(), status) == StepHeader(old(View()))
    {
      hide NextToken, MatchFormat, WithHeader;
      ghost var s, msg := View(), scanner.msg;
      var save := scanner.cursor;
      ended := false;
      var t := scanner.GetToken();
      if !t.Token? {
        return ScanError(t), false;
      }
      Moved(s, msg, save, t.len);
      if t.kind == Crlf {
        position := PosEntity;
        return Ok, true;
      }
      if t.kind != Identifier {
        return Failure, false;
      }
      var name := scanner.msg[save..save + t.len];
      assert name == s.rest[..t.len];
      assert scanner.msg[scanner.cursor..] == s.rest[t.len..];
      var caps;
      status, caps := scanner.Vfmatch(HEADER_LINE);
      ghost var m := MatchFormat(HEADER_LINE, s.rest[t.len..]);
      if status != Ok {
        scanner.cursor := save;
        return;
      }
      Moved(s, msg, save, t.len + m.n);
      IdentifierNulFree(s.rest);
      StoreHeader(name, CapturedText(caps, 0));
      status := Continue;
    }

    /** parser_parse_headers */
    method ParseHeaders() returns (status: Status)
      requires scanner.Valid()
      modifies this, scanner
      ensures scanner.Valid() && Outcome(View(), status) == HeaderLines(old(View()))
    {
      hide NextToken, StepHeader;
      ghost var all := HeaderLines(View());
      var ended;
      while true
        invariant scanner.Valid() && all == HeaderLines(View())
        decreases |scanner.msg[scanner.cursor..]|
      {
        ghost var s := View();
        status, ended := ParseHeader();
        if ended || status != Continue { return; }
        HeaderProgress(s);
      }
    }

    /** parser_parse_entity_using_clen */
    method ParseClen() returns (status: Status)
      requires Valid() && position == PosEntity && mode == UsingClen
      modifies this, scanner
      ensures Valid() && Outcome(View(), status) == StepClen(old(View()))
    {
      ghost var s := View();
      entityLength := |scanner.msg| - entityStart;
      if entityLength < contentLength {
        status := Incomplete;
      } else {
        if entityLength > contentLength {
          scanner.msg := scanner.msg[entityStart + contentLength := 0];
          assert scanner.msg[..scanner.cursor] == s.head;
          assert scanner.msg[scanner.cursor..] == s.rest[contentLength := 0];
        }
        entityLength := contentLength;
        position := PosComplete;
        status := Success;
      }
    }

    /** parser_parse_entity_until_close */
    method ParseUntilClose() returns (status: Status)
      requires Valid() && position == PosEntity && mode == UntilClose
      modifies this, scanner
      ensures Valid() && status == IncompleteEntity && View() == UntilCloseState(old(View()))
    {
      ghost var s := View();
      var cursor := |scanner.msg|;
      entityLength := cursor - entityStart;
      scanner.cursor := cursor;
      assert scanner.msg[..cursor] == s.head + s.rest && scanner.msg[cursor..] == [];
      status := IncompleteEntity;
    }

    /** The part of parser_parse_chunky_body that keeps the data and deletes the
        line end behind it. */
    method KeepChunkData() returns (status: Status)
      requires scanner.Valid() && chunkSize <= |scanner.msg| - scanner.cursor
      modifies scanner
      ensures scanner.Valid() && status == MatchFormat(LINE_END, old(View().rest)[chunkSize..]).status
      ensures status != Ok ==> View() == old(View())
      ensures status == Ok ==>
                View() == old(View()).(
                  head := old(View().head) + old(View().rest)[..chunkSize],
                  rest := old(View().rest)[chunkSize..][MatchFormat(LINE_END, old(View().rest)[chunkSize..]).n..])
    {
      hide MatchFormat;
      status := scanner.KeepThenDelete(chunkSize, LINE_END);
    }

    /** parser_parse_chunky_body */
    method ParseChunkBody() returns (status: Status)
      requires Valid() && position == PosEntity && mode == ChunkyBody
      modifies this, scanner
      ensures Valid() && Outcome(View(), status) == StepChunkBody(old(View()))
    {
      ghost var s := View();
      ChunkBodyInv(s);
      hide MatchFormat, Inv;
      if |scanner.msg| - scanner.cursor < chunkSize {
        return Incomplete;
      }
      status := KeepChunkData();
      if status != Ok {
        assert View() == s;
        return;
      }
      entityLength := entityLength + chunkSize;
      mode := UsingChunked;
      status := Continue;
    }

    /** The part of parser_parse_chunky_entity that reads and deletes the line. */
    method ParseSizeLine() returns (status: Status)
      requires scanner.Valid()
      modifies this, scanner
      ensures scanner.Valid() && Outcome(View(), status) == ReadSizeLine(old(View()))
    {
      hide MatchFormat;
      ghost var s := View();
      var caps;
      status, caps := scanner.MatchAndDelete(CHUNK_LINE);
      assert s.rest[0..] == s.rest;
      if |caps| > 0 && caps[0].Num? {
        chunkSize := caps[0].num % WORD;
      }
    }

    /** The part of parser_parse_chunky_entity after the size is known. */
    method EnterNextChunk()
      requires scanner.Valid() && entityStart <= scanner.cursor
      modifies this
      ensures scanner.Valid() && View() == EnterChunk(old(View()))
      ensures mode == ChunkyHeaders ==> mark == scanner.cursor
    {
      if chunkSize == 0 {
        entityLength := scanner.cursor - entityStart;
        mode := ChunkyHeaders;
        mark := scanner.cursor;
      } else {
        mode := ChunkyBody;
      }
    }

    /** parser_parse_chunky_entity */
    method ParseChunkLine() returns (status: Status)
      requires Valid() && position == PosEntity && mode == UsingChunked
      modifies this, scanner
      ensures Valid() && Outcome(View(), status) == StepChunkLine(old(View()))
      ensures mode == ChunkyHeaders ==> mark == scanner.cursor
    {
      ghost var s := View();
      SizeLineKeeps(s);
      hide ReadSizeLine, Inv, EnterChunk;
      status := ParseSizeLine();
      if status == Ok {
        EnterNextChunk();
        status := Continue;
      }
    }

    /** parser_parse_chunky_headers */
    method ParseTrailers() returns (status: Status)
      requires Valid() && position == PosEntity && mode == ChunkyHeaders && mark == scanner.cursor
      modifies this, scanner
      ensures Valid() && Outcome(View(), status) == Run(old(View()))
    {
      hide Step, HeaderLines;
      ghost var s := View();
      RunInv(s);
      HeaderLinesRun(s);
      var save := scanner.cursor;
      status := ParseHeaders();
      if status == Ok {
        ghost var t := View();
        position := PosComplete;
        assert scanner.cursor == |t.head| >= save;
        assert scanner.msg[..save] == t.head[..save];
        scanner.Discard(save);
        status := Success;
      }
    }

    /** The search for "chunked" in parser_get_entity_read_method. */
    method FindChunked() returns (chunked: bool)
      modifies `message
      ensures message == old(message).(headers := LowerTransferEncoding(old(message).headers))
      ensures chunked == IsChunkedTransfer(old(message).headers)
    {
      hide LowerCString, FindStr, FindById, CString;
      chunked := false;
      var headers := message.headers;
      var te := FindById(headers, HDR_TRANSFER_ENCODING, 0);
      if te != -1 {
        var lowered, index := RawFindStr(headers[te].value, CHUNKED);
        message := message.(headers := headers[te := headers[te].(value := lowered)]);
        chunked := index >= 0;
      }
    }

    /** parser_get_entity_read_method */
    method ReadMethod() returns (status: Status)
      requires Valid() && position == PosEntity && mode == DetermineReadMethod
      modifies this
      ensures Valid() && Outcome(View(), status) == ChooseMode(old(View()))
      ensures mode != ChunkyHeaders
    {
      ghost var s := View();
      ChooseModeInv(s);
      hide RawToInt, FindById, NoBody, LowerTransferEncoding, IsChunkedTransfer, Inv;
      entityStart, entityLength := scanner.cursor, 0;
      if NoBody(message) {
        position := PosComplete;
        return Success;
      }
      status := Continue;
      var chunked := FindChunked();
      if chunked {
        mode := UsingChunked;
      } else {
        var cl := FindById(message.headers, HDR_CONTENT_LENGTH, 0);
        if cl != -1 {
          contentLength := RawToInt(message.headers[cl].value) % WORD;
          mode := UsingClen;
        } else {
          mode := UntilClose;
        }
      }
    }

    /** parser_parse_entity */
    method ParseEntity() returns (status: Status)
      requires Valid() && position == PosEntity
      requires mode == ChunkyHeaders ==> mark == scanner.cursor
      modifies this, scanner
      ensures Valid() && Outcome(View(), status) == Run(old(View()))
    {
      hide StepClen, StepChunkBody, StepChunkLine, ChooseMode, UntilCloseState, StepHeader, StepResponseLine;
      ghost var all := Run(View());
      status := Continue;
      while status == Continue
        invariant Valid()
        invariant status == Continue ==> position == PosEntity && (mode == ChunkyHeaders ==> mark == scanner.cursor)
        invariant if status == Continue then all == Run(View()) else all == Outcome(View(), status)
        decreases if status == Continue then 1 else 0, Rank(View()), |scanner.msg[scanner.cursor..]|
      {
        ghost var s := View();
        EntityStatus(s);
        match mode {
          case UsingClen => status := ParseClen();
          case UsingChunked => status := ParseChunkLine();
          case ChunkyBody => status := ParseChunkBody();
          case ChunkyHeaders => status := ParseTrailers();
          case UntilClose => status := ParseUntilClose();
          case DetermineReadMethod => status := ReadMethod();
        }
        if status == Continue { StepProgress(s); }
      }
    }

    /** parser_parse */
    method Parse() returns (status: Status)
      requires Valid()
      requires mode == ChunkyHeaders ==> mark == scanner.cursor
      modifies this, scanner
      ensures Valid() && Outcome(View(), status) == Run(old(View()))
    {
      hide StepResponseLine, StepEntity, StepHeader, HeaderLines;
      ghost var all := Run(View());
      status := Ok;
      while status == Ok
        invariant Valid()
        invariant status == Ok ==> (mode == ChunkyHeaders ==> mark == scanner.cursor)
        invariant if status == Ok then all == Run(View()) else all == Outcome(View(), status)
        decreases if status == Ok then 1 else 0, Rank(View())
      {
        ghost var s := View();
        match position {
          case PosEntity =>
            status := ParseEntity();
          case PosHeaders =>
            HeaderLinesRun(s);
            HeaderLinesInv(s);
            status := ParseHeaders();
          case PosResponseLine =>
            ResponseLineProgress(s);
            ResponseLineStatus(s);
            status := ParseResponseLine();
          case PosComplete =>
            status := Failure;
        }
      }
    }

    /** parser_append */
    method Append(buf: seq<Byte>) returns (status: Status)
      requires Valid()
      modifies this, scanner
      ensures Valid() && Outcome(View(), status) == HttpMessage.Append(old(View()), buf)
    {
      hide Run;
      ghost var s := View();
      ExtendInv(s, buf);
      scanner.msg := scanner.msg + buf;
      mark := scanner.cursor;
      assert scanner.msg[..scanner.cursor] == s.head && scanner.msg[scanner.cursor..] == s.rest + buf;
      status := Parse();
    }
  }

  lemma IdentifierNulFree(r: seq<Byte>)
    requires NextToken(r).Token? && NextToken(r).kind == Identifier
    ensures NulFree(r[..NextToken(r).len])
  {
    IdentifierOctets(r);
  }

  /** Entity steps continue or end; none of them says OK. */
  lemma EntityStatus(s: State)
    requires s.position == PosEntity
    ensures Step(s).status != Ok
    ensures Step(s).status == Continue ==> Step(s).s.position == PosEntity
    ensures Step(s).status == Continue && Step(s).s.mode == ChunkyHeaders ==> s.mode in {UsingChunked, ChunkyHeaders}
    ensures Run(s).status != Continue && Run(s).status != Ok
  {
    hide NextToken, MatchFormat, WithHeader, IsChunkedTransfer, RawToInt, LowerTransferEncoding;
  }

  lemma SizeLineKeeps(s: State)
    requires Inv(s) && s.position == PosEntity && s.mode == UsingChunked
    ensures Inv(StepChunkLine(s).s)
    ensures var t := ReadSizeLine(s).s;
            t.head == s.head && t.entityStart == s.entityStart <= |s.head| && t.mode == s.mode
    ensures ReadSizeLine(s).status != Continue
  {
    hide MatchFormat;
    ChunkLineInv(s);
  }

  lemma ResponseLineStatus(s: State)
    requires s.position == PosResponseLine && Inv(s)
    ensures Step(s) == StepResponseLine(s)
    ensures StepResponseLine(s).status != Continue
    ensures StepResponseLine(s).s.mode == DetermineReadMethod
  {
    hide NextToken, MatchFormat, SkipBlankLines, ParseStatusLine;
  }

  lemma {:induction false} HeaderLinesInv(s: State)
    requires Inv(s) && s.position == PosHeaders
    ensures Inv(HeaderLines(s).s) && HeaderLines(s).s.mode == DetermineReadMethod
    ensures HeaderLines(s).status == Ok ==> HeaderLines(s).s.position == PosEntity
    decreases |s.rest|
  {
    hide NextToken, StepHeader;
    HeaderStepInv(s);
    if StepHeader(s).status == Continue {
      HeaderProgress(s);
      if !(NextToken(s.rest).Token? && NextToken(s.rest).kind == Crlf) { HeaderLinesInv(StepHeader(s).s); }
    }
    HeaderModeKept(s);
  }

  lemma HeaderModeKept(s: State)
    ensures StepHeader(s).s.mode == s.mode
    ensures !(NextToken(s.rest).Token? && NextToken(s.rest).kind == Crlf) ==> StepHeader(s).status != Ok
  {
    hide NextToken, MatchFormat, WithHeader;
  }
}
