/** The result of parsing a response does not depend on how its octets were cut
    into pieces on their way to parser_append. */
module HttpFragments {
  import opened Bytes
  import opened HttpScanner
  import opened HttpStability
  import opened HttpMessage

  // ----- what every step keeps

  /** Where the body is while it is being read: in the chunked modes the buffer
      from entityStart to the cursor holds exactly the decoded octets. */
  ghost predicate Inv(s: State) {
    && s.entityStart + s.entityLength <= |s.head| + |s.rest|
    && (s.position in {PosResponseLine, PosHeaders} ==> s.mode == DetermineReadMethod)
    && (s.mode == UsingClen && s.position == PosEntity ==> s.entityStart == |s.head|)
    && (s.mode == UntilClose ==> s.entityStart <= |s.head|)
    && (s.mode in {UsingChunked, ChunkyBody} ==> s.entityStart + s.entityLength == |s.head|)
    && (s.mode == ChunkyHeaders ==> s.entityStart + s.entityLength <= |s.head|)
    && (s.mode == ChunkyHeaders && s.position == PosEntity ==>
          s.entityStart + s.entityLength <= s.mark <= |s.head|)
  }

  lemma FreshInv(method_: Method)
    ensures Inv(Fresh(method_))
  {
  }

  lemma HeaderStepInv(s: State)
    requires Inv(s) && (s.position == PosHeaders || (s.position == PosEntity && s.mode == ChunkyHeaders))
    ensures Inv(StepHeader(s).s)
  {
    hide NextToken, MatchFormat, WithHeader;
  }

  lemma ChunkLineInv(s: State)
    requires Inv(s) && s.position == PosEntity && s.mode == UsingChunked
    ensures Inv(StepChunkLine(s).s)
  {
    hide NextToken, MatchFormat;
  }

  lemma ChunkBodyInv(s: State)
    requires Inv(s) && s.position == PosEntity && s.mode == ChunkyBody
    ensures Inv(StepChunkBody(s).s)
  {
    hide NextToken, MatchFormat;
  }

  lemma ChooseModeInv(s: State)
    requires Inv(s) && s.position == PosEntity && s.mode == DetermineReadMethod
    ensures Inv(ChooseMode(s).s)
  {
    hide IsChunkedTransfer, RawToInt, LowerTransferEncoding;
  }

  lemma StepInv(s: State)
    requires Inv(s)
    ensures Inv(Step(s).s)
  {
    hide StepHeader, StepChunkLine, StepChunkBody, ChooseMode, StepResponseLine;
    if s.position == PosHeaders || (s.position == PosEntity && s.mode == ChunkyHeaders) {
      HeaderStepInv(s);
    } else if s.position == PosEntity && s.mode == UsingChunked {
      ChunkLineInv(s);
    } else if s.position == PosEntity && s.mode == ChunkyBody {
      ChunkBodyInv(s);
    } else if s.position == PosEntity && s.mode == DetermineReadMethod {
      ChooseModeInv(s);
    } else if s.position == PosResponseLine {
      ResponseLineInv(s);
    }
  }

  lemma ResponseLineInv(s: State)
    requires Inv(s) && s.position == PosResponseLine
    ensures Inv(StepResponseLine(s).s)
  {
    hide NextToken, MatchFormat, ParseStatusLine, WithStatus, SkipBlankLines;
  }

  /** Every state a parser can be in satisfies the invariant. */
  lemma {:induction false} RunInv(s: State)
    requires Inv(s)
    ensures Inv(Run(s).s)
    decreases Rank(s), |s.rest|
  {
    hide Step;
    StepInv(s);
    if GoesOn(Step(s).status) {
      StepProgress(s);
      RunInv(Step(s).s);
    }
  }

  // ----- more input does not change a step that was taken

  lemma HeaderStepStable(s: State, e: seq<Byte>)
    requires s.position == PosHeaders || (s.position == PosEntity && s.mode == ChunkyHeaders)
    requires StepHeader(s).status != Incomplete
    ensures StepHeader(Extend(s, e)) == Outcome(Extend(StepHeader(s).s, e), StepHeader(s).status)
  {
    hide NextToken, MatchFormat, WithHeader;
    TokenStable(s.rest, e);
    var t := NextToken(s.rest);
    if t.Token? {
      SuffixOfLonger(s.rest, e, t.len);
      assert (s.rest + e)[..t.len] == s.rest[..t.len];
      if t.kind == Identifier {
        MatchFormatStable(HEADER_LINE, s.rest[t.len..], e);
        var m := MatchFormat(HEADER_LINE, s.rest[t.len..]);
        SuffixOfLonger(s.rest, e, t.len + m.n);
        assert (s.rest + e)[..t.len + m.n] == s.rest[..t.len + m.n];
      }
    }
  }

  lemma ResponseLineStable(s: State, e: seq<Byte>)
    requires StepResponseLine(s).status != Incomplete
    ensures StepResponseLine(Extend(s, e)) == Outcome(Extend(StepResponseLine(s).s, e), StepResponseLine(s).status)
  {
    hide NextToken, StatusLineAt, SkipBlankLines;
    SkipBlankLinesStable(s.rest, e, 0);
    var n := SkipBlankLines(s.rest, 0).n;
    SuffixOfLonger(s.rest, e, n);
    assert (s.rest + e)[..n] == s.rest[..n];
    assert Advance(Extend(s, e), n) == Extend(Advance(s, n), e);
    if SkipBlankLines(s.rest, 0).status == Ok { StatusLineStable(Advance(s, n), e); }
  }

  lemma StatusLineStable(t: State, e: seq<Byte>)
    requires StatusLineAt(t).status != Incomplete
    ensures StatusLineAt(Extend(t, e)) == Outcome(Extend(StatusLineAt(t).s, e), StatusLineAt(t).status)
  {
    hide NextToken, MatchFormat, ParseStatusLine, WithStatus;
    MatchFormatStable(STATUS_LINE, t.rest, e);
    var m := MatchFormat(STATUS_LINE, t.rest);
    SuffixOfLonger(t.rest, e, m.n);
    assert (t.rest + e)[..m.n] == t.rest[..m.n];
    assert Advance(Extend(t, e), m.n) == Extend(Advance(t, m.n), e);
  }

  lemma ChunkLineStable(s: State, e: seq<Byte>)
    requires StepChunkLine(s).status != Incomplete
    ensures StepChunkLine(Extend(s, e)) == Outcome(Extend(StepChunkLine(s).s, e), StepChunkLine(s).status)
  {
    hide NextToken, MatchFormat;
    MatchFormatStable(CHUNK_LINE, s.rest, e);
    SuffixOfLonger(s.rest, e, MatchFormat(CHUNK_LINE, s.rest).n);
  }

  lemma ChunkBodyStable(s: State, e: seq<Byte>)
    requires StepChunkBody(s).status != Incomplete
    ensures StepChunkBody(Extend(s, e)) == Outcome(Extend(StepChunkBody(s).s, e), StepChunkBody(s).status)
  {
    hide NextToken, MatchFormat;
    SuffixOfLonger(s.rest, e, s.chunkSize);
    var u := s.rest[s.chunkSize..];
    MatchFormatStable(LINE_END, u, e);
    SuffixOfLonger(u, e, MatchFormat(LINE_END, u).n);
    assert (s.rest + e)[..s.chunkSize] == s.rest[..s.chunkSize];
  }

  /** Unless it waits for input or completes the message, a step commutes with
      the arrival of more input. */
  lemma StepStable(s: State, e: seq<Byte>)
    requires Inv(s) && !Waiting(Step(s).status) && Step(s).status != Success
    ensures Step(Extend(s, e)) == Outcome(Extend(Step(s).s, e), Step(s).status)
  {
    hide StepHeader, StepChunkLine, StepChunkBody, StepResponseLine;
    match s.position {
      case PosResponseLine => ResponseLineStable(s, e);
      case PosHeaders => HeaderStepStable(s, e);
      case PosEntity =>
        match s.mode {
          case UsingChunked => ChunkLineStable(s, e);
          case ChunkyBody => ChunkBodyStable(s, e);
          case ChunkyHeaders => HeaderStepStable(s, e);
          case _ =>
        }
      case PosComplete =>
    }
  }

  // ----- what a caller sees

  datatype Observation = Observation(status: Status, position: Position, message: Message, body: seq<Byte>)

  function Observe(o: Outcome): Observation {
    Observation(o.status, o.s.position, o.s.message, Body(o.s))
  }

  /** A message that is complete stays as it is when more octets follow it. */
  lemma SuccessStable(s: State, e: seq<Byte>)
    requires Inv(s) && Step(s).status == Success
    ensures Observe(Step(Extend(s, e))) == Observe(Step(s))
  {
    hide StepHeader, StepChunkLine, StepChunkBody, StepResponseLine;
    match s.position {
      case PosResponseLine => NoSuccess(s);
      case PosHeaders => HeaderStepStable(s, e); NoSuccess(s);
      case PosEntity =>
        match s.mode {
          case DetermineReadMethod =>
          case UsingClen => ClenSuccessStable(s, e);
          case ChunkyHeaders =>
            HeaderStepStable(s, e);
            TrailersSuccess(s);
            var t := StepHeader(s).s;
            SliceInHead(t.head, t.rest, t.entityStart, t.entityStart + t.entityLength);
            SliceInHead(t.head, t.rest + e, t.entityStart, t.entityStart + t.entityLength);
          case _ => NoSuccess(s);
        }
      case PosComplete =>
    }
  }

  lemma NoSuccess(s: State)
    ensures StepResponseLine(s).status != Success
    ensures s.position != PosEntity ==> StepHeader(s).status != Success
    ensures StepChunkLine(s).status != Success
    ensures StepChunkBody(s).status != Success
  {
    hide NextToken, MatchFormat, SkipBlankLines, ParseStatusLine, WithHeader;
  }

  lemma TrailersSuccess(s: State)
    requires Inv(s) && s.position == PosEntity && s.mode == ChunkyHeaders
    ensures StepHeader(s).status == Success ==>
              var t := StepHeader(s).s;
              t.entityStart + t.entityLength <= |t.head| && t.mode == ChunkyHeaders
  {
    hide NextToken, MatchFormat, WithHeader;
  }

  lemma ClenSuccessStable(s: State, e: seq<Byte>)
    requires s.entityStart == |s.head| && StepClen(s).status == Success
    ensures Observe(StepClen(Extend(s, e))) == Observe(StepClen(s))
  {
    var n := s.contentLength;
    var a, b := StepClen(s).s, StepClen(Extend(s, e)).s;
    assert (a.head + a.rest)[|s.head|..|s.head| + n] == s.rest[..n];
    assert (b.head + b.rest)[|s.head|..|s.head| + n] == s.rest[..n];
  }

  // ----- a step that waits can be taken again

  lemma StatusLineWaits(t: State)
    requires StatusLineAt(t).status == Incomplete
    ensures StatusLineAt(t).s == t
  {
    hide NextToken, MatchFormat, ParseStatusLine, WithStatus;
  }

  /** Blank lines skipped once need not be skipped again. */
  lemma BlanksResume(s: State, e: seq<Byte>)
    requires SkipBlankLines(s.rest, 0).status != Failure
    ensures var k, whole := SkipBlankLines(s.rest, 0).n, s.rest + e;
            && k <= SkipBlankLines(whole, 0).n
            && SkipBlankLines(s.rest[k..] + e, 0).n == SkipBlankLines(whole, 0).n - k
            && SkipBlankLines(s.rest[k..] + e, 0).status == SkipBlankLines(whole, 0).status
  {
    hide NextToken;
    var k, whole := SkipBlankLines(s.rest, 0).n, s.rest + e;
    if SkipBlankLines(s.rest, 0).status == Incomplete {
      SkipBlankLinesResumes(s.rest, e, 0);
    } else {
      SkipBlankLinesStable(s.rest, e, 0);
      SkipBlankLinesIdempotent(whole, 0);
    }
    SkipBlankLinesShift(whole, k, 0);
    SuffixOfLonger(s.rest, e, k);
  }

  lemma AfterBlanks(s: State)
    ensures var k := SkipBlankLines(s.rest, 0);
            StepResponseLine(s) == if k.status != Ok then Outcome(Advance(s, k.n), k.status)
                                   else StatusLineAt(Advance(s, k.n))
    ensures StepResponseLine(s).status == Incomplete ==>
              StepResponseLine(s).s == Advance(s, SkipBlankLines(s.rest, 0).n)
              && SkipBlankLines(s.rest, 0).status != Failure
  {
    hide SkipBlankLines, StatusLineAt;
    var k := SkipBlankLines(s.rest, 0);
    if k.status == Ok && StatusLineAt(Advance(s, k.n)).status == Incomplete { StatusLineWaits(Advance(s, k.n)); }
  }

  lemma ResponseLineResumes(s: State, e: seq<Byte>)
    requires StepResponseLine(s).status == Incomplete
    ensures StepResponseLine(Extend(StepResponseLine(s).s, e)) == StepResponseLine(Extend(s, e))
  {
    hide StepResponseLine, SkipBlankLines, StatusLineAt;
    AfterBlanks(s);
    var k := SkipBlankLines(s.rest, 0).n;
    var u := Extend(Advance(s, k), e);
    assert u.rest == s.rest[k..] + e;
    hide Advance;
    AfterBlanks(u);
    AfterBlanks(Extend(s, e));
    BlanksResume(s, e);
    AdvanceTwice(s, e, k, SkipBlankLines(s.rest + e, 0).n);
  }

  lemma AdvanceTwice(s: State, e: seq<Byte>, k: nat, n: nat)
    requires k <= |s.rest| && k <= n <= |s.rest + e|
    ensures Advance(Extend(Advance(s, k), e), n - k) == Advance(Extend(s, e), n)
  {
    var whole := s.rest + e;
    SuffixOfLonger(s.rest, e, k);
    assert s.rest[..k] + whole[k..][..n - k] == whole[..n];
    assert s.head + s.rest[..k] + whole[k..][..n - k] == s.head + (s.rest[..k] + whole[k..][..n - k]);
    assert whole[k..][n - k..] == whole[n..];
  }

  lemma {:induction false} SkipBlankLinesIdempotent(r: seq<Byte>, i: nat)
    requires i <= |r|
    ensures var s := SkipBlankLines(r, i); SkipBlankLines(r, s.n) == s
    decreases |r| - i
  {
    hide NextToken;
    var t := NextToken(r[i..]);
    if t.Token? && (t.kind == Whitespace || t.kind == Crlf) {
      SkipBlankLinesIdempotent(r, i + t.len);
    }
  }

  lemma ChunkLineResumes(s: State, e: seq<Byte>)
    requires StepChunkLine(s).status == Incomplete
    ensures StepChunkLine(Extend(StepChunkLine(s).s, e)) == StepChunkLine(Extend(s, e))
  {
    hide NextToken, MatchFormat;
    MatchFormatStable(CHUNK_LINE, s.rest, e);
    var c, d := MatchFormat(CHUNK_LINE, s.rest).caps, MatchFormat(CHUNK_LINE, s.rest + e).caps;
    assert |c| > 0 ==> |d| > 0 && c[0] == d[0];
  }

  lemma OtherWaits(s: State)
    ensures StepHeader(s).status == Incomplete ==> StepHeader(s).s == s
    ensures StepHeader(s).status != IncompleteEntity
    ensures StepChunkBody(s).status == Incomplete ==> StepChunkBody(s).s == s
    ensures StepChunkBody(s).status != IncompleteEntity
    ensures StepResponseLine(s).status != IncompleteEntity
    ensures StepChunkLine(s).status != IncompleteEntity
  {
    hide NextToken, MatchFormat, WithHeader, SkipBlankLines, ParseStatusLine;
  }

  /** A step that stopped for want of input and is taken again with more does
      what it would have done with all of it the first time. */
  lemma StepResumes(s: State, e: seq<Byte>)
    requires Inv(s) && Waiting(Step(s).status)
    ensures Step(Extend(Step(s).s, e)) == Step(Extend(s, e))
  {
    hide StepHeader, StepChunkLine, StepChunkBody, StepResponseLine, StepClen, UntilCloseState;
    OtherWaits(s);
    ClenMode(s);
    match s.position {
      case PosResponseLine =>
        ResponseLineResumes(s, e);
        ResponseLinePosition(s);
      case PosHeaders =>
      case PosEntity =>
        match s.mode {
          case UsingChunked =>
            ChunkLineResumes(s, e);
            ChunkLineMode(s);
          case UntilClose => UntilCloseResumes(s, e);
          case UsingClen => ClenResumes(s, e);
          case _ =>
        }
      case PosComplete =>
    }
  }

  lemma UntilCloseResumes(s: State, e: seq<Byte>)
    ensures UntilCloseState(Extend(UntilCloseState(s), e)) == UntilCloseState(Extend(s, e))
  {
    assert [] + e == e;
    assert s.head + s.rest + e == s.head + (s.rest + e);
  }

  lemma ClenResumes(s: State, e: seq<Byte>)
    requires Waiting(StepClen(s).status)
    ensures StepClen(Extend(StepClen(s).s, e)) == StepClen(Extend(s, e))
  {
  }

  lemma ClenMode(s: State)
    ensures Waiting(StepClen(s).status) ==>
              StepClen(s).s.position == s.position && StepClen(s).s.mode == s.mode
    ensures UntilCloseState(s).position == s.position && UntilCloseState(s).mode == s.mode
  {
  }

  lemma ResponseLinePosition(s: State)
    requires StepResponseLine(s).status == Incomplete
    ensures StepResponseLine(s).s.position == s.position
  {
    hide NextToken, MatchFormat, SkipBlankLines, ParseStatusLine;
  }

  lemma ChunkLineMode(s: State)
    requires StepChunkLine(s).status == Incomplete
    ensures StepChunkLine(s).s.position == s.position && StepChunkLine(s).s.mode == s.mode
  {
    hide NextToken, MatchFormat;
  }

  // ----- trailers that came in pieces leave rubbish in the buffer

  function Prefix(s: seq<Byte>, n: nat): seq<Byte> {
    if n <= |s| then s[..n] else s
  }

  /** Forgets the octets of trailers already read, which parser_parse_chunky_headers
      deletes only as far back as the start of its current call. */
  function Normal(s: State): State {
    if s.mode == ChunkyHeaders then s.(head := Prefix(s.head, s.entityStart + s.entityLength), mark := 0)
    else s.(mark := 0)
  }

  ghost predicate Same(a: Outcome, b: Outcome) {
    a.status == b.status && Normal(a.s) == Normal(b.s) && Inv(a.s) && Inv(b.s)
  }

  lemma SliceInHead(head: seq<Byte>, rest: seq<Byte>, i: nat, j: nat)
    requires i <= j <= |head|
    ensures (head + rest)[i..j] == head[..j][i..j]
  {
  }

  lemma SameObserved(a: Outcome, b: Outcome)
    requires Same(a, b)
    ensures Observe(a) == Observe(b)
  {
    if a.s.mode == ChunkyHeaders {
      var i, j := a.s.entityStart, a.s.entityStart + a.s.entityLength;
      SliceInHead(a.s.head, a.s.rest, i, j);
      SliceInHead(b.s.head, b.s.rest, i, j);
    }
  }

  lemma SameTrailer(s: State, t: State, n: nat)
    requires Inv(s) && Inv(t) && Normal(s) == Normal(t)
    requires s.position == PosEntity && s.mode == ChunkyHeaders && NextToken(s.rest) == Token(n, Identifier)
    ensures StepHeader(s).status == StepHeader(t).status
    ensures Normal(StepHeader(s).s) == Normal(StepHeader(t).s)
  {
    hide NextToken, MatchFormat, WithHeader;
    assert t.rest == s.rest && t.mode == ChunkyHeaders && t.message == s.message;
    var m := MatchFormat(HEADER_LINE, s.rest[n..]);
    NormalAdvance(s, n + m.n);
    NormalAdvance(t, n + m.n);
  }

  /** Reading a trailer or the end of the trailers depends on the unread octets. */
  lemma SameTrailerStep(s: State, t: State)
    requires Inv(s) && Inv(t) && Normal(s) == Normal(t)
    requires s.position == PosEntity && s.mode == ChunkyHeaders
    ensures StepHeader(s).status == StepHeader(t).status
    ensures Normal(StepHeader(s).s) == Normal(StepHeader(t).s)
  {
    hide NextToken, MatchFormat, WithHeader;
    assert t.rest == s.rest && t.mode == ChunkyHeaders && t.position == PosEntity && t.message == s.message;
    var tok := NextToken(s.rest);
    if tok.Token? {
      if tok.kind == Crlf {
        CutToMark(s, tok.len);
        CutToMark(t, tok.len);
      } else if tok.kind == Identifier {
        SameTrailer(s, t, tok.len);
      } else {
        NormalAdvance(s, tok.len);
        NormalAdvance(t, tok.len);
      }
    }
  }

  lemma NormalAdvance(s: State, n: nat)
    requires n <= |s.rest| && s.mode == ChunkyHeaders && s.entityStart + s.entityLength <= |s.head|
    ensures Normal(Advance(s, n)) == Normal(s).(rest := s.rest[n..])
  {
    var end := s.entityStart + s.entityLength;
    assert (s.head + s.rest[..n])[..end] == s.head[..end];
  }

  lemma CutToMark(s: State, n: nat)
    requires Inv(s) && s.position == PosEntity && s.mode == ChunkyHeaders && n <= |s.rest|
    ensures EndOfHeaders(s, n).status == Success
    ensures Normal(EndOfHeaders(s, n).s) == Normal(s).(rest := s.rest[n..], position := PosComplete)
  {
    var end := s.entityStart + s.entityLength;
    assert s.head[..s.mark][..end] == s.head[..end];
  }

  lemma MarkUnreadHeader(s: State, mark: nat)
    requires s.position != PosEntity
    ensures StepHeader(s.(mark := mark)).status == StepHeader(s).status
    ensures StepHeader(s.(mark := mark)).s.(mark := 0) == StepHeader(s).s.(mark := 0)
  {
    hide NextToken, MatchFormat, WithHeader;
  }

  lemma MarkUnreadResponseLine(s: State, mark: nat)
    ensures StepResponseLine(s.(mark := mark)).status == StepResponseLine(s).status
    ensures StepResponseLine(s.(mark := mark)).s.(mark := 0) == StepResponseLine(s).s.(mark := 0)
  {
    hide NextToken, MatchFormat, SkipBlankLines, ParseStatusLine;
  }

  lemma MarkUnreadChunk(s: State, mark: nat)
    ensures StepChunkLine(s.(mark := mark)).status == StepChunkLine(s).status
    ensures StepChunkLine(s.(mark := mark)).s.(mark := 0) == StepChunkLine(s).s.(mark := 0)
    ensures StepChunkBody(s.(mark := mark)).status == StepChunkBody(s).status
    ensures StepChunkBody(s.(mark := mark)).s.(mark := 0) == StepChunkBody(s).s.(mark := 0)
  {
    hide NextToken, MatchFormat;
  }

  lemma MarkUnreadChoice(s: State, mark: nat)
    ensures ChooseMode(s.(mark := mark)).status == ChooseMode(s).status
    ensures ChooseMode(s.(mark := mark)).s.(mark := 0) == ChooseMode(s).s.(mark := 0)
  {
    hide IsChunkedTransfer, RawToInt, LowerTransferEncoding;
  }

  lemma MarkUnreadPlain(s: State, mark: nat)
    ensures StepClen(s.(mark := mark)).status == StepClen(s).status
    ensures StepClen(s.(mark := mark)).s.(mark := 0) == StepClen(s).s.(mark := 0)
    ensures UntilCloseState(s.(mark := mark)).(mark := 0) == UntilCloseState(s).(mark := 0)
  {
  }

  lemma MarkUnread(s: State, mark: nat)
    requires s.position != PosEntity || s.mode != ChunkyHeaders
    ensures Step(s.(mark := mark)).status == Step(s).status
    ensures Step(s.(mark := mark)).s.(mark := 0) == Step(s).s.(mark := 0)
  {
    hide StepHeader, StepChunkLine, StepChunkBody, StepResponseLine, ChooseMode, StepClen, UntilCloseState;
    match s.position {
      case PosResponseLine => MarkUnreadResponseLine(s, mark);
      case PosHeaders => MarkUnreadHeader(s, mark);
      case PosEntity =>
        MarkUnreadChunk(s, mark);
        MarkUnreadChoice(s, mark);
        MarkUnreadPlain(s, mark);
      case PosComplete =>
    }
  }

  /** States that differ only in such rubbish step alike. */
  lemma SameStep(s: State, t: State)
    requires Inv(s) && Inv(t) && Normal(s) == Normal(t)
    ensures Same(Step(s), Step(t))
  {
    hide Step;
    StepInv(s);
    StepInv(t);
    if s.mode == ChunkyHeaders && s.position == PosEntity {
      SameTrailerStep(s, t);
      TrailerStep(s);
      TrailerStep(t);
    } else {
      if s.mode == ChunkyHeaders {
        CompleteStep(s);
        CompleteStep(t);
      } else {
        assert t == s.(mark := t.mark);
        MarkUnread(s, t.mark);
      }
    }
  }

  lemma TrailerStep(s: State)
    requires s.position == PosEntity && s.mode == ChunkyHeaders
    ensures Step(s) == StepHeader(s)
  {
    hide StepHeader;
  }

  lemma CompleteStep(s: State)
    requires Inv(s) && s.mode == ChunkyHeaders && s.position != PosEntity
    ensures Step(s) == Outcome(s, Failure)
  {
  }

  lemma {:induction false} SameRun(s: State, t: State)
    requires Inv(s) && Inv(t) && Normal(s) == Normal(t)
    ensures Same(Run(s), Run(t))
    decreases Rank(s), |s.rest|
  {
    hide Step;
    SameStep(s, t);
    if GoesOn(Step(s).status) {
      StepProgress(s);
      SameRun(Step(s).s, Step(t).s);
    }
  }

  // ----- the theorem

  lemma ExtendInv(s: State, e: seq<Byte>)
    requires Inv(s)
    ensures Inv(Extend(s, e)) && Inv(Extend(s, e).(mark := |s.head|))
    ensures Normal(Extend(s, e).(mark := |s.head|)) == Normal(Extend(s, e))
    ensures Body(Extend(s, e)) == Body(s)
  {
    var i, j := s.entityStart, s.entityStart + s.entityLength;
    assert (s.head + (s.rest + e))[i..j] == (s.head + s.rest)[i..j];
  }

  /** If a run stops for want of input, giving it more and running on ends as if
      all the input had been there from the start; if it stops for good, more
      input makes no difference. */
  lemma {:induction false} RunExtends(s: State, e: seq<Byte>)
    requires Inv(s)
    ensures Waiting(Run(s).status) ==> Same(Append(Run(s).s, e), Run(Extend(s, e)))
    ensures !Waiting(Run(s).status) ==> Observe(Run(Extend(s, e))) == Observe(Run(s))
    decreases Rank(s), |s.rest|
  {
    hide Step;
    var o := Step(s);
    StepInv(s);
    if GoesOn(o.status) {
      StepStable(s, e);
      StepProgress(s);
      RunExtends(o.s, e);
    } else if Waiting(o.status) {
      StepResumes(s, e);
      ExtendInv(o.s, e);
      assert Run(Extend(o.s, e)) == Run(Extend(s, e));
      SameRun(Extend(o.s, e).(mark := |o.s.head|), Extend(o.s, e));
    } else if o.status == Success {
      SuccessStable(s, e);
      ObservedStatus(Step(Extend(s, e)), o);
    } else {
      StepStable(s, e);
      ExtendInv(o.s, e);
    }
  }

  lemma ObservedStatus(a: Outcome, b: Outcome)
    requires Observe(a) == Observe(b)
    ensures a.status == b.status
  {
  }

  function Concat(pieces: seq<seq<Byte>>): seq<Byte> {
    if pieces == [] then [] else pieces[0] + Concat(pieces[1..])
  }

  /** A connection read piece by piece until the parser stops asking for more. */
  function Feed(s: State, pieces: seq<seq<Byte>>): Outcome
    requires pieces != []
    decreases |pieces|
  {
    var o := Append(s, pieces[0]);
    if |pieces| == 1 || !Waiting(o.status) then o else Feed(o.s, pieces[1..])
  }

  lemma {:induction false} ConcatExtends(s: State, pieces: seq<seq<Byte>>)
    requires Inv(s) && pieces != []
    ensures Observe(Feed(s, pieces)) == Observe(Append(s, Concat(pieces)))
    decreases |pieces|
  {
    hide Step, Run;
    var p, more := pieces[0], Concat(pieces[1..]);
    var first := Extend(s, p).(mark := |s.head|);
    ExtendInv(s, p);
    RunInv(first);
    RunExtends(first, more);
    assert s.rest + p + more == s.rest + (p + more);
    assert Extend(first, more) == Extend(s, p + more).(mark := |s.head|);
    var o := Run(first);
    if |pieces| == 1 {
      assert pieces[1..] == [] && p + more == p;
    } else if Waiting(o.status) {
      ConcatExtends(o.s, pieces[1..]);
      SameObserved(Append(o.s, more), Run(Extend(first, more)));
    }
  }

  /** Fragmentation independence. However a response is cut into pieces, feeding
      the pieces one by one until the parser stops asking for more yields the
      status, the headers, the status line and the body that one parser_append of
      all the octets yields. */
  lemma FragmentationIndependence(requestMethod: Method, pieces: seq<seq<Byte>>)
    requires pieces != []
    ensures Observe(Feed(Fresh(requestMethod), pieces)) == Observe(Append(Fresh(requestMethod), Concat(pieces)))
  {
    FreshInv(requestMethod);
    ConcatExtends(Fresh(requestMethod), pieces);
  }
}
