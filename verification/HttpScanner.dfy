/** The incremental scanner and the pattern matcher of httpparser.c.

    Every function below reads the unread suffix r of the message buffer and
    says how far the cursor moves inside it; the class in HttpMatcher moves a real
    cursor through a real buffer and is proved against them. */
module HttpScanner {
  import opened Bytes

  datatype Status = Success | Incomplete | IncompleteEntity | Failure | Ok | NoMatch | Continue

  datatype TokenType = Identifier | Whitespace | Crlf | Ctrl | Separator | QuotedString

  datatype Scan =
    | Token(len: nat, kind: TokenType)
    | NeedMore
    | Bad

  predicate IsBlank(c: Byte) {
    c == SPACE || c == TAB
  }

  /** strchr also finds the terminator, so the octet 0 is a separator. */
  predicate IsSeparator(c: Byte) {
    c == 0 || c == 9 || c == 32 || c == 34 || c == 40 || c == 41 || c == 44 || c == 47 ||
    c == 58 || c == 59 || c == 60 || c == 61 || c == 62 || c == 63 || c == 64 ||
    c == 91 || c == 92 || c == 93 || c == 123 || c == 125
  }

  predicate IsIdentifier(c: Byte) {
    32 <= c <= 126 && !IsSeparator(c)
  }

  predicate IsControl(c: Byte) {
    c <= 31 || c == 127
  }

  /** Octets from 128 up are negative chars in the source and are accepted here. */
  predicate IsQdText(c: Byte) {
    (c >= 32 && c != 127) || c == CR || c == LF || c == TAB
  }

  function IdentifierEnd(r: seq<Byte>, i: nat): (n: nat)
    requires i <= |r|
    ensures i <= n <= |r|
    ensures forall k :: i <= k < n ==> IsIdentifier(r[k])
    ensures n < |r| ==> !IsIdentifier(r[n])
    decreases |r| - i
  {
    if i < |r| && IsIdentifier(r[i]) then IdentifierEnd(r, i + 1) else i
  }

  function BlankEnd(r: seq<Byte>, i: nat): (n: nat)
    requires i <= |r|
    ensures i <= n <= |r|
    ensures forall k :: i <= k < n ==> IsBlank(r[k])
    ensures n < |r| ==> !IsBlank(r[n])
    decreases |r| - i
  {
    if i < |r| && IsBlank(r[i]) then BlankEnd(r, i + 1) else i
  }

  datatype Quote = Closed(end: nat) | Open | BadChar

  /** Scans quoted text from index i, just after the opening quote. */
  function QuotedScan(r: seq<Byte>, i: nat): (q: Quote)
    requires i <= |r|
    ensures q.Closed? ==> i < q.end <= |r|
    decreases |r| - i
  {
    if i == |r| then Open
    else if r[i] == QUOTE then Closed(i + 1)
    else if r[i] == BACKSLASH then
      if i + 1 < |r| then QuotedScan(r, i + 2) else Open
    else if IsQdText(r[i]) then QuotedScan(r, i + 1)
    else BadChar
  }

  /** scanner_get_token on a partly loaded message. */
  function NextToken(r: seq<Byte>): (t: Scan)
    ensures t.Token? ==> 1 <= t.len <= |r|
  {
    if r == [] then NeedMore
    else if IsIdentifier(r[0]) then
      var n := IdentifierEnd(r, 1);
      if n == |r| then NeedMore else Token(n, Identifier)
    else if IsBlank(r[0]) then
      var n := BlankEnd(r, 1);
      if n == |r| then NeedMore else Token(n, Whitespace)
    else if r[0] == CR then
      if |r| == 1 then NeedMore
      else if r[1] == LF then Token(2, Crlf)
      else Token(1, Ctrl)
    else if r[0] == LF then Token(1, Crlf)
    else if r[0] == QUOTE then
      match QuotedScan(r, 1)
      case Closed(n) => Token(n, QuotedString)
      case Open => NeedMore
      case BadChar => Bad
    else if IsSeparator(r[0]) then Token(1, Separator)
    else if IsControl(r[0]) then Token(1, Ctrl)
    else Bad
  }

  // ----- token stability

  lemma IdentifierEndStable(r: seq<Byte>, e: seq<Byte>, i: nat)
    requires i <= |r| && IdentifierEnd(r, i) < |r|
    ensures IdentifierEnd(r + e, i) == IdentifierEnd(r, i)
  {
    var n := IdentifierEnd(r, i);
    assert (r + e)[n] == r[n];
    forall k | i <= k < n ensures IsIdentifier((r + e)[k]) {
      assert (r + e)[k] == r[k];
    }
  }

  lemma BlankEndStable(r: seq<Byte>, e: seq<Byte>, i: nat)
    requires i <= |r| && BlankEnd(r, i) < |r|
    ensures BlankEnd(r + e, i) == BlankEnd(r, i)
  {
    var n := BlankEnd(r, i);
    assert (r + e)[n] == r[n];
    forall k | i <= k < n ensures IsBlank((r + e)[k]) {
      assert (r + e)[k] == r[k];
    }
  }

  lemma {:induction false} QuotedScanStable(r: seq<Byte>, e: seq<Byte>, i: nat)
    requires i <= |r| && !QuotedScan(r, i).Open?
    ensures QuotedScan(r + e, i) == QuotedScan(r, i)
    decreases |r| - i
  {
    assert (r + e)[i] == r[i];
    if r[i] == BACKSLASH {
      QuotedScanStable(r, e, i + 2);
    } else if r[i] != QUOTE && IsQdText(r[i]) {
      QuotedScanStable(r, e, i + 1);
    }
  }

  /** Once the scanner has committed to a token, or to failure, more input
      cannot change its mind: only "need more" is provisional. */
  lemma TokenStable(r: seq<Byte>, e: seq<Byte>)
    requires NextToken(r) != NeedMore
    ensures NextToken(r + e) == NextToken(r)
  {
    assert (r + e)[0] == r[0];
    if IsIdentifier(r[0]) {
      IdentifierEndStable(r, e, 1);
    } else if IsBlank(r[0]) {
      BlankEndStable(r, e, 1);
    } else if r[0] == CR {
      assert (r + e)[1] == r[1];
    } else if r[0] == QUOTE {
      QuotedScanStable(r, e, 1);
    }
  }

  // ----- composite scans; i is the distance of the cursor into r

  datatype Span = Span(n: nat, status: Status)

  function ScanError(t: Scan): Status {
    if t == NeedMore then Incomplete else Failure
  }

  /** skip_blank_lines */
  function SkipBlankLines(r: seq<Byte>, i: nat): (s: Span)
    requires i <= |r|
    ensures i <= s.n <= |r|
    ensures s.status in {Ok, Incomplete, Failure}
    decreases |r| - i
  {
    match NextToken(r[i..])
    case Token(n, k) =>
      if k == Whitespace || k == Crlf then SkipBlankLines(r, i + n) else Span(i, Ok)
    case t => Span(i, ScanError(t))
  }

  /** skip_lws */
  function SkipLws(r: seq<Byte>, i: nat): (s: Span)
    requires i <= |r|
    ensures i <= s.n <= |r|
    ensures s.status in {Ok, Incomplete, Failure}
    decreases |r| - i
  {
    match NextToken(r[i..])
    case Token(n, Whitespace) => SkipLws(r, i + n)
    case Token(n, Crlf) =>
      (match NextToken(r[i + n..])
       case Token(m, Whitespace) => SkipLws(r, i + n + m)
       case Token(m, _) => Span(i, Ok)
       case t => Span(i, ScanError(t)))
    case Token(n, _) => Span(i, Ok)
    case t => Span(i, ScanError(t))
  }

  /** match_non_ws_string: the tokens before white space or a line end. */
  function NonBlankRun(r: seq<Byte>, i: nat): (s: Span)
    requires i <= |r|
    ensures i <= s.n <= |r|
    ensures s.status in {Ok, Incomplete, Failure}
    decreases |r| - i
  {
    match NextToken(r[i..])
    case Token(n, k) =>
      if k == Whitespace || k == Crlf then Span(i, Ok) else NonBlankRun(r, i + n)
    case t => Span(i, ScanError(t))
  }

  /** read_until_crlf */
  function UntilCrlf(r: seq<Byte>, i: nat): (s: Span)
    requires i <= |r|
    ensures i <= s.n <= |r|
    ensures s.status in {Ok, Incomplete, Failure}
    decreases |r| - i
  {
    match NextToken(r[i..])
    case Token(n, k) => if k == Crlf then Span(i, Ok) else UntilCrlf(r, i + n)
    case t => Span(i, ScanError(t))
  }

  /** The tokens a raw value spans: `crlf` is where the line end that closes the
      value starts, `len` the length of everything up to and including it. */
  datatype Raw = Raw(crlf: nat, len: nat, status: Status)

  function RawScan(r: seq<Byte>, i: nat, sawCrlf: bool, crlf: nat): (v: Raw)
    requires crlf <= i <= |r|
    ensures v.crlf <= v.len <= |r|
    ensures v.status in {Ok, Incomplete, Failure}
    decreases |r| - i
  {
    match NextToken(r[i..])
    case Token(n, k) =>
      if !sawCrlf then
        if k == Crlf then RawScan(r, i + n, true, i) else RawScan(r, i + n, false, crlf)
      else if k == Whitespace then RawScan(r, i + n, false, crlf)
      else Raw(crlf, i, Ok)
    case t => Raw(crlf, i, ScanError(t))
  }

  predicate IsTrimmed(c: Byte) {
    c == SPACE || c == TAB || c == CR || c == LF
  }

  function TrimRight(s: seq<Byte>): (t: seq<Byte>)
    ensures t <= s
    ensures t != [] ==> !IsTrimmed(t[|t| - 1])
    ensures forall k :: |t| <= k < |s| ==> IsTrimmed(s[k])
  {
    if s != [] && IsTrimmed(s[|s| - 1]) then TrimRight(s[..|s| - 1]) else s
  }

  // ----- the pattern matcher

  /** One item of a format string. */
  datatype Directive =
    | IgnoreCase        // %i
    | MatchCase         // %n
    | Lit(c: Byte)      // a literal character, "% " or "%%"
    | OptWs             // %w
    | Ws                // \t
    | Lws               // ' '
    | LineEnd           // %c
    | Ident             // %s
    | Quoted            // %q
    | NonWs             // %S
    | Line              // %L
    | RawValue          // %R
    | Number(base: nat) // %d and %x

  /** What a directive stores through its argument pointer. */
  datatype Capture = Text(text: seq<Byte>) | Num(num: int)

  predicate IsMatchStatus(status: Status) {
    status == Ok || status == Incomplete || status == Failure || status == NoMatch
  }

  datatype Match = Match(n: nat, caps: seq<Capture>, status: Status)

  function MatchToken(r: seq<Byte>, kind: TokenType, capture: bool): (m: Match)
    ensures m.n <= |r| && IsMatchStatus(m.status)
  {
    match NextToken(r)
    case Token(n, k) =>
      Match(n, if capture then [Text(r[..n])] else [], if k == kind then Ok else NoMatch)
    case t => Match(0, [], ScanError(t))
  }

  function MatchLit(r: seq<Byte>, c: Byte, caseSensitive: bool): (m: Match)
    ensures m.n <= |r| && IsMatchStatus(m.status)
  {
    if r == [] then Match(0, [], Incomplete)
    else if (if caseSensitive then r[0] == c else ToLower(r[0]) == ToLower(c)) then Match(1, [], Ok)
    else Match(1, [], NoMatch)
  }

  /** match_int: strtol runs on the buffer, so it could look past the token. The
      number is stored for every identifier, also when it is then rejected. */
  function MatchInt(r: seq<Byte>, base: nat): (m: Match)
    ensures m.n <= |r| && IsMatchStatus(m.status)
  {
    match NextToken(r)
    case Token(n, Identifier) =>
      var v := StrToL(r, base);
      if v.value < 0 || v.end != n || v.erange
      then Match(0, [Num(WrapInt32(v.value))], NoMatch)
      else Match(n, [Num(WrapInt32(v.value))], Ok)
    case Token(_, _) => Match(0, [], NoMatch)
    case t => Match(0, [], ScanError(t))
  }

  function MatchOptWs(r: seq<Byte>): (m: Match)
    ensures m.n <= |r| && IsMatchStatus(m.status)
  {
    match NextToken(r)
    case Token(n, k) => Match(if k == Whitespace then n else 0, [], Ok)
    case t => Match(0, [], ScanError(t))
  }

  function MatchNonWs(r: seq<Byte>): (m: Match)
    ensures m.n <= |r| && IsMatchStatus(m.status)
  {
    var s := NonBlankRun(r, 0);
    if s.status != Ok then Match(0, [], s.status)
    else if s.n == 0 then Match(0, [Text([])], NoMatch)
    else Match(s.n, [Text(r[..s.n])], Ok)
  }

  function MatchLine(r: seq<Byte>): (m: Match)
    ensures m.n <= |r| && IsMatchStatus(m.status)
  {
    var s := UntilCrlf(r, 0);
    Match(s.n, if s.status == Ok then [Text(r[..s.n])] else [], s.status)
  }

  function MatchRaw(r: seq<Byte>): (m: Match)
    ensures m.n <= |r| && IsMatchStatus(m.status)
  {
    var v := RawScan(r, 0, false, 0);
    if v.status != Ok then Match(0, [], v.status)
    else Match(v.crlf, [Text(TrimRight(r[..v.len]))], Ok)
  }

  function MatchLws(r: seq<Byte>): (m: Match)
    ensures m.n <= |r| && IsMatchStatus(m.status)
  {
    var s := SkipLws(r, 0);
    Match(s.n, [], s.status)
  }

  function MatchOne(d: Directive, r: seq<Byte>, caseSensitive: bool): (m: Match)
    ensures m.n <= |r| && IsMatchStatus(m.status)
  {
    match d
    case IgnoreCase => Match(0, [], Ok)
    case MatchCase => Match(0, [], Ok)
    case Lit(c) => MatchLit(r, c, caseSensitive)
    case OptWs => MatchOptWs(r)
    case Ws => MatchToken(r, Whitespace, false)
    case Lws => MatchLws(r)
    case LineEnd => MatchToken(r, Crlf, false)
    case Ident => MatchToken(r, Identifier, true)
    case Quoted => MatchToken(r, QuotedString, true)
    case NonWs => MatchNonWs(r)
    case Line => MatchLine(r)
    case RawValue => MatchRaw(r)
    case Number(base) => MatchInt(r, base)
  }

  function NextCase(d: Directive, caseSensitive: bool): bool {
    if d.IgnoreCase? then false else if d.MatchCase? then true else caseSensitive
  }

  /** vfmatch from distance i on, with what was captured so far: on any status
      but Ok the cursor goes back to where the whole match began. */
  function VfMatch(ds: seq<Directive>, r: seq<Byte>, i: nat, caps: seq<Capture>, caseSensitive: bool): (m: Match)
    requires i <= |r|
    ensures m.n <= |r| && IsMatchStatus(m.status)
    ensures m.status != Ok ==> m.n == 0
    ensures m.status == Ok ==> i <= m.n
    ensures caps <= m.caps
    decreases |ds|
  {
    if ds == [] then Match(i, caps, Ok)
    else
      var m := MatchOne(ds[0], r[i..], caseSensitive);
      if m.status != Ok then Match(0, caps + m.caps, m.status)
      else VfMatch(ds[1..], r, i + m.n, caps + m.caps, NextCase(ds[0], caseSensitive))
  }

  function MatchFormat(ds: seq<Directive>, r: seq<Byte>): (m: Match)
    ensures m.n <= |r| && IsMatchStatus(m.status)
    ensures m.status != Ok ==> m.n == 0
  {
    VfMatch(ds, r, 0, [], true)
  }
}
