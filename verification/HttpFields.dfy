/** Header lines, in the head of a message and in the trailers of a chunked body:
    what the parser makes of a well-formed one. */
module HttpFields {
  import opened Bytes
  import opened HttpScanner
  import opened HttpMessage
  import opened HttpFragments
  import opened HttpChunks

  // ----- patterns, one directive at a time

  lemma VfStep(ds: seq<Directive>, k: nat, r: seq<Byte>, i: nat, caps: seq<Capture>, cs: bool, m: Match)
    requires k < |ds| && i <= |r| && m.status == Ok && MatchOne(ds[k], r[i..], cs) == m
    ensures i + m.n <= |r|
    ensures VfMatch(ds[k..], r, i, caps, cs) == VfMatch(ds[k + 1..], r, i + m.n, caps + m.caps, NextCase(ds[k], cs))
  {
    hide MatchOne;
    assert ds[k..][0] == ds[k] && ds[k..][1..] == ds[k + 1..];
  }

  lemma LitStep(ds: seq<Directive>, k: nat, r: seq<Byte>, i: nat, caps: seq<Capture>, cs: bool)
    requires k < |ds| && ds[k].Lit? && i < |r| && (if cs then r[i] == ds[k].c else ToLower(r[i]) == ToLower(ds[k].c))
    ensures VfMatch(ds[k..], r, i, caps, cs) == VfMatch(ds[k + 1..], r, i + 1, caps, cs)
  {
    assert r[i..][0] == r[i] && caps + [] == caps;
    VfStep(ds, k, r, i, caps, cs, Match(1, [], Ok));
  }

  /** Before a token that is no white space, optional white space is empty. */
  lemma EmptyStep(ds: seq<Directive>, k: nat, r: seq<Byte>, i: nat, caps: seq<Capture>, cs: bool)
    requires k < |ds| && (ds[k].OptWs? || ds[k].Lws?) && i <= |r|
    requires NextToken(r[i..]).Token? && NextToken(r[i..]).kind in {Identifier, Separator}
    ensures VfMatch(ds[k..], r, i, caps, cs) == VfMatch(ds[k + 1..], r, i, caps, cs)
  {
    hide NextToken, VfMatch;
    assert caps + [] == caps && r[i..][0..] == r[i..];
    VfStep(ds, k, r, i, caps, cs, Match(0, [], Ok));
  }

  lemma {:induction false} PlainIsExtText(s: seq<Byte>)
    requires forall k :: 0 <= k < |s| ==> IsPlain(s[k])
    ensures IsExtText(s)
    decreases |s|
  {
    if s != [] {
      PlainIsExtText(s[1..]);
    }
  }

  lemma SlashToken(r: seq<Byte>)
    requires r != [] && (r[0] == 47 || r[0] == 58)
    ensures NextToken(r) == Token(1, Separator)
  {
  }

  /** An identifier is one token if something else follows it. */
  lemma IdentifierToken(r: seq<Byte>, n: nat)
    requires 0 < n < |r| && !IsIdentifier(r[n]) && forall k :: 0 <= k < n ==> IsIdentifier(r[k])
    ensures NextToken(r) == Token(n, Identifier)
  {
  }

  /** The end of a pattern: a text and a line end. */
  lemma TextThenEnd(ds: seq<Directive>, k: nat, r: seq<Byte>, i: nat, n: nat, text: seq<Byte>, cs: bool)
    requires k + 2 == |ds| && i + n + 2 <= |r|
    requires MatchOne(ds[k], r[i..], cs) == Match(n, [Text(text)], Ok) && !ds[k].MatchCase? && !ds[k].IgnoreCase?
    requires MatchOne(ds[k + 1], r[i + n..], cs) == Match(2, [], Ok)
    ensures VfMatch(ds[k..], r, i, [], cs) == Match(i + n + 2, [Text(text)], Ok)
  {
    hide MatchOne, VfMatch;
    VfStep(ds, k, r, i, [], cs, Match(n, [Text(text)], Ok));
    assert [] + [Text(text)] == [Text(text)] && [Text(text)] + [] == [Text(text)];
    VfStep(ds, k + 1, r, i + n, [Text(text)], cs, Match(2, [], Ok));
    assert ds[k + 2..] == [];
    VfDone(r, i + n + 2, [Text(text)], NextCase(ds[k + 1], cs));
  }

  lemma VfDone(r: seq<Byte>, i: nat, caps: seq<Capture>, cs: bool)
    requires i <= |r|
    ensures VfMatch([], r, i, caps, cs) == Match(i, caps, Ok)
  {
  }

  // ----- a header line

  /** The octets of a name are those of a token in section 3.2.6 of RFC 7230: letters,
      digits and fifteen signs. */
  lemma TokenOctets(c: Byte)
    ensures IsIdentifier(c) <==>
            || 48 <= c <= 57 || 65 <= c <= 90 || 97 <= c <= 122
            || c in {33, 35, 36, 37, 38, 39, 42, 43, 45, 46, 94, 95, 96, 124, 126}
  {
  }

  /** A field name, a token; and a value: plain octets and quoted-strings, on one line
      or folded over several. */
  datatype HeaderField = HeaderField(name: seq<Byte>, value: seq<Byte>)

  ghost predicate IsField(f: HeaderField) {
    f.name != [] && (forall k :: 0 <= k < |f.name| ==> IsIdentifier(f.name[k])) && IsFolded(f.value)
  }

  /** A line end with a blank behind it continues the line. */
  predicate FoldAt(s: seq<Byte>, k: nat) {
    k + 2 < |s| && s[k] == CR && s[k + 1] == LF && IsBlank(s[k + 2])
  }

  ghost predicate IsFolded(s: seq<Byte>)
    decreases |s|
  {
    IsExtText(s) || exists k: nat :: FoldAt(s, k) && IsExtText(s[..k]) && IsFolded(s[k + 2..])
  }

  /** The end of the blanks and folds in front of a value. */
  function LeadEnd(value: seq<Byte>, i: nat): (n: nat)
    requires i <= |value|
    ensures i <= n <= |value|
    decreases |value| - i
  {
    var n := BlankEnd(value, i);
    if FoldAt(value, n) then LeadEnd(value, n + 2) else n
  }

  ghost predicate AreFields(fs: seq<HeaderField>) {
    forall i :: 0 <= i < |fs| ==> IsField(fs[i])
  }

  function FieldLine(f: HeaderField): seq<Byte> {
    f.name + ([58] + (f.value + EOL))
  }

  function FieldLines(fs: seq<HeaderField>): seq<Byte> {
    if fs == [] then [] else FieldLine(fs[0]) + FieldLines(fs[1..])
  }

  /** The value without the blanks and line ends around it. */
  function FieldValue(value: seq<Byte>): seq<Byte> {
    TrimRight(value[LeadEnd(value, 0)..])
  }

  lemma SomeFold(s: seq<Byte>) returns (f: nat)
    requires IsFolded(s) && !IsExtText(s)
    ensures FoldAt(s, f) && IsExtText(s[..f]) && IsFolded(s[f + 2..])
  {
    hide IsExtText;
    f :| FoldAt(s, f) && IsExtText(s[..f]) && IsFolded(s[f + 2..]);
  }

  /** Blanks can be taken off the front of a value. */
  lemma DropBlanks(s: seq<Byte>, n: nat)
    requires IsFolded(s) && n <= |s| && forall k :: 0 <= k < n ==> IsBlank(s[k])
    ensures IsFolded(s[n..])
  {
    hide IsExtText;
    if IsExtText(s) {
      DropPlain(s, n);
    } else {
      var k := SomeFold(s);
      assert n <= k;
      DropPlain(s[..k], n);
      var t := s[n..];
      assert t[..k - n] == s[..k][n..] && t[k - n + 2..] == s[k + 2..];
      assert FoldAt(t, k - n);
    }
  }

  lemma NoLineEnd(s: seq<Byte>)
    requires s != [] && s[0] == CR
    ensures !IsExtText(s)
  {
  }

  /** The only line ends in a value are its folds. */
  lemma LineEndIsFold(s: seq<Byte>)
    requires IsFolded(s) && s != [] && s[0] == CR
    ensures FoldAt(s, 0) && IsFolded(s[2..])
  {
    NoLineEnd(s);
    hide IsExtText;
    var k := SomeFold(s);
    if k > 0 {
      assert s[..k][0] == s[0];
      NoLineEnd(s[..k]);
    }
  }

  /** Other than a fold, a value starts with a token that is no line end. */
  lemma FirstToken(u: seq<Byte>, s: seq<Byte>)
    requires s != [] && s <= u && |s| < |u| && u[|s|] == CR && IsFolded(s) && s[0] != CR && !IsBlank(s[0])
    ensures NextToken(u).Token? && NextToken(u).kind != Crlf && NextToken(u).kind != Whitespace
  {
    hide NextToken, IsExtText;
    NoBlankNoWhitespace(u);
    if IsExtText(s) {
      var n := ExtToken(u, s);
    } else {
      var k := SomeFold(s);
      assert k > 0 && s[..k] <= u && u[k] == s[k];
      var n := ExtToken(u, s[..k]);
    }
  }

  /** What follows a line: not a continuation of it. */
  ghost predicate Follows(tail: seq<Byte>) {
    NextToken(tail).Token? && NextToken(tail).kind != Whitespace
  }

  lemma NoBlankNoWhitespace(u: seq<Byte>)
    requires u != [] && !IsBlank(u[0])
    ensures NextToken(u).Token? ==> NextToken(u).kind != Whitespace
  {
  }

  lemma BlankToken(u: seq<Byte>, n: nat)
    requires 0 < n < |u| && !IsBlank(u[n]) && forall k :: 0 <= k < n ==> IsBlank(u[k])
    ensures NextToken(u) == Token(n, Whitespace)
  {
  }

  lemma BlanksFrom(u: seq<Byte>, i: nat, n: nat)
    requires i < n < |u| && !IsBlank(u[n]) && forall j :: i <= j < n ==> IsBlank(u[j])
    ensures NextToken(u[i..]) == Token(n - i, Whitespace)
  {
    hide NextToken, IsBlank;
    var v := u[i..];
    assert v[n - i] == u[n];
    BlankToken(v, n - i);
  }

  /** Linear white space before a value ends where its blanks and folds end. */
  lemma LwsBeforeValue(u: seq<Byte>, value: seq<Byte>, tail: seq<Byte>)
    requires u == value + (EOL + tail) && IsFolded(value) && Follows(tail)
    ensures SkipLws(u, 0) == Span(LeadEnd(value, 0), Ok)
  {
    hide NextToken, IsFolded, Follows, SkipLws;
    assert value[0..] == value;
    LwsFrom(u, 0, value, tail);
  }

  lemma LeadEndIs(value: seq<Byte>, i: nat)
    requires i <= |value|
    ensures var n := BlankEnd(value, i);
            LeadEnd(value, i) == if FoldAt(value, n) then LeadEnd(value, n + 2) else n
  {
  }

  lemma {:induction false} LwsFrom(u: seq<Byte>, i: nat, value: seq<Byte>, tail: seq<Byte>)
    requires u == value + (EOL + tail) && i <= |value| && IsFolded(value[i..]) && Follows(tail)
    ensures SkipLws(u, i) == Span(LeadEnd(value, i), Ok)
  {
    hide NextToken, IsFolded, Follows, LeadEnd, SkipLws;
    var n := BlankEnd(value, i);
    LeadEndIs(value, i);
    SliceTwice(value, i, n - i);
    DropBlanks(value[i..], n - i);
    LwsAt(u, n, value, tail);
    if i < n {
      assert forall j :: i <= j < n ==> u[j] == value[j];
      LwsBlanks(u, i, n);
    }
  }

  lemma LwsBlanks(u: seq<Byte>, i: nat, n: nat)
    requires i < n < |u| && !IsBlank(u[n]) && forall j :: i <= j < n ==> IsBlank(u[j])
    ensures SkipLws(u, i) == SkipLws(u, n)
  {
    hide NextToken;
    BlanksFrom(u, i, n);
  }

  lemma LwsFold(u: seq<Byte>, n: nat, m: nat)
    requires FoldAt(u, n) && n + 2 < m < |u| && !IsBlank(u[m]) && forall j :: n + 2 <= j < m ==> IsBlank(u[j])
    ensures SkipLws(u, n) == SkipLws(u, m)
  {
    hide NextToken;
    assert u[n..] == EOL + u[n + 2..];
    EolToken(u[n..], u[n + 2..]);
    BlanksFrom(u, n + 2, m);
  }

  lemma LwsEnds(u: seq<Byte>, n: nat, tail: seq<Byte>)
    requires n <= |u| && u[n..] == EOL + tail && Follows(tail)
    ensures SkipLws(u, n) == Span(n, Ok)
  {
    hide NextToken;
    EolToken(u[n..], tail);
    assert u[n + 2..] == u[n..][2..] == tail;
  }

  lemma LwsToken(u: seq<Byte>, n: nat)
    requires n <= |u| && NextToken(u[n..]).Token?
    requires NextToken(u[n..]).kind != Crlf && NextToken(u[n..]).kind != Whitespace
    ensures SkipLws(u, n) == Span(n, Ok)
  {
    hide NextToken;
  }

  /** The same where no blank stands. */
  lemma {:induction false} LwsAt(u: seq<Byte>, n: nat, value: seq<Byte>, tail: seq<Byte>)
    requires u == value + (EOL + tail) && n <= |value| && IsFolded(value[n..]) && Follows(tail)
    requires n < |value| ==> !IsBlank(value[n])
    ensures SkipLws(u, n) == Span(if FoldAt(value, n) then LeadEnd(value, n + 2) else n, Ok)
    decreases |value| - n
  {
    hide NextToken, IsFolded, SkipLws, Follows, LeadEnd;
    DropFrom(u, value, EOL + tail, n);
    if n == |value| {
      assert u[n..] == EOL + tail;
      LwsEnds(u, n, tail);
    } else if value[n] == CR {
      LineEndIsFold(value[n..]);
      assert FoldAt(value, n);
      SkipsFold(value, n);
      var m := BlankEnd(value, n + 2);
      assert m > n + 2;
      LeadEndIs(value, n + 2);
      LeadEndIs(value, m);
      assert forall j :: n + 2 <= j < m ==> u[j] == value[j];
      LwsFold(u, n, m);
      SliceTwice(value, n + 2, m - n - 2);
      DropBlanks(value[n + 2..], m - n - 2);
      LwsAt(u, m, value, tail);
    } else {
      FirstToken(u[n..], value[n..]);
      LwsToken(u, n);
    }
  }

  lemma DropFrom<T>(u: seq<T>, a: seq<T>, b: seq<T>, n: nat)
    requires u == a + b && n <= |a|
    ensures u[n..] == a[n..] + b && (n < |a| ==> u[n] == a[n]) && (n == |a| && b != [] ==> u[n] == b[0])
  {
  }

  /** Over text without a line end the scan of a raw value goes on. */
  lemma {:induction false} RawScanOver(r: seq<Byte>, i: nat, k: nat, crlf: nat)
    requires crlf <= i <= k < |r| && r[k] == CR && IsExtText(r[i..k])
    ensures RawScan(r, i, false, crlf) == RawScan(r, k, false, crlf)
    decreases k - i
  {
    hide NextToken, IsExtText;
    if i < k {
      var (u, s) := (r[i..], r[i..k]);
      assert s <= u && u[|s|] == r[k];
      var n := ExtToken(u, s);
      assert s[n..] == r[i + n..k];
      RawScanOver(r, i + n, k, crlf);
    }
  }

  /** A fold is passed over. */
  lemma RawScanFold(r: seq<Byte>, k: nat, m: nat, crlf: nat)
    requires crlf <= k && FoldAt(r, k) && k + 2 < m < |r| && !IsBlank(r[m])
    requires forall j :: k + 2 <= j < m ==> IsBlank(r[j])
    ensures RawScan(r, k, false, crlf) == RawScan(r, m, false, k)
  {
    hide NextToken;
    assert r[k..] == EOL + r[k + 2..];
    EolToken(r[k..], r[k + 2..]);
    BlanksFrom(r, k + 2, m);
    assert RawScan(r, k, false, crlf) == RawScan(r, k + 2, true, k);
  }

  lemma RawScanLine(r: seq<Byte>, i: nat, k: nat, crlf: nat, tail: seq<Byte>)
    requires crlf <= i <= k <= |r| && r[k..] == EOL + tail && IsExtText(r[i..k]) && Follows(tail)
    ensures RawScan(r, i, false, crlf) == Raw(k, k + 2, Ok)
  {
    hide NextToken, IsExtText;
    assert r[k] == r[k..][0] == CR;
    RawScanOver(r, i, k, crlf);
    EolToken(r[k..], tail);
    assert r[k + 2..] == r[k..][2..] == tail;
    assert RawScan(r, k, false, crlf) == RawScan(r, k + 2, true, k);
  }

  /** The first fold, and the blanks behind it. */
  lemma FirstFold(s: seq<Byte>) returns (f: nat, m: nat)
    requires IsFolded(s) && !IsExtText(s)
    ensures FoldAt(s, f) && IsExtText(s[..f]) && f + 2 < m <= |s| && IsFolded(s[m..])
    ensures (m < |s| ==> !IsBlank(s[m])) && forall j :: f + 2 <= j < m ==> IsBlank(s[j])
  {
    hide IsFolded, IsExtText;
    f := SomeFold(s);
    m := BlankEnd(s, f + 2);
    SliceTwice(s, f + 2, m - f - 2);
    DropBlanks(s[f + 2..], m - f - 2);
  }

  lemma FoldInside(r: seq<Byte>, i: nat, k: nat, f: nat, m: nat)
    requires i <= k < |r| && r[k] == CR && FoldAt(r[i..k], f) && f + 2 < m <= k - i
    requires (m < k - i ==> !IsBlank(r[i..k][m])) && forall j :: f + 2 <= j < m ==> IsBlank(r[i..k][j])
    ensures FoldAt(r, i + f) && !IsBlank(r[i + m]) && (forall j :: i + f + 2 <= j < i + m ==> IsBlank(r[j]))
    ensures r[i..k][..f] == r[i..i + f] && r[i..k][m..] == r[i + m..k]
  {
    var s := r[i..k];
    assert forall j :: i <= j < k ==> r[j] == s[j - i];
  }

  /** A raw value ends at the first line end that is not folded. */
  lemma {:induction false} RawScanText(r: seq<Byte>, i: nat, k: nat, crlf: nat, tail: seq<Byte>)
    requires crlf <= i <= k <= |r| && r[k..] == EOL + tail && IsFolded(r[i..k]) && Follows(tail)
    ensures RawScan(r, i, false, crlf) == Raw(k, k + 2, Ok)
    decreases k - i
  {
    hide NextToken, IsExtText, IsFolded, RawScan, Follows;
    if IsExtText(r[i..k]) {
      RawScanLine(r, i, k, crlf, tail);
    } else {
      assert r[k] == r[k..][0] == CR;
      var f, m := FirstFold(r[i..k]);
      FoldInside(r, i, k, f, m);
      RawScanOver(r, i, i + f, crlf);
      RawScanFold(r, i + f, i + m, crlf);
      RawScanText(r, i + m, k, i + f, tail);
    }
  }

  lemma TrimLineEnd(s: seq<Byte>)
    ensures TrimRight(s + EOL) == TrimRight(s)
  {
    var t := s + EOL;
    assert t[|t| - 1] == 10 && t[..|t| - 1] == s + [13];
    assert (s + [13])[..|s|] == s;
  }

  lemma RawValueIs(v: seq<Byte>, text: seq<Byte>)
    requires RawScan(v, 0, false, 0) == Raw(|text|, |text| + 2, Ok) && text + EOL <= v
    ensures MatchOne(RawValue, v, true) == Match(|text|, [Text(TrimRight(text))], Ok)
  {
    hide RawScan, TrimRight;
    TrimLineEnd(text);
    assert v[..|text| + 2] == text + EOL;
  }

  lemma Parts<T>(v: seq<T>, a: seq<T>, b: seq<T>, c: seq<T>)
    requires v == a + (b + c)
    ensures v[0..|a|] == a && v[|a|..] == b + c && a + b <= v && v[|a|..][|b|..] == c
  {
    assert v == a + b + c;
  }

  lemma DropInto<T>(r: seq<T>, a: seq<T>, b: seq<T>, c: seq<T>, n: nat)
    requires r == a + (b + c) && n <= |b|
    ensures |r| == |a| + |b| + |c| && r[|a| + n..] == b[n..] + c && r[|a| + |b|..] == c && r[|a|..] == b + c
  {
  }

  lemma RawValueMatches(v: seq<Byte>, text: seq<Byte>, tail: seq<Byte>)
    requires v == text + (EOL + tail) && IsFolded(text) && Follows(tail)
    ensures MatchOne(RawValue, v, true) == Match(|text|, [Text(TrimRight(text))], Ok)
  {
    hide NextToken, IsFolded, RawScan, TrimRight, Follows, MatchOne;
    Parts(v, text, EOL, tail);
    RawScanText(v, 0, |text|, 0, tail);
    RawValueIs(v, text);
  }

  /** The pattern of a header line reads the colon, the value and the line end. */
  lemma FieldMatches(r: seq<Byte>, value: seq<Byte>, tail: seq<Byte>)
    requires r == [58] + (value + (EOL + tail)) && IsFolded(value) && Follows(tail)
    ensures MatchFormat(HEADER_LINE, r) == Match(|value| + 3, [Text(FieldValue(value))], Ok)
  {
    hide NextToken, MatchOne, VfMatch, MatchFormat, IsFolded, LeadEnd, Follows, FieldValue;
    var n := LeadEnd(value, 0);
    DropInto(r, [58], value, EOL + tail, n);
    ColonAndBlanks(HEADER_LINE, r, value, tail, n);
    ValueOfField(r[1 + n..], value, tail, n);
    LineEndIs(r[1 + |value|..], tail);
    ColonValueEnd(r, n, |value|, FieldValue(value));
  }

  lemma ColonValueEnd(r: seq<Byte>, n: nat, end: nat, text: seq<Byte>)
    requires n <= end && end + 3 <= |r|
    requires VfMatch(HEADER_LINE, r, 0, [], true) == VfMatch(HEADER_LINE[3..], r, 1 + n, [], true)
    requires MatchOne(RawValue, r[1 + n..], true) == Match(end - n, [Text(text)], Ok)
    requires MatchOne(LineEnd, r[1 + end..], true) == Match(2, [], Ok)
    ensures MatchFormat(HEADER_LINE, r) == Match(end + 3, [Text(text)], Ok)
  {
    hide MatchOne, VfMatch;
    assert r[1 + n + (end - n)..] == r[1 + end..];
    TextThenEnd(HEADER_LINE, 3, r, 1 + n, end - n, text, true);
  }

  lemma ColonAndBlanks(ds: seq<Directive>, r: seq<Byte>, value: seq<Byte>, tail: seq<Byte>, n: nat)
    requires ds == HEADER_LINE && r != [] && r[0] == 58 && r[1..] == value + (EOL + tail)
    requires IsFolded(value) && Follows(tail) && n == LeadEnd(value, 0)
    ensures 1 + n <= |r| && VfMatch(ds, r, 0, [], true) == VfMatch(ds[3..], r, 1 + n, [], true)
  {
    hide NextToken, MatchOne, VfMatch, IsFolded, SkipLws, LeadEnd, Follows;
    assert ds[0..] == ds && r[0..] == r;
    SlashToken(r);
    EmptyStep(ds, 0, r, 0, [], true);
    LitStep(ds, 1, r, 0, [], true);
    LwsBeforeValue(r[1..], value, tail);
    LwsIs(r[1..], n);
    VfStep(ds, 2, r, 1, [], true, Match(n, [], Ok));
  }

  lemma {:induction false} DropLead(value: seq<Byte>, i: nat)
    requires i <= |value| && IsFolded(value[i..])
    ensures IsFolded(value[LeadEnd(value, i)..])
    decreases |value| - i
  {
    hide IsFolded, FoldAt, LeadEnd;
    LeadEndIs(value, i);
    var n := BlankEnd(value, i);
    SliceTwice(value, i, n - i);
    DropBlanks(value[i..], n - i);
    if FoldAt(value, n) {
      SkipsFold(value, n);
      DropLead(value, n + 2);
    }
  }

  lemma SkipsFold(value: seq<Byte>, n: nat)
    requires FoldAt(value, n) && IsFolded(value[n..])
    ensures n + 2 <= |value| && IsFolded(value[n + 2..])
  {
    hide IsFolded;
    LineEndIsFold(value[n..]);
    SliceTwice(value, n, 2);
  }

  lemma SliceTwice<T>(s: seq<T>, i: nat, j: nat)
    requires i + j <= |s|
    ensures s[i..][j..] == s[i + j..]
  {
  }

  lemma ValueOfField(v: seq<Byte>, value: seq<Byte>, tail: seq<Byte>, n: nat)
    requires n == LeadEnd(value, 0) && v == value[n..] + (EOL + tail) && IsFolded(value) && Follows(tail)
    ensures MatchOne(RawValue, v, true) == Match(|value| - n, [Text(FieldValue(value))], Ok)
  {
    hide NextToken, MatchOne, IsFolded, Follows, TrimRight;
    DropLead(value, 0);
    assert value[0..] == value;
    RawValueMatches(v, value[n..], tail);
  }

  lemma LwsIs(u: seq<Byte>, n: nat)
    requires SkipLws(u, 0) == Span(n, Ok)
    ensures MatchOne(Lws, u, true) == Match(n, [], Ok)
  {
  }

  lemma LineEndIs(r: seq<Byte>, tail: seq<Byte>)
    requires r == EOL + tail
    ensures MatchOne(LineEnd, r, true) == Match(2, [], Ok)
  {
    EolToken(r, tail);
  }

  /** One turn of the header loop reads one line, wherever headers are read. */
  lemma ReadsField(s: State, f: HeaderField, tail: seq<Byte>)
    requires IsField(f) && s.rest == FieldLine(f) + tail && Follows(tail)
    ensures StepHeader(s) ==
            Outcome(s.(head := s.head + FieldLine(f), rest := tail,
                       message := WithHeader(s.message, f.name, FieldValue(f.value))), Continue)
  {
    hide NextToken, MatchFormat, IsFolded, WithHeader, FieldValue;
    var (r, n) := (s.rest, |f.name|);
    assert r == f.name + ([58] + (f.value + (EOL + tail)));
    assert forall k :: 0 <= k < n ==> r[k] == f.name[k];
    IdentifierToken(r, n);
    FieldMatches(r[n..], f.value, tail);
    assert r[..n] == f.name && r[..n + |f.value| + 3] == FieldLine(f) && r[n + |f.value| + 3..] == tail;
  }

  // ----- trailers

  function WithFields(m: Message, fs: seq<HeaderField>): Message
    decreases |fs|
  {
    if fs == [] then m else WithFields(WithHeader(m, fs[0].name, FieldValue(fs[0].value)), fs[1..])
  }

  lemma LinesFollow(fs: seq<HeaderField>)
    requires AreFields(fs)
    ensures Follows(FieldLines(fs) + EOL)
  {
    if fs == [] {
      assert FieldLines(fs) + EOL == EOL + [];
      EolToken(EOL + [], []);
    } else {
      var (r, n) := (FieldLines(fs) + EOL, |fs[0].name|);
      assert IsField(fs[0]) && r[n] == 58;
      assert forall k :: 0 <= k < n ==> r[k] == fs[0].name[k];
      IdentifierToken(r, n);
    }
  }

  /** Any sequence of header lines and an empty line complete a chunked body. */
  lemma {:induction false} TrailersComplete(u: State, fs: seq<HeaderField>)
    requires Inv(u) && u.position == PosEntity && u.mode == ChunkyHeaders
    requires AreFields(fs) && u.rest == FieldLines(fs) + EOL
    ensures Run(u).status == Success && Run(u).s.rest == [] && Run(u).s.message == WithFields(u.message, fs)
    ensures Run(u).s.head == u.head[..u.mark]
    decreases |fs|
  {
    hide StepHeader, WithHeader, FieldValue, IsField, FieldLine;
    if fs == [] {
      assert u.rest == EOL;
      NoTrailers(u);
    } else {
      var tail := FieldLines(fs[1..]) + EOL;
      assert u.rest == FieldLine(fs[0]) + tail;
      assert AreFields(fs[1..]) && IsField(fs[0]);
      LinesFollow(fs[1..]);
      ReadsField(u, fs[0], tail);
      TrailerStep(u);
      StepInv(u);
      StepProgress(u);
      TrailersComplete(Step(u).s, fs[1..]);
    }
  }

  /** So a chunked body with any well-formed trailers completes, with its data as
      the entity and the trailers among the headers. */
  lemma DecodingWithTrailers(s: State, cs: seq<Chunk>, last: Chunk, fs: seq<HeaderField>)
    requires BodyStarts(s) && AreChunks(cs) && IsLast(last) && AreFields(fs)
    ensures var o := Run(s.(rest := Chunked(cs, last, FieldLines(fs) + EOL)));
            o.status == Success && Body(o.s) == Data(cs) && o.s.rest == [] && o.s.message == WithFields(s.message, fs)
  {
    hide Run, IsChunk, WithFields, AreFields, FieldLines;
    var trailers := FieldLines(fs) + EOL;
    DecodingUndoesEncoding(s, cs, last, trailers);
    ToTheTrailers(s, cs, last, trailers);
    TrailersComplete(Trailing(Decoded(s, cs, SizeLine(last.size, last.ext) + trailers), trailers), fs);
  }

  lemma ToTheTrailers(s: State, cs: seq<Chunk>, last: Chunk, trailers: seq<Byte>)
    requires BodyStarts(s) && AreChunks(cs) && IsLast(last)
    ensures var line := SizeLine(last.size, last.ext) + trailers;
            var u := Trailing(Decoded(s, cs, line), trailers);
            Inv(u) && Run(s.(rest := Chunked(cs, last, trailers))) == Run(u)
  {
    hide Run, SizeLine;
    var line := SizeLine(last.size, last.ext) + trailers;
    ChunksDecode(s, cs, line);
    DecodedChunking(s, cs, line);
    var t := Decoded(s, cs, line);
    assert t == t.(rest := line);
    LastChunk(t, last.size, last.ext, trailers);
  }

  lemma BodyWithTrailers(h: State, cs: seq<Chunk>, last: Chunk, fs: seq<HeaderField>)
    requires BodyStarts(h) && h.rest == [] && AreChunks(cs) && IsLast(last) && AreFields(fs)
    ensures var o := Append(h, Chunked(cs, last, FieldLines(fs) + EOL));
            o.status == Success && Body(o.s) == Data(cs) && o.s.message == WithFields(h.message, fs)
  {
    hide Run, Step, Chunked, AreChunks, IsLast, Data, AreFields, WithFields, Body;
    var body := Chunked(cs, last, FieldLines(fs) + EOL);
    assert [] + body == body;
    var t := h.(mark := |h.head|);
    assert Extend(h, body).(mark := |h.head|) == t.(rest := body);
    DecodingWithTrailers(t, cs, last, fs);
  }

  /** End to end, with any trailers: header text that announces a chunked body, then
      the coding of some data, in any pieces whatever, gives exactly that data. */
  lemma TrailedResponseInPieces(
      requestMethod: Method, headers: seq<Byte>, cs: seq<Chunk>, last: Chunk, fs: seq<HeaderField>,
      pieces: seq<seq<Byte>>)
    requires BodyStarts(Append(Fresh(requestMethod), headers).s)
    requires Append(Fresh(requestMethod), headers).status == Incomplete
    requires Append(Fresh(requestMethod), headers).s.rest == []
    requires AreChunks(cs) && IsLast(last) && AreFields(fs)
    requires pieces != [] && Concat(pieces) == headers + Chunked(cs, last, FieldLines(fs) + EOL)
    ensures var seen := Observe(Feed(Fresh(requestMethod), pieces));
            && seen.status == Success && seen.body == Data(cs)
            && seen.message == WithFields(Append(Fresh(requestMethod), headers).s.message, fs)
  {
    hide Run, Step, Feed, Observe, Chunked, Fresh, AreChunks, IsLast, AreFields, WithFields;
    FreshInv(requestMethod);
    FragmentationIndependence(requestMethod, pieces);
    var (h, body) := (Append(Fresh(requestMethod), headers).s, Chunked(cs, last, FieldLines(fs) + EOL));
    AppendTwice(Fresh(requestMethod), headers, body);
    BodyWithTrailers(h, cs, last, fs);
    ObservedAll(Append(h, body));
  }

  lemma ObservedAll(o: Outcome)
    ensures Observe(o).status == o.status && Observe(o).body == Body(o.s) && Observe(o).message == o.s.message
  {
  }
}
