/** The scanner as the source runs it: a cursor that moves through a buffer,
    proved against the functions of HttpScanner on the unread octets. */
module HttpMatcher {
  import opened Bytes
  import opened HttpScanner

  /** One turn of the loop in skip_lws. */
  lemma SkipLwsStep(r: seq<Byte>, i: nat)
    requires i <= |r|
    ensures SkipLws(r, i) ==
            match NextToken(r[i..])
            case Token(n, Whitespace) => SkipLws(r, i + n)
            case Token(n, Crlf) =>
              (match NextToken(r[i + n..])
               case Token(m, Whitespace) => SkipLws(r, i + n + m)
               case Token(m, _) => Span(i, Ok)
               case t => Span(i, ScanError(t)))
            case Token(n, _) => Span(i, Ok)
            case t => Span(i, ScanError(t))
  {
    hide NextToken;
  }

  /** One turn of the loop in match_raw_value. */
  lemma RawScanStep(r: seq<Byte>, i: nat, sawCrlf: bool, crlf: nat)
    requires crlf <= i <= |r|
    ensures RawScan(r, i, sawCrlf, crlf) ==
            match NextToken(r[i..])
            case Token(n, k) =>
              if !sawCrlf then
                if k == Crlf then RawScan(r, i + n, true, i) else RawScan(r, i + n, false, crlf)
              else if k == Whitespace then RawScan(r, i + n, false, crlf)
              else Raw(crlf, i, Ok)
            case t => Raw(crlf, i, ScanError(t))
  {
    hide NextToken;
  }

  class Scanner {
    var msg: seq<Byte>
    var cursor: nat

    ghost predicate Valid()
      reads this
    {
      cursor <= |msg|
    }

    ghost function Rest(): seq<Byte>
      requires Valid()
      reads this
    {
      msg[cursor..]
    }

    constructor ()
      ensures Valid() && msg == [] && cursor == 0
    {
      msg, cursor := [], 0;
    }

    /** membuffer_delete of the octets between a place and the cursor, which goes
        back to that place: what is unread stays unread. */
    method Discard(from: nat)
      requires Valid() && from <= cursor
      modifies this
      ensures Valid() && cursor == from
      ensures Rest() == old(Rest()) && msg[..from] == old(msg[..from])
    {
      msg := msg[..from] + msg[cursor..];
      cursor := from;
    }

    /** scanner_get_token */
    method GetToken() returns (t: Scan)
      requires Valid()
      modifies `cursor
      ensures Valid() && t == NextToken(old(Rest()))
      ensures cursor == old(cursor) + (if t.Token? then t.len else 0)
    {
      ghost var r := Rest();
      var p := cursor;
      var end := |msg|;
      if p == end {
        return NeedMore;
      }
      var c := msg[p];
      p := p + 1;
      var kind: TokenType;
      if IsIdentifier(c) {
        kind := Identifier;
        while p < end && IsIdentifier(msg[p])
          invariant cursor < p <= end
          invariant IdentifierEnd(r, 1) == IdentifierEnd(r, p - cursor)
        {
          p := p + 1;
        }
        if p == end { return NeedMore; }
      } else if IsBlank(c) {
        kind := Whitespace;
        while p < end && IsBlank(msg[p])
          invariant cursor < p <= end
          invariant BlankEnd(r, 1) == BlankEnd(r, p - cursor)
        {
          p := p + 1;
        }
        if p == end { return NeedMore; }
      } else if c == CR {
        if p == end { return NeedMore; }
        if msg[p] != LF {
          kind := Ctrl;
        } else {
          kind := Crlf;
          p := p + 1;
        }
      } else if c == LF {
        kind := Crlf;
      } else if c == QUOTE {
        kind := QuotedString;
        var bad := false;
        p, bad := ScanQuoted(p);
        if bad { return Bad; }
        if p == end + 1 { return NeedMore; }
      } else if IsSeparator(c) {
        kind := Separator;
      } else if IsControl(c) {
        kind := Ctrl;
      } else {
        return Bad;
      }
      t := Token(p - cursor, kind);
      cursor := p;
    }

    /** The quoted-text loop of scanner_get_token. Gives the position after the
        closing quote, or one past the end when the input ran out first. */
    method ScanQuoted(start: nat) returns (p: nat, bad: bool)
      requires Valid() && cursor < start <= |msg|
      ensures match QuotedScan(Rest(), start - cursor)
              case Closed(n) => !bad && p == cursor + n
              case Open => !bad && p == |msg| + 1
              case BadChar => bad
    {
      ghost var r := Rest();
      p, bad := start, false;
      while p < |msg|
        invariant cursor < p <= |msg|
        invariant QuotedScan(r, start - cursor) == QuotedScan(r, p - cursor)
      {
        var c := msg[p];
        p := p + 1;
        if c == QUOTE {
          return;
        } else if c == BACKSLASH {
          if p < |msg| { p := p + 1; }
        } else if !IsQdText(c) {
          bad := true;
          return;
        }
      }
      p := |msg| + 1;
    }

    /** skip_blank_lines */
    method SkipBlanks() returns (status: Status)
      requires Valid()
      modifies `cursor
      ensures Valid()
      ensures var s := SkipBlankLines(old(Rest()), 0);
              status == s.status && cursor == old(cursor) + s.n
    {
      hide NextToken;
      ghost var start := cursor;
      var t := GetToken();
      while t.Token? && (t.kind == Whitespace || t.kind == Crlf)
        invariant Valid() && t.Token? ==> start + t.len <= cursor <= |msg|
        invariant start <= cursor <= |msg|
        invariant var i := if t.Token? then cursor - start - t.len else cursor - start;
                  && 0 <= i <= |old(Rest())|
                  && t == NextToken(old(Rest())[i..])
                  && SkipBlankLines(old(Rest()), 0) == SkipBlankLines(old(Rest()), i)
        decreases |msg| - cursor, t.Token?
      {
        assert msg[cursor..] == old(Rest())[cursor - start..];
        t := GetToken();
      }
      if t.Token? {
        cursor := cursor - t.len;
        status := Ok;
      } else {
        status := ScanError(t);
      }
    }

    /** skip_lws */
    method SkipLinearWs() returns (status: Status)
      requires Valid()
      modifies `cursor
      ensures Valid()
      ensures var s := SkipLws(old(Rest()), 0);
              status == s.status && cursor == old(cursor) + s.n
    {
      hide NextToken, SkipLws;
      ghost var r, start, all := Rest(), cursor, SkipLws(Rest(), 0);
      status := Ok;
      var matched := true;
      while matched
        invariant start <= cursor <= |msg|
        invariant matched ==> status == Ok
        invariant all == if matched then SkipLws(r, cursor - start) else Span(cursor - start, status)
        decreases |msg| - cursor, matched
      {
        var save := cursor;
        matched := false;
        assert msg[cursor..] == r[cursor - start..];
        SkipLwsStep(r, cursor - start);
        var t := GetToken();
        if t.Token? && t.kind == Crlf {
          assert msg[cursor..] == r[cursor - start..];
          t := GetToken();
        }
        if t.Token? {
          if t.kind == Whitespace {
            matched := true;
          } else {
            cursor := save;
          }
        } else {
          cursor := save;
          status := ScanError(t);
        }
      }
    }

    /** match_non_ws_string */
    method MatchNonBlank() returns (m: Match)
      requires Valid()
      modifies `cursor
      ensures Valid() && m == MatchNonWs(old(Rest())) && cursor == old(cursor) + m.n
    {
      hide NextToken;
      ghost var r := Rest();
      var start := cursor;
      var length := 0;
      var t := GetToken();
      while t.Token? && t.kind != Whitespace && t.kind != Crlf
        invariant start + length <= |msg|
        invariant cursor == start + length + (if t.Token? then t.len else 0) <= |msg|
        invariant t == NextToken(r[length..])
        invariant NonBlankRun(r, 0) == NonBlankRun(r, length)
        decreases |msg| - start - length, t.Token?
      {
        length := length + t.len;
        assert msg[cursor..] == r[length..];
        t := GetToken();
      }
      if t.Token? {
        cursor := cursor - t.len;
        if length == 0 {
          m := Match(0, [Text([])], NoMatch);
        } else {
          assert msg[start..start + length] == r[..length];
          m := Match(length, [Text(msg[start..start + length])], Ok);
        }
      } else {
        cursor := start;
        m := Match(0, [], ScanError(t));
      }
    }

    /** match_raw_value */
    method MatchRawValue() returns (m: Match)
      requires Valid()
      modifies `cursor
      ensures Valid() && m == MatchRaw(old(Rest())) && cursor == old(cursor) + m.n
    {
      hide NextToken, RawScan;
      ghost var r := Rest();
      var start := cursor;
      var length, sawCrlf, posAtCrlf := 0, false, start;
      ghost var all := RawScan(r, 0, false, 0);
      var done := false;
      var status := Ok;
      while !done
        invariant start <= posAtCrlf <= start + length <= |msg|
        invariant all ==
                  if done then Raw(posAtCrlf - start, length, status)
                  else RawScan(r, length, sawCrlf, posAtCrlf - start)
        invariant !done ==> cursor == start + length && status == Ok
        invariant done ==> cursor == if status == Ok then posAtCrlf else start
        decreases |msg| - start - length, !done
      {
        assert msg[cursor..] == r[length..];
        RawScanStep(r, length, sawCrlf, posAtCrlf - start);
        var t := GetToken();
        if t.Token? {
          if !sawCrlf {
            if t.kind == Crlf {
              sawCrlf := true;
              posAtCrlf := cursor - t.len;
            }
            length := length + t.len;
          } else if t.kind == Whitespace {
            sawCrlf := false;
            length := length + t.len;
          } else {
            done := true;
            cursor := posAtCrlf;
          }
        } else {
          status := ScanError(t);
          cursor := start;
          done := true;
        }
      }
      if status == Ok {
        var v := TrimTail(msg[start..start + length]);
        assert msg[start..start + length] == r[..length];
        m := Match(posAtCrlf - start, [Text(v)], Ok);
      } else {
        m := Match(0, [], status);
      }
    }

    /** match_int */
    method MatchInteger(base: nat) returns (m: Match)
      requires Valid()
      modifies `cursor
      ensures Valid() && m == MatchInt(old(Rest()), base) && cursor == old(cursor) + m.n
    {
      hide NextToken, StrToL;
      var save := cursor;
      var t := GetToken();
      if !t.Token? {
        return Match(0, [], ScanError(t));
      }
      if t.kind == Identifier {
        var v := StrToL(msg[save..], base);
        var stored := [Num(WrapInt32(v.value))];
        if v.value < 0 || save + v.end != save + t.len || v.erange {
          m := Match(0, stored, NoMatch);
        } else {
          m := Match(t.len, stored, Ok);
        }
      } else {
        m := Match(0, [], NoMatch);
      }
      if m.status != Ok {
        cursor := save;
      }
    }

    /** read_until_crlf */
    method ReadUntilCrlf() returns (m: Match)
      requires Valid()
      modifies `cursor
      ensures Valid() && m == MatchLine(old(Rest())) && cursor == old(cursor) + m.n
    {
      hide NextToken;
      ghost var r := Rest();
      var start := cursor;
      var t := GetToken();
      ghost var i := 0;
      while t.Token? && t.kind != Crlf
        invariant start + i <= |msg|
        invariant cursor == start + i + (if t.Token? then t.len else 0) <= |msg|
        invariant t == NextToken(r[i..])
        invariant UntilCrlf(r, 0) == UntilCrlf(r, i)
        decreases |msg| - start - i, t.Token?
      {
        i := i + t.len;
        assert msg[cursor..] == r[i..];
        t := GetToken();
      }
      if t.Token? {
        cursor := cursor - t.len;
        assert msg[start..cursor] == r[..i];
        m := Match(cursor - start, [Text(msg[start..cursor])], Ok);
      } else {
        m := Match(cursor - start, [], ScanError(t));
      }
    }

    /** match_char; on a mismatch the character stays consumed. */
    method MatchChar(c: Byte, caseSensitive: bool) returns (m: Match)
      requires Valid()
      modifies `cursor
      ensures Valid() && m == MatchLit(old(Rest()), c, caseSensitive) && cursor == old(cursor) + m.n
    {
      if cursor >= |msg| {
        return Match(0, [], Incomplete);
      }
      var scanned := msg[cursor];
      cursor := cursor + 1;
      var same := if caseSensitive then c == scanned else ToLower(c) == ToLower(scanned);
      m := Match(1, [], if same then Ok else NoMatch);
    }

    /** The token cases of vfmatch: %s, %q, %c and \t. */
    method MatchKind(kind: TokenType, capture: bool) returns (m: Match)
      requires Valid()
      modifies `cursor
      ensures Valid() && m == MatchToken(old(Rest()), kind, capture) && cursor == old(cursor) + m.n
    {
      hide NextToken;
      ghost var r := Rest();
      var start := cursor;
      var t := GetToken();
      if t.Token? {
        assert msg[start..cursor] == r[..t.len];
        m := Match(t.len, if capture then [Text(msg[start..cursor])] else [], if t.kind == kind then Ok else NoMatch);
      } else {
        m := Match(0, [], ScanError(t));
      }
    }

    /** One directive of vfmatch. */
    method MatchDirective(d: Directive, caseSensitive: bool) returns (m: Match)
      requires Valid()
      modifies `cursor
      ensures Valid() && m == MatchOne(d, old(Rest()), caseSensitive) && cursor == old(cursor) + m.n
    {
      hide NextToken, MatchInt;
      match d {
        case IgnoreCase => m := Match(0, [], Ok);
        case MatchCase => m := Match(0, [], Ok);
        case Lit(c) => m := MatchChar(c, caseSensitive);
        case OptWs =>
          var t := GetToken();
          if t.Token? {
            if t.kind != Whitespace { cursor := cursor - t.len; }
            m := Match(if t.kind == Whitespace then t.len else 0, [], Ok);
          } else {
            m := Match(0, [], ScanError(t));
          }
        case Ws => m := MatchKind(Whitespace, false);
        case Lws =>
          var start := cursor;
          var status := SkipLinearWs();
          m := Match(cursor - start, [], status);
        case LineEnd => m := MatchKind(Crlf, false);
        case Ident => m := MatchKind(Identifier, true);
        case Quoted => m := MatchKind(QuotedString, true);
        case NonWs => m := MatchNonBlank();
        case Line => m := ReadUntilCrlf();
        case RawValue => m := MatchRawValue();
        case Number(base) => m := MatchInteger(base);
      }
    }

    /** vfmatch: backtracks to where it began on every status but Ok. */
    method Vfmatch(ds: seq<Directive>) returns (status: Status, caps: seq<Capture>)
      requires Valid()
      modifies `cursor
      ensures Valid()
      ensures var m := MatchFormat(ds, old(Rest()));
              status == m.status && caps == m.caps && cursor == old(cursor) + m.n
      ensures status != Ok ==> cursor == old(cursor)
    {
      hide NextToken, MatchOne;
      ghost var r := Rest();
      var save := cursor;
      var caseSensitive := true;
      var next := 0;
      status, caps := Ok, [];
      while next < |ds| && status == Ok
        invariant next <= |ds| && save <= cursor <= |msg|
        invariant status == Ok ==>
                    MatchFormat(ds, r) == VfMatch(ds[next..], r, cursor - save, caps, caseSensitive)
        invariant status != Ok ==> MatchFormat(ds, r) == Match(0, caps, status)
      {
        assert msg[cursor..] == r[cursor - save..];
        var d := ds[next];
        assert ds[next..][0] == d && ds[next..][1..] == ds[next + 1..];
        var m := MatchDirective(d, caseSensitive);
        status, caps := m.status, caps + m.caps;
        caseSensitive := NextCase(d, caseSensitive);
        next := next + 1;
      }
      if status != Ok {
        cursor := save;
      }
    }

    /** A match followed by the deletion of what it consumed, as the chunk decoder
        does it: the cursor stays, and what is left unread follows it. */
    method MatchAndDelete(ds: seq<Directive>) returns (status: Status, caps: seq<Capture>)
      requires Valid()
      modifies this
      ensures Valid() && cursor == old(cursor) && msg[..cursor] == old(msg[..cursor])
      ensures var m := MatchFormat(ds, old(Rest()));
              status == m.status && caps == m.caps && Rest() == old(Rest())[m.n..]
    {
      hide MatchFormat;
      var save := cursor;
      status, caps := Vfmatch(ds);
      assert msg[cursor..] == old(Rest())[cursor - save..];
      if status == Ok {
        Discard(save);
      }
    }

    /** Moves over n octets of data and deletes the match behind them, or stays
        where it is when there is none. */
    method KeepThenDelete(n: nat, ds: seq<Directive>) returns (status: Status)
      requires Valid() && n <= |Rest()|
      modifies this
      ensures Valid() && status == MatchFormat(ds, old(Rest())[n..]).status
      ensures status != Ok ==> msg == old(msg) && cursor == old(cursor)
      ensures status == Ok ==>
                && cursor == old(cursor) + n && msg[..cursor] == old(msg[..cursor]) + old(Rest())[..n]
                && Rest() == old(Rest())[n..][MatchFormat(ds, old(Rest())[n..]).n..]
    {
      hide MatchFormat;
      ghost var r := Rest();
      cursor := cursor + n;
      assert Rest() == r[n..] && msg[..cursor] == old(msg[..cursor]) + r[..n];
      var save := cursor;
      var caps;
      status, caps := Vfmatch(ds);
      if status != Ok {
        cursor := cursor - n;
        return;
      }
      assert msg[cursor..] == r[n..][MatchFormat(ds, r[n..]).n..];
      Discard(save);
    }
  }

  /** The trimming loop at the end of match_raw_value. */
  method TrimTail(s: seq<Byte>) returns (t: seq<Byte>)
    ensures t == TrimRight(s)
  {
    var n := |s|;
    while n > 0 && IsTrimmed(s[n - 1])
      invariant 0 <= n <= |s|
      invariant forall k :: n <= k < |s| ==> IsTrimmed(s[k])
    {
      n := n - 1;
    }
    t := s[..n];
    ghost var u := TrimRight(s);
    assert u != [] ==> u[|u| - 1] == s[|u| - 1];
    assert |u| == n;
  }
}
