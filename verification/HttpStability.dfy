/** What a scan of a partly loaded message decided stays decided when more octets
    arrive: for every scan and every pattern only "incomplete" is provisional. */
module HttpStability {
  import opened Bytes
  import opened HttpScanner

  lemma SuffixOfLonger(r: seq<Byte>, e: seq<Byte>, i: nat)
    requires i <= |r|
    ensures (r + e)[i..] == r[i..] + e
  {
  }

  lemma TokenStableAt(r: seq<Byte>, e: seq<Byte>, i: nat)
    requires i <= |r| && NextToken(r[i..]) != NeedMore
    ensures NextToken((r + e)[i..]) == NextToken(r[i..])
  {
    SuffixOfLonger(r, e, i);
    TokenStable(r[i..], e);
  }

  lemma {:induction false} SkipBlankLinesStable(r: seq<Byte>, e: seq<Byte>, i: nat)
    requires i <= |r| && SkipBlankLines(r, i).status != Incomplete
    ensures SkipBlankLines(r + e, i) == SkipBlankLines(r, i)
    decreases |r| - i
  {
    hide NextToken;
    TokenStableAt(r, e, i);
    match NextToken(r[i..])
    case Token(n, k) =>
      if k == Whitespace || k == Crlf { SkipBlankLinesStable(r, e, i + n); }
    case _ =>
  }

  /** Skipping can be resumed where it stopped for want of input. */
  lemma {:induction false} SkipBlankLinesResumes(r: seq<Byte>, e: seq<Byte>, i: nat)
    requires i <= |r| && SkipBlankLines(r, i).status == Incomplete
    ensures SkipBlankLines(r + e, i) == SkipBlankLines(r + e, SkipBlankLines(r, i).n)
    decreases |r| - i
  {
    hide NextToken;
    if NextToken(r[i..]).Token? {
      TokenStableAt(r, e, i);
      SkipBlankLinesResumes(r, e, i + NextToken(r[i..]).len);
    }
  }

  lemma SuffixOfSuffix(r: seq<Byte>, k: nat, i: nat)
    requires k + i <= |r|
    ensures r[k..][i..] == r[k + i..]
  {
  }

  /** The scan depends on the unread octets only. */
  lemma {:induction false} SkipBlankLinesShift(r: seq<Byte>, k: nat, i: nat)
    requires k + i <= |r|
    ensures SkipBlankLines(r, k + i).n == k + SkipBlankLines(r[k..], i).n
    ensures SkipBlankLines(r, k + i).status == SkipBlankLines(r[k..], i).status
    decreases |r| - i
  {
    hide NextToken;
    var u := r[k..];
    SuffixOfSuffix(r, k, i);
    var t := NextToken(u[i..]);
    if t.Token? && (t.kind == Whitespace || t.kind == Crlf) {
      SkipBlankLinesShift(r, k, i + t.len);
      assert k + i + t.len == k + (i + t.len);
    }
  }

  lemma {:induction false} SkipLwsStable(r: seq<Byte>, e: seq<Byte>, i: nat)
    requires i <= |r| && SkipLws(r, i).status != Incomplete
    ensures SkipLws(r + e, i) == SkipLws(r, i)
    decreases |r| - i
  {
    hide NextToken;
    TokenStableAt(r, e, i);
    var t := NextToken(r[i..]);
    if t.Token? && t.kind == Whitespace {
      SkipLwsStable(r, e, i + t.len);
    } else if t.Token? && t.kind == Crlf {
      var j := i + t.len;
      TokenStableAt(r, e, j);
      var u := NextToken(r[j..]);
      if u.Token? && u.kind == Whitespace { SkipLwsStable(r, e, j + u.len); }
    }
  }

  lemma {:induction false} NonBlankRunStable(r: seq<Byte>, e: seq<Byte>, i: nat)
    requires i <= |r| && NonBlankRun(r, i).status != Incomplete
    ensures NonBlankRun(r + e, i) == NonBlankRun(r, i)
    decreases |r| - i
  {
    hide NextToken;
    TokenStableAt(r, e, i);
    match NextToken(r[i..])
    case Token(n, k) =>
      if k != Whitespace && k != Crlf { NonBlankRunStable(r, e, i + n); }
    case _ =>
  }

  lemma {:induction false} UntilCrlfStable(r: seq<Byte>, e: seq<Byte>, i: nat)
    requires i <= |r| && UntilCrlf(r, i).status != Incomplete
    ensures UntilCrlf(r + e, i) == UntilCrlf(r, i)
    decreases |r| - i
  {
    hide NextToken;
    TokenStableAt(r, e, i);
    match NextToken(r[i..])
    case Token(n, k) => if k != Crlf { UntilCrlfStable(r, e, i + n); }
    case _ =>
  }

  lemma {:induction false} RawScanStable(r: seq<Byte>, e: seq<Byte>, i: nat, saw: bool, crlf: nat)
    requires crlf <= i <= |r| && RawScan(r, i, saw, crlf).status != Incomplete
    ensures RawScan(r + e, i, saw, crlf) == RawScan(r, i, saw, crlf)
    decreases |r| - i
  {
    hide NextToken;
    TokenStableAt(r, e, i);
    match NextToken(r[i..])
    case Token(n, k) =>
      if !saw {
        if k == Crlf { RawScanStable(r, e, i + n, true, i); } else { RawScanStable(r, e, i + n, false, crlf); }
      } else if k == Whitespace {
        RawScanStable(r, e, i + n, false, crlf);
      }
    case _ =>
  }

  // ----- numbers: strtol never looks past the identifier it starts on

  lemma IdentifierOctets(r: seq<Byte>)
    requires NextToken(r).Token? && NextToken(r).kind == Identifier
    ensures var n := NextToken(r).len;
            n < |r| && !IsIdentifier(r[n]) && forall k :: 0 <= k < n ==> IsIdentifier(r[k])
  {
  }

  /** Two runs of digits that agree up to a common non-digit end together. */
  lemma DigitsEndUnique(a: seq<Byte>, b: seq<Byte>, i: nat, base: nat, n: nat)
    requires i <= n <= |a| && n <= |b| && a[..n] == b[..n]
    requires n < |a| ==> DigitValue(a[n], base) == -1
    requires n < |b| ==> DigitValue(b[n], base) == -1
    ensures DigitsEnd(a, i, base) == DigitsEnd(b, i, base) <= n
  {
    var x, y := DigitsEnd(a, i, base), DigitsEnd(b, i, base);
    forall k | 0 <= k < n ensures a[k] == b[k] {
      assert a[..n][k] == b[..n][k];
    }
  }

  lemma SliceOfPrefix(r: seq<Byte>, n: nat, c: nat, d: nat)
    requires c <= d <= n <= |r|
    ensures r[..n][c..d] == r[c..d]
  {
  }

  /** strtol on the buffer is strtol on the token alone. */
  lemma StrToLToken(r: seq<Byte>, base: nat)
    requires base == 10 || base == 16
    requires NextToken(r).Token? && NextToken(r).kind == Identifier
    ensures StrToL(r, base) == StrToL(r[..NextToken(r).len], base)
  {
    IdentifierOctets(r);
    var n := NextToken(r).len;
    var t := r[..n];
    assert SkipSpaces(r, 0) == 0 && SkipSpaces(t, 0) == 0;
    var b := AfterSign(r, 0);
    assert b == AfterSign(t, 0);
    assert AfterHexPrefix(r, b, base) == AfterHexPrefix(t, b, base);
    var c := AfterHexPrefix(r, b, base);
    DigitsEndUnique(r, t, c, base, n);
    var d := DigitsEnd(r, c, base);
    SliceOfPrefix(r, n, c, d);
  }

  // ----- patterns

  ghost predicate WellFormed(ds: seq<Directive>) {
    forall d :: d in ds && d.Number? ==> d.base == 10 || d.base == 16
  }

  lemma MatchIntStable(r: seq<Byte>, e: seq<Byte>, base: nat)
    requires base == 10 || base == 16
    requires MatchInt(r, base).status != Incomplete
    ensures MatchInt(r + e, base) == MatchInt(r, base)
  {
    hide StrToL, NextToken;
    TokenStable(r, e);
    if NextToken(r).Token? && NextToken(r).kind == Identifier {
      StrToLToken(r, base);
      StrToLToken(r + e, base);
      var n := NextToken(r).len;
      assert (r + e)[..n] == r[..n];
    }
  }

  lemma MatchTokenStable(r: seq<Byte>, e: seq<Byte>, kind: TokenType, capture: bool)
    requires MatchToken(r, kind, capture).status != Incomplete
    ensures MatchToken(r + e, kind, capture) == MatchToken(r, kind, capture)
  {
    TokenStable(r, e);
    if NextToken(r).Token? {
      assert (r + e)[..NextToken(r).len] == r[..NextToken(r).len];
    }
  }

  lemma MatchOneStable(d: Directive, r: seq<Byte>, e: seq<Byte>, caseSensitive: bool)
    requires d.Number? ==> d.base == 10 || d.base == 16
    requires MatchOne(d, r, caseSensitive).status != Incomplete
    ensures MatchOne(d, r + e, caseSensitive) == MatchOne(d, r, caseSensitive)
  {
    hide NextToken, MatchInt;
    match d
    case IgnoreCase =>
    case MatchCase =>
    case Lit(c) => assert r != [] && (r + e)[0] == r[0];
    case OptWs => TokenStable(r, e);
    case Ws => MatchTokenStable(r, e, Whitespace, false);
    case Lws => SkipLwsStable(r, e, 0);
    case LineEnd => MatchTokenStable(r, e, Crlf, false);
    case Ident => MatchTokenStable(r, e, Identifier, true);
    case Quoted => MatchTokenStable(r, e, QuotedString, true);
    case NonWs =>
      NonBlankRunStable(r, e, 0);
      assert (r + e)[..NonBlankRun(r, 0).n] == r[..NonBlankRun(r, 0).n];
    case Line =>
      UntilCrlfStable(r, e, 0);
      assert (r + e)[..UntilCrlf(r, 0).n] == r[..UntilCrlf(r, 0).n];
    case RawValue =>
      RawScanStable(r, e, 0, false, 0);
      assert (r + e)[..RawScan(r, 0, false, 0).len] == r[..RawScan(r, 0, false, 0).len];
    case Number(base) => MatchIntStable(r, e, base);
  }

  /** A directive that wants more input has captured nothing. */
  lemma IncompleteCapturesNothing(d: Directive, r: seq<Byte>, caseSensitive: bool)
    requires MatchOne(d, r, caseSensitive).status == Incomplete
    ensures MatchOne(d, r, caseSensitive).caps == []
  {
  }

  /** Every pattern: a verdict on part of the input is the verdict on all of it,
      and a match that wants more has captured a prefix of what it will capture. */
  lemma {:induction false} VfMatchStable(
      ds: seq<Directive>, r: seq<Byte>, e: seq<Byte>, i: nat, caps: seq<Capture>, cs: bool)
    requires i <= |r| && WellFormed(ds)
    ensures VfMatch(ds, r, i, caps, cs).caps <= VfMatch(ds, r + e, i, caps, cs).caps
    ensures VfMatch(ds, r, i, caps, cs).status != Incomplete ==>
              VfMatch(ds, r + e, i, caps, cs) == VfMatch(ds, r, i, caps, cs)
    decreases |ds|
  {
    hide MatchOne;
    if ds != [] {
      SuffixOfLonger(r, e, i);
      var u := r[i..];
      var one := MatchOne(ds[0], u, cs);
      if one.status == Incomplete {
        IncompleteCapturesNothing(ds[0], u, cs);
        assert VfMatch(ds, r, i, caps, cs).caps == caps;
      } else {
        MatchOneStable(ds[0], u, e, cs);
        if one.status == Ok {
          VfMatchStable(ds[1..], r, e, i + one.n, caps + one.caps, NextCase(ds[0], cs));
        }
      }
    }
  }

  lemma MatchFormatStable(ds: seq<Directive>, r: seq<Byte>, e: seq<Byte>)
    requires WellFormed(ds)
    ensures MatchFormat(ds, r).caps <= MatchFormat(ds, r + e).caps
    ensures MatchFormat(ds, r).status != Incomplete ==> MatchFormat(ds, r + e) == MatchFormat(ds, r)
  {
    VfMatchStable(ds, r, e, 0, [], true);
  }
}
