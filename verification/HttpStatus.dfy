/** What the parser reads out of a well-formed status line: the two version numbers,
    the code and the phrase. */
module HttpStatus {
  import opened Bytes
  import opened HttpScanner
  import opened StrIntMap
  import opened HttpMessage
  import opened Wrappers

  /** 1*DIGIT that denotes n. */
  ghost predicate Denotes(digits: seq<Byte>, n: nat) {
    digits != [] && (forall k :: 0 <= k < |digits| ==> IsDigit(digits[k])) && Numeral(digits, 10) == n
  }

  ghost predicate AreBlanks(s: seq<Byte>) {
    s != [] && forall k :: 0 <= k < |s| ==> IsBlank(s[k])
  }

  /** One number: digits behind any white space. */
  lemma ScanDigits(s: seq<Byte>, i: nat, start: nat, d: seq<Byte>, n: nat)
    requires i <= start <= start + |d| <= |s| && s[start..start + |d|] == d && Denotes(d, n) && n < 0x8000_0000
    requires (forall k :: i <= k < start ==> IsSpace(s[k])) && (start + |d| < |s| ==> !IsDigit(s[start + |d|]))
    ensures ScanField(s, i) == Some(Field(start, start + |d|, n))
  {
    hide Numeral;
    assert forall k :: 0 <= k < |d| ==> s[start + k] == d[k];
    assert IsDigit(s[start]);
    assert SkipSpaces(s, i) == start;
    assert AfterSign(s, start) == start;
    DigitsStop(s, start, start + |d|);
  }

  lemma DigitsStop(s: seq<Byte>, start: nat, end: nat)
    requires start <= end <= |s| && (forall k :: start <= k < end ==> IsDigit(s[k])) && (end < |s| ==> !IsDigit(s[end]))
    ensures DigitsEnd(s, start, 10) == end
    decreases end - start
  {
    if start < end {
      DigitsStop(s, start + 1, end);
    }
  }

  lemma NulFreeIsCString(s: seq<Byte>)
    requires NulFree(s)
    ensures CString(s) == s
  {
  }

  /** a.b, blanks, code, blanks and a phrase. */
  function StatusOf(
      a: seq<Byte>, b: seq<Byte>, s: seq<Byte>, c: seq<Byte>, t: seq<Byte>, phrase: seq<Byte>): seq<Byte>
  {
    a + ([46] + (b + (s + (c + (t + phrase)))))
  }

  lemma Pieces(
      a: seq<Byte>, b: seq<Byte>, s: seq<Byte>, c: seq<Byte>, t: seq<Byte>, phrase: seq<Byte>, v: seq<Byte>)
    requires v == StatusOf(a, b, s, c, t, phrase) && s != [] && t != []
    ensures var (i, j) := (|a| + 1 + |b|, |a| + 1 + |b| + |s|);
            var k := j + |c|;
            && |v| == k + |t| + |phrase|
            && v[0..|a|] == a && v[|a|] == 46 && v[|a| + 1..i] == b && v[i] == s[0]
            && v[i..j] == s && v[j..k] == c && v[k] == t[0] && v[k..k + |t|] == t && v[k + |t|..] == phrase
  {
    var (i, j) := (|a| + 1 + |b|, |a| + 1 + |b| + |s|);
    assert v == a + [46] + b + s + c + t + phrase;
    assert v[i..] == s + (c + (t + phrase));
    assert v[j..] == c + (t + phrase);
    assert v[j + |c|..] == t + phrase;
  }

  /** The numbers and the phrase of a status line are just those that it spells. */
  lemma StatusIs(
      a: seq<Byte>, b: seq<Byte>, s: seq<Byte>, c: seq<Byte>, t: seq<Byte>, phrase: seq<Byte>,
      major: nat, minor: nat, code: nat)
    requires Denotes(a, major) && Denotes(b, minor) && Denotes(c, code) && AreBlanks(s) && AreBlanks(t)
    requires major < 0x8000_0000 && minor < 0x8000_0000 && code < 0x8000_0000
    requires NulFree(phrase) && (phrase != [] ==> !IsBlank(phrase[0]))
    ensures ParseStatusLine(StatusOf(a, b, s, c, t, phrase)) == Some(StatusLine(major, minor, code, phrase))
  {
    hide Denotes, AreBlanks, StatusOf, ScanVersionAndCode;
    var v := StatusOf(a, b, s, c, t, phrase);
    SomeBlanks(s);
    SomeBlanks(t);
    Pieces(a, b, s, c, t, phrase, v);
    OnlyDigits(a, major);
    OnlyDigits(b, minor);
    OnlyDigits(c, code);
    AllNulFree(a, b, s, c, t, phrase, v);
    var (i, j) := (|a| + 1 + |b|, |a| + 1 + |b| + |s|);
    var k := j + |c|;
    ScansNumbers(v, a, b, s, c, major, minor, code);
    BlanksStop(v, k, k + |t|, t);
  }

  lemma SomeBlanks(s: seq<Byte>)
    requires AreBlanks(s)
    ensures s != [] && IsBlank(s[0])
  {
  }

  lemma OnlyDigits(d: seq<Byte>, n: nat)
    requires Denotes(d, n)
    ensures forall k :: 0 <= k < |d| ==> IsDigit(d[k])
  {
  }

  lemma ScansNumbers(
      v: seq<Byte>, a: seq<Byte>, b: seq<Byte>, s: seq<Byte>, c: seq<Byte>, major: nat, minor: nat, code: nat)
    requires NulFree(v) && |v| >= |a| + 1 + |b| + |s| + |c|
    requires Denotes(a, major) && Denotes(b, minor) && Denotes(c, code) && AreBlanks(s)
    requires major < 0x8000_0000 && minor < 0x8000_0000 && code < 0x8000_0000
    requires var (i, j) := (|a| + 1 + |b|, |a| + 1 + |b| + |s|);
             && v[0..|a|] == a && v[|a|] == 46 && v[|a| + 1..i] == b && v[i..j] == s && v[i] == s[0]
             && v[j..j + |c|] == c && (j + |c| < |v| ==> !IsDigit(v[j + |c|]))
    ensures var (i, j) := (|a| + 1 + |b|, |a| + 1 + |b| + |s|);
            ScanVersionAndCode(v) == Some((Field(0, |a|, major), Field(|a| + 1, i, minor), Field(j, j + |c|, code)))
  {
    hide Denotes, ScanField, SkipSpaces, CString;
    NulFreeIsCString(v);
    var (i, j) := (|a| + 1 + |b|, |a| + 1 + |b| + |s|);
    ScanDigits(v, 0, 0, a, major);
    NoSpaces(v, |a|);
    ScanDigits(v, |a| + 1, |a| + 1, b, minor);
    assert forall l :: i <= l < j ==> v[l] == s[l - i];
    ScanDigits(v, i, j, c, code);
  }

  /** Without a blank behind the code it is no status line. */
  lemma StatusNeedsBlank(
      v: seq<Byte>, a: seq<Byte>, b: seq<Byte>, s: seq<Byte>, c: seq<Byte>, major: nat, minor: nat, code: nat)
    requires NulFree(v) && a + [46] + b + s + c <= v
    requires Denotes(a, major) && Denotes(b, minor) && Denotes(c, code) && AreBlanks(s)
    requires major < 0x8000_0000 && minor < 0x8000_0000 && code < 0x8000_0000
    requires var k := |a| + 1 + |b| + |s| + |c|; k < |v| ==> !IsDigit(v[k]) && !IsBlank(v[k])
    ensures ParseStatusLine(v).None?
  {
    hide Denotes, AreBlanks, ScanVersionAndCode;
    SomeBlanks(s);
    var (i, j) := (|a| + 1 + |b|, |a| + 1 + |b| + |s|);
    Prefixes(v, a, b, s, c);
    ScansNumbers(v, a, b, s, c, major, minor, code);
  }

  lemma Prefixes(v: seq<Byte>, a: seq<Byte>, b: seq<Byte>, s: seq<Byte>, c: seq<Byte>)
    requires a + [46] + b + s + c <= v && s != []
    ensures var (i, j) := (|a| + 1 + |b|, |a| + 1 + |b| + |s|);
            && j + |c| <= |v| && v[0..|a|] == a && v[|a|] == 46 && v[|a| + 1..i] == b && v[i..j] == s
            && v[i] == s[0] && v[j..j + |c|] == c
  {
    var (i, j) := (|a| + 1 + |b|, |a| + 1 + |b| + |s|);
    var t := a + [46] + b + s + c;
    assert v[..|t|] == t;
    assert t[i..j] == s && t[j..] == c && t[|a| + 1..i] == b && t[..|a|] == a;
    assert v[i..j] == t[i..j] && v[j..j + |c|] == t[j..] && v[|a| + 1..i] == t[|a| + 1..i] && v[0..|a|] == t[..|a|];
    assert v[i] == t[i] && v[|a|] == t[|a|];
  }

  lemma NoSpaces(v: seq<Byte>, i: nat)
    requires i < |v| && !IsSpace(v[i])
    ensures SkipSpaces(v, i) == i
  {
  }

  lemma BlanksStop(v: seq<Byte>, i: nat, end: nat, t: seq<Byte>)
    requires i <= end <= |v| && v[i..end] == t && AreBlanks(t) && (end < |v| ==> !IsBlank(v[end]))
    ensures SkipBlanksFrom(v, i) == end && i < |v| && IsBlank(v[i])
  {
    assert forall k :: i <= k < end ==> v[k] == t[k - i];
  }

  lemma AllNulFree(
      a: seq<Byte>, b: seq<Byte>, s: seq<Byte>, c: seq<Byte>, t: seq<Byte>, phrase: seq<Byte>, v: seq<Byte>)
    requires (forall k :: 0 <= k < |a| ==> IsDigit(a[k])) && (forall k :: 0 <= k < |b| ==> IsDigit(b[k]))
    requires (forall k :: 0 <= k < |c| ==> IsDigit(c[k])) && AreBlanks(s) && AreBlanks(t) && NulFree(phrase)
    requires v == StatusOf(a, b, s, c, t, phrase)
    ensures NulFree(v)
  {
  }
}
