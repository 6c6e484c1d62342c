/** The two name tables of httpparser.c and why the binary search may use them. */
module HttpTables {
  import opened Bytes
  import opened StrIntMap

  function Octets(s: string): (t: seq<Byte>)
    ensures |t| == |s|
    ensures forall i :: 0 <= i < |s| ==> t[i] == s[i] as int % 256
  {
    seq(|s|, i requires 0 <= i < |s| => s[i] as int % 256)
  }

  predicate Plain(s: string) {
    forall i :: 0 <= i < |s| ==> 0 < s[i] as int < 128
  }

  function Named(name: string, id: int): Entry {
    Entry(Octets(name), id)
  }

  const HDR_UNKNOWN := -1
  const HDR_CONTENT_LENGTH := 3
  const HDR_TRANSFER_ENCODING := 22

  function HeaderNameA(i: nat): (s: string)
    requires 0 <= i < 9
    ensures Plain(s)
  {
    match i
    case 0 => "ACCEPT"
    case 1 => "ACCEPT-CHARSET"
    case 2 => "ACCEPT-ENCODING"
    case 3 => "ACCEPT-LANGUAGE"
    case 4 => "ACCEPT-RANGES"
    case 5 => "CACHE-CONTROL"
    case 6 => "CALLBACK"
    case 7 => "CONTENT-ENCODING"
    case 8 => "CONTENT-LANGUAGE"
  }

  function HeaderNameB(i: nat): (s: string)
    requires 9 <= i < 18
    ensures Plain(s)
  {
    match i
    case 9 => "CONTENT-LENGTH"
    case 10 => "CONTENT-LOCATION"
    case 11 => "CONTENT-RANGE"
    case 12 => "CONTENT-TYPE"
    case 13 => "DATE"
    case 14 => "DT"
    case 15 => "EXT"
    case 16 => "HOST"
    case 17 => "IF-RANGE"
  }

  function HeaderNameC(i: nat): (s: string)
    requires 18 <= i < 27
    ensures Plain(s)
  {
    match i
    case 18 => "LOCATION"
    case 19 => "MAN"
    case 20 => "MX"
    case 21 => "NT"
    case 22 => "NTS"
    case 23 => "RANGE"
    case 24 => "SEQ"
    case 25 => "SERVER"
    case 26 => "SID"
  }

  function HeaderNameD(i: nat): (s: string)
    requires 27 <= i < 34
    ensures Plain(s)
  {
    match i
    case 27 => "SOAPACTION"
    case 28 => "ST"
    case 29 => "TE"
    case 30 => "TIMEOUT"
    case 31 => "TRANSFER-ENCODING"
    case 32 => "UID"
    case 33 => "USER-AGENT"
  }

  /** Http_Header_Names */
  function HeaderName(i: nat): (s: string)
    requires i < 34
    ensures Plain(s)
  {
    if i < 9 then HeaderNameA(i) else if i < 18 then HeaderNameB(i)
    else if i < 27 then HeaderNameC(i) else HeaderNameD(i)
  }

  function HeaderNumber(i: nat): int
    requires i < 34
  {
    [25, 27, 26, 28, 29, 1, 2, 30, 31, 3, 32, 33, 4, 5, 23, 6, 7,
     34, 11, 12, 13, 14, 15, 35, 17, 16, 18, 19, 20, 36, 21, 22, 37, 24][i]
  }

  function HeaderNames(): (t: seq<Entry>)
    ensures |t| == 34
  {
    seq(34, i requires 0 <= i < 34 => Named(HeaderName(i), HeaderNumber(i)))
  }

  /** Http_Method_Table; its last entry is out of order. */
  function MethodName(i: nat): (s: string)
    requires i < 9
    ensures Plain(s)
  {
    match i
    case 0 => "GET"
    case 1 => "HEAD"
    case 2 => "M-POST"
    case 3 => "M-SEARCH"
    case 4 => "NOTIFY"
    case 5 => "POST"
    case 6 => "SUBSCRIBE"
    case 7 => "UNSUBSCRIBE"
    case 8 => "POST"
  }

  function MethodNames(): (t: seq<Entry>)
    ensures |t| == 9
  {
    seq(9, i requires 0 <= i < 9 => Named(MethodName(i), [5, 6, 1, 7, 4, 0, 2, 3, 9][i]))
  }

  lemma Differ(a: string, b: string, k: nat, cs: bool)
    requires k <= |a| && k < |b| && a[..k] == b[..k]
    requires k == |a| || Fold(a[k] as int % 256, cs) < Fold(b[k] as int % 256, cs)
    ensures FoldedLess(Octets(a), Octets(b), cs)
  {
    forall i | 0 <= i < k ensures a[i] == b[i] {
      assert a[..k][i] == b[..k][i];
    }
    assert LexLessAt(FoldAll(Octets(a), cs), FoldAll(Octets(b), cs), k);
  }

  ghost predicate InOrder(table: seq<Entry>, lo: nat, hi: nat, cs: bool)
    requires lo <= hi < |table|
  {
    forall i :: lo <= i < hi ==> FoldedLess(table[i].name, table[i + 1].name, cs)
  }

  lemma {:induction false} InOrderPair(table: seq<Entry>, n: nat, i: nat, j: nat, cs: bool)
    requires i < j <= n < |table| && InOrder(table, 0, n, cs)
    ensures FoldedLess(table[i].name, table[j].name, cs)
    decreases j
  {
    if i + 1 < j {
      InOrderPair(table, n, i, j - 1, cs);
      assert FoldedLess(table[j - 1].name, table[j - 1 + 1].name, cs);
      LexTransitive(FoldAll(table[i].name, cs), FoldAll(table[j - 1].name, cs), FoldAll(table[j].name, cs));
    }
  }

  lemma HeaderNamesInOrderA(i: nat)
    requires 0 <= i < 9
    ensures FoldedLess(Octets(HeaderName(i)), Octets(HeaderName(i + 1)), false)
  {
    hide FoldedLess;
    match i
    case 0 => Differ("ACCEPT", "ACCEPT-CHARSET", 6, false);
    case 1 => Differ("ACCEPT-CHARSET", "ACCEPT-ENCODING", 7, false);
    case 2 => Differ("ACCEPT-ENCODING", "ACCEPT-LANGUAGE", 7, false);
    case 3 => Differ("ACCEPT-LANGUAGE", "ACCEPT-RANGES", 7, false);
    case 4 => Differ("ACCEPT-RANGES", "CACHE-CONTROL", 0, false);
    case 5 => Differ("CACHE-CONTROL", "CALLBACK", 2, false);
    case 6 => Differ("CALLBACK", "CONTENT-ENCODING", 1, false);
    case 7 => Differ("CONTENT-ENCODING", "CONTENT-LANGUAGE", 8, false);
    case 8 => Differ("CONTENT-LANGUAGE", "CONTENT-LENGTH", 9, false);
  }

  lemma HeaderNamesInOrderB(i: nat)
    requires 9 <= i < 18
    ensures FoldedLess(Octets(HeaderName(i)), Octets(HeaderName(i + 1)), false)
  {
    hide FoldedLess;
    match i
    case 9 => Differ("CONTENT-LENGTH", "CONTENT-LOCATION", 9, false);
    case 10 => Differ("CONTENT-LOCATION", "CONTENT-RANGE", 8, false);
    case 11 => Differ("CONTENT-RANGE", "CONTENT-TYPE", 8, false);
    case 12 => Differ("CONTENT-TYPE", "DATE", 0, false);
    case 13 => Differ("DATE", "DT", 1, false);
    case 14 => Differ("DT", "EXT", 0, false);
    case 15 => Differ("EXT", "HOST", 0, false);
    case 16 => Differ("HOST", "IF-RANGE", 0, false);
    case 17 => Differ("IF-RANGE", "LOCATION", 0, false);
  }

  lemma HeaderNamesInOrderC(i: nat)
    requires 18 <= i < 27
    ensures FoldedLess(Octets(HeaderName(i)), Octets(HeaderName(i + 1)), false)
  {
    hide FoldedLess;
    match i
    case 18 => Differ("LOCATION", "MAN", 0, false);
    case 19 => Differ("MAN", "MX", 1, false);
    case 20 => Differ("MX", "NT", 0, false);
    case 21 => Differ("NT", "NTS", 2, false);
    case 22 => Differ("NTS", "RANGE", 0, false);
    case 23 => Differ("RANGE", "SEQ", 0, false);
    case 24 => Differ("SEQ", "SERVER", 2, false);
    case 25 => Differ("SERVER", "SID", 1, false);
    case 26 => Differ("SID", "SOAPACTION", 1, false);
  }

  lemma HeaderNamesInOrderD(i: nat)
    requires 27 <= i < 33
    ensures FoldedLess(Octets(HeaderName(i)), Octets(HeaderName(i + 1)), false)
  {
    hide FoldedLess;
    match i
    case 27 => Differ("SOAPACTION", "ST", 1, false);
    case 28 => Differ("ST", "TE", 0, false);
    case 29 => Differ("TE", "TIMEOUT", 1, false);
    case 30 => Differ("TIMEOUT", "TRANSFER-ENCODING", 1, false);
    case 31 => Differ("TRANSFER-ENCODING", "UID", 0, false);
    case 32 => Differ("UID", "USER-AGENT", 1, false);
  }

  lemma HeaderNamesInOrder()
    ensures NamesNulFree(HeaderNames())
    ensures InOrder(HeaderNames(), 0, 33, false)
  {
    hide FoldedLess, HeaderName;
    forall i | 0 <= i < 33 ensures FoldedLess(HeaderNames()[i].name, HeaderNames()[i + 1].name, false) {
      if i < 9 { HeaderNamesInOrderA(i); } else if i < 18 { HeaderNamesInOrderB(i); }
      else if i < 27 { HeaderNamesInOrderC(i); } else { HeaderNamesInOrderD(i); }
    }
  }

  /** The header table is sorted, and no two names in it are the same. */
  lemma HeaderNamesSearchable()
    ensures Searchable(HeaderNames(), false)
    ensures forall i, j :: 0 <= i < j < |HeaderNames()| ==>
              !FoldedEqual(HeaderNames()[i].name, HeaderNames()[j].name, false)
  {
    hide LexLess, FoldAll;
    HeaderNamesInOrder();
    forall i, j | 0 <= i < j < |HeaderNames()|
      ensures FoldedLess(HeaderNames()[i].name, HeaderNames()[j].name, false)
      ensures !FoldedEqual(HeaderNames()[i].name, HeaderNames()[j].name, false)
    {
      InOrderPair(HeaderNames(), 33, i, j, false);
      LexAsymmetric(FoldAll(HeaderNames()[i].name, false), FoldAll(HeaderNames()[j].name, false));
    }
  }

  lemma MethodNamesInOrder(i: nat)
    requires i < 7
    ensures FoldedLess(Octets(MethodName(i)), Octets(MethodName(i + 1)), true)
  {
    hide FoldedLess;
    match i
    case 0 => Differ("GET", "HEAD", 0, true);
    case 1 => Differ("HEAD", "M-POST", 0, true);
    case 2 => Differ("M-POST", "M-SEARCH", 2, true);
    case 3 => Differ("M-SEARCH", "NOTIFY", 0, true);
    case 4 => Differ("NOTIFY", "POST", 0, true);
    case 5 => Differ("POST", "SUBSCRIBE", 0, true);
    case 6 => Differ("SUBSCRIBE", "UNSUBSCRIBE", 0, true);
  }

  lemma MethodNamesLast()
    ensures MethodNames()[5].name == MethodNames()[8].name
    ensures FoldedLess(MethodNames()[8].name, MethodNames()[7].name, true)
  {
    Differ("POST", "UNSUBSCRIBE", 0, true);
  }

  /** The method table is not sorted, yet searching it is exact: the misplaced
      last entry repeats an earlier name. */
  lemma MethodNamesSearchable()
    ensures !SortedUpTo(MethodNames(), |MethodNames()|, true)
    ensures Searchable(MethodNames(), true)
    ensures NamesNulFree(MethodNames())
  {
    hide LexLess, MethodName, FoldAll;
    forall i | 0 <= i < 7 ensures FoldedLess(MethodNames()[i].name, MethodNames()[i + 1].name, true) {
      MethodNamesInOrder(i);
    }
    forall i, j | 0 <= i < j < 8 ensures FoldedLess(MethodNames()[i].name, MethodNames()[j].name, true) {
      InOrderPair(MethodNames(), 7, i, j, true);
    }
    MethodNamesLast();
    assert FoldedEqual(MethodNames()[5].name, MethodNames()[8].name, true);
    LexAsymmetric(FoldAll(MethodNames()[8].name, true), FoldAll(MethodNames()[7].name, true));
  }
}
