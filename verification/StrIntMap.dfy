/** strintmap.c over memptr_cmp and memptr_cmp_nocase of membuffer.c: a binary
    search whose order is the lexicographic order of (folded) octets. */
module StrIntMap {
  import opened Bytes

  datatype Entry = Entry(name: seq<Byte>, id: int)

  function Fold(c: Byte, caseSensitive: bool): Byte {
    if caseSensitive then c else ToLower(c)
  }

  function FoldAll(s: seq<Byte>, caseSensitive: bool): (t: seq<Byte>)
    ensures |t| == |s|
    ensures forall i :: 0 <= i < |s| ==> t[i] == Fold(s[i], caseSensitive)
  {
    seq(|s|, i requires 0 <= i < |s| => Fold(s[i], caseSensitive))
  }

  /** strncmp and strncasecmp of the |a| octets of a with the C string s. */
  function StrNCmp(a: seq<Byte>, s: seq<Byte>, caseSensitive: bool, i: nat): int
    requires i <= |a| && i <= |s|
    decreases |a| - i
  {
    if i == |a| then 0
    else
      var x := Fold(a[i], caseSensitive);
      var y := if i < |s| then Fold(s[i], caseSensitive) else 0;
      if x != y then x - y
      else if x == 0 || i == |s| then 0
      else StrNCmp(a, s, caseSensitive, i + 1)
  }

  /** memptr_cmp and memptr_cmp_nocase */
  function MemptrCmp(a: seq<Byte>, s: seq<Byte>, caseSensitive: bool): int {
    var cmp := StrNCmp(a, s, caseSensitive, 0);
    if cmp == 0 && |a| < |s| then -1 else cmp
  }

  predicate NulFree(s: seq<Byte>) {
    forall i :: 0 <= i < |s| ==> s[i] != 0
  }

  /** What precedes the first NUL: the C string a buffer holds. */
  function CString(s: seq<Byte>): (t: seq<Byte>)
    ensures t <= s && NulFree(t)
    ensures |t| < |s| ==> s[|t|] == 0
  {
    if s == [] || s[0] == 0 then [] else [s[0]] + CString(s[1..])
  }

  // ----- lexicographic order

  /** a comes before b: they agree on k octets, then a ends or is smaller. */
  ghost predicate LexLessAt(a: seq<Byte>, b: seq<Byte>, k: nat) {
    && k <= |a| && k < |b|
    && a[..k] == b[..k]
    && (k == |a| || a[k] < b[k])
  }

  ghost predicate LexLess(a: seq<Byte>, b: seq<Byte>) {
    exists k: nat :: LexLessAt(a, b, k)
  }

  ghost predicate FoldedLess(a: seq<Byte>, b: seq<Byte>, caseSensitive: bool) {
    LexLess(FoldAll(a, caseSensitive), FoldAll(b, caseSensitive))
  }

  ghost predicate FoldedEqual(a: seq<Byte>, b: seq<Byte>, caseSensitive: bool) {
    FoldAll(a, caseSensitive) == FoldAll(b, caseSensitive)
  }

  lemma LexTransitive(a: seq<Byte>, b: seq<Byte>, c: seq<Byte>)
    requires LexLess(a, b) && LexLess(b, c)
    ensures LexLess(a, c)
  {
    var k: nat :| LexLessAt(a, b, k);
    var m: nat :| LexLessAt(b, c, m);
    var n := if k < m then k else m;
    assert a[..n] == a[..k][..n] == b[..k][..n] == b[..n] == b[..m][..n] == c[..n];
    assert k < m ==> c[..m][k] == b[..m][k];
    assert m < k ==> a[..k][m] == b[..k][m];
    assert LexLessAt(a, c, n);
  }

  lemma LexIrreflexive(a: seq<Byte>)
    ensures !LexLess(a, a)
  {
  }

  lemma LexAsymmetric(a: seq<Byte>, b: seq<Byte>)
    requires LexLess(a, b)
    ensures !LexLess(b, a) && a != b
  {
    LexIrreflexive(a);
    if LexLess(b, a) { LexTransitive(a, b, a); }
  }

  /** The comparison from index i on, once the first i octets agree. */
  lemma {:induction false} StrNCmpLexicographic(a: seq<Byte>, s: seq<Byte>, cs: bool, i: nat)
    requires i <= |a| && i <= |s| && NulFree(a) && NulFree(s)
    requires FoldAll(a, cs)[..i] == FoldAll(s, cs)[..i]
    ensures var c := StrNCmp(a, s, cs, i);
            && (c < 0 ==> FoldedLess(a, s, cs))
            && (c > 0 ==> FoldedLess(s, a, cs))
            && (c == 0 ==> |a| <= |s| && FoldAll(a, cs) == FoldAll(s, cs)[..|a|])
    decreases |a| - i
  {
    var fa, fs := FoldAll(a, cs), FoldAll(s, cs);
    if i == |a| {
      assert fa[..i] == fa;
    } else if i == |s| {
      assert LexLessAt(fs, fa, i);
    } else if fa[i] != fs[i] {
      assert LexLessAt(fa, fs, i) || LexLessAt(fs, fa, i);
    } else {
      assert fa[..i + 1] == fa[..i] + [fa[i]] == fs[..i + 1];
      StrNCmpLexicographic(a, s, cs, i + 1);
    }
  }

  /** memptr_cmp decides the lexicographic order of names without NULs. */
  lemma MemptrCmpIsLexicographic(a: seq<Byte>, s: seq<Byte>, cs: bool)
    requires NulFree(a) && NulFree(s)
    ensures MemptrCmp(a, s, cs) < 0 <==> FoldedLess(a, s, cs)
    ensures MemptrCmp(a, s, cs) > 0 <==> FoldedLess(s, a, cs)
    ensures MemptrCmp(a, s, cs) == 0 <==> FoldedEqual(a, s, cs)
  {
    StrNCmpLexicographic(a, s, cs, 0);
    var fa, fs := FoldAll(a, cs), FoldAll(s, cs);
    var c := MemptrCmp(a, s, cs);
    if StrNCmp(a, s, cs, 0) == 0 {
      if |a| < |s| { assert LexLessAt(fa, fs, |a|); } else { assert fs[..|a|] == fs; }
    }
    if c < 0 { LexAsymmetric(fa, fs); } else if c > 0 { LexAsymmetric(fs, fa); } else { LexIrreflexive(fa); }
  }

  /** The same with a NUL in the name: the comparison sees what precedes it. */
  lemma {:induction false} StrNCmpStopsAtNul(a: seq<Byte>, s: seq<Byte>, cs: bool, i: nat)
    requires NulFree(s) && !NulFree(a) && i <= |CString(a)| && i <= |s|
    requires FoldAll(CString(a), cs)[..i] == FoldAll(s, cs)[..i]
    ensures var (t, c) := (CString(a), StrNCmp(a, s, cs, i));
            && (c < 0 ==> FoldedLess(t, s, cs))
            && (c > 0 ==> FoldedLess(s, t, cs))
            && (c == 0 ==> FoldedEqual(t, s, cs))
    decreases |a| - i
  {
    hide CString;
    var t := CString(a);
    var ft, fs := FoldAll(t, cs), FoldAll(s, cs);
    assert |t| < |a| && a[|t|] == 0;
    if i == |t| && i == |s| {
      assert ft[..i] == ft && fs[..i] == fs;
    } else if i == |t| {
      assert LexLessAt(ft, fs, i);
    } else if i == |s| {
      assert LexLessAt(fs, ft, i);
    } else if ft[i] != fs[i] {
      assert LexLessAt(ft, fs, i) || LexLessAt(fs, ft, i);
    } else {
      assert ft[..i + 1] == ft[..i] + [ft[i]] == fs[..i + 1];
      StrNCmpStopsAtNul(a, s, cs, i + 1);
    }
  }

  /** For every name, memptr_cmp decides the lexicographic order of the C string
      that the name holds, that is of what precedes its first NUL. */
  lemma MemptrCmpReadsTheCString(a: seq<Byte>, s: seq<Byte>, cs: bool)
    requires NulFree(s)
    ensures MemptrCmp(a, s, cs) < 0 <==> FoldedLess(CString(a), s, cs)
    ensures MemptrCmp(a, s, cs) > 0 <==> FoldedLess(s, CString(a), cs)
    ensures MemptrCmp(a, s, cs) == 0 <==> FoldedEqual(CString(a), s, cs)
  {
    var t := CString(a);
    hide CString;
    if NulFree(a) {
      assert t == a;
      MemptrCmpIsLexicographic(a, s, cs);
    } else {
      StrNCmpStopsAtNul(a, s, cs, 0);
      var (ft, fs) := (FoldAll(t, cs), FoldAll(s, cs));
      assert |t| < |a|;
      var c := MemptrCmp(a, s, cs);
      if c < 0 { LexAsymmetric(ft, fs); } else if c > 0 { LexAsymmetric(fs, ft); } else { LexIrreflexive(ft); }
    }
  }

  /** So equality is decided right exactly for the names without a NUL: any other
      name matches the C string it holds, which it differs from. */
  lemma WhenMemptrCmpIsEquality(a: seq<Byte>, cs: bool)
    ensures NulFree(a) <==> forall s: seq<Byte> :: NulFree(s) ==> (MemptrCmp(a, s, cs) == 0 <==> FoldedEqual(a, s, cs))
  {
    hide MemptrCmp, CString;
    if NulFree(a) {
      forall s: seq<Byte> | NulFree(s) ensures MemptrCmp(a, s, cs) == 0 <==> FoldedEqual(a, s, cs) {
        MemptrCmpIsLexicographic(a, s, cs);
      }
    } else {
      var t := CString(a);
      MemptrCmpReadsTheCString(a, t, cs);
      assert |FoldAll(a, cs)| != |FoldAll(t, cs)|;
      assert NulFree(t) && MemptrCmp(a, t, cs) == 0 && !FoldedEqual(a, t, cs);
    }
  }

  /** One such name: GET, a NUL and an X. */
  lemma NulHidesTheRest()
    ensures MemptrCmp([71, 69, 84, 0, 88], [71, 69, 84], true) == 0
    ensures !FoldedEqual([71, 69, 84, 0, 88], [71, 69, 84], true)
  {
    var a: seq<Byte>, s: seq<Byte> := [71, 69, 84, 0, 88], [71, 69, 84];
    assert StrNCmp(a, s, true, 3) == 0;
    assert StrNCmp(a, s, true, 2) == 0;
    assert StrNCmp(a, s, true, 1) == 0;
    assert StrNCmp(a, s, true, 0) == 0;
    assert |FoldAll(a, true)| != |FoldAll(s, true)|;
  }

  // ----- the search

  ghost predicate NamesNulFree(table: seq<Entry>) {
    forall i :: 0 <= i < |table| ==> NulFree(table[i].name)
  }

  /** The first n entries are in order (equal neighbours allowed). */
  ghost predicate SortedUpTo(table: seq<Entry>, n: nat, cs: bool)
    requires n <= |table|
  {
    forall i, j :: 0 <= i < j < n ==>
      FoldedLess(table[i].name, table[j].name, cs) || FoldedEqual(table[i].name, table[j].name, cs)
  }

  /** In order, except that the last entry may be out of place when an earlier
      entry carries the same name. */
  ghost predicate Searchable(table: seq<Entry>, cs: bool) {
    || SortedUpTo(table, |table|, cs)
    || (&& |table| > 1
        && SortedUpTo(table, |table| - 1, cs)
        && exists i :: 0 <= i < |table| - 1 && FoldedEqual(table[i].name, table[|table| - 1].name, cs))
  }

  ghost predicate Found(name: seq<Byte>, table: seq<Entry>, cs: bool, index: int) {
    if index == -1 then forall i :: 0 <= i < |table| ==> !FoldedEqual(name, table[i].name, cs)
    else 0 <= index < |table| && FoldedEqual(name, table[index].name, cs)
  }

  lemma LessThanLaterEntries(name: seq<Byte>, a: seq<Byte>, b: seq<Byte>, cs: bool)
    requires FoldedLess(name, a, cs)
    requires FoldedLess(a, b, cs) || FoldedEqual(a, b, cs)
    ensures !FoldedEqual(name, b, cs)
  {
    var x, y, z := FoldAll(name, cs), FoldAll(a, cs), FoldAll(b, cs);
    LexAsymmetric(x, y);
    if LexLess(y, z) { LexTransitive(x, y, z); LexAsymmetric(x, z); }
  }

  lemma GreaterThanEarlierEntries(name: seq<Byte>, a: seq<Byte>, b: seq<Byte>, cs: bool)
    requires FoldedLess(b, name, cs)
    requires FoldedLess(a, b, cs) || FoldedEqual(a, b, cs)
    ensures !FoldedEqual(name, a, cs)
  {
    var x, y, z := FoldAll(name, cs), FoldAll(a, cs), FoldAll(b, cs);
    LexAsymmetric(z, x);
    if LexLess(y, z) { LexTransitive(y, z, x); LexAsymmetric(y, x); }
  }

  /** map_str_to_int finds a matching entry exactly when there is one. */
  method MapStrToInt(name: seq<Byte>, table: seq<Entry>, caseSensitive: bool) returns (index: int)
    requires NulFree(name) && NamesNulFree(table)
    requires Searchable(table, caseSensitive)
    ensures Found(name, table, caseSensitive, index)
  {
    ghost var n := if SortedUpTo(table, |table|, caseSensitive) then |table| else |table| - 1;
    var top, bot := 0, |table| - 1;
    while top <= bot
      invariant 0 <= top <= bot + 1 <= |table|
      invariant forall i :: 0 <= i < n && FoldedEqual(name, table[i].name, caseSensitive) ==> top <= i <= bot
    {
      var mid := (top + bot) / 2;
      var cmp := MemptrCmp(name, table[mid].name, caseSensitive);
      MemptrCmpIsLexicographic(name, table[mid].name, caseSensitive);
      if cmp > 0 {
        forall i | 0 <= i < n && i <= mid
          ensures !FoldedEqual(name, table[i].name, caseSensitive) || (mid >= n && i < top)
        {
          if i < mid < n { GreaterThanEarlierEntries(name, table[i].name, table[mid].name, caseSensitive); }
        }
        top := mid + 1;
      } else if cmp < 0 {
        forall i | mid <= i < n ensures !FoldedEqual(name, table[i].name, caseSensitive) {
          if mid < i { LessThanLaterEntries(name, table[mid].name, table[i].name, caseSensitive); }
        }
        bot := mid - 1;
      } else {
        return mid;
      }
    }
    index := -1;
  }

  /** map_int_to_str: the first entry with the id. */
  method MapIntToStr(id: int, table: seq<Entry>) returns (index: int)
    ensures index == -1 ==> forall i :: 0 <= i < |table| ==> table[i].id != id
    ensures index != -1 ==> 0 <= index < |table| && table[index].id == id
                            && forall i :: 0 <= i < index ==> table[i].id != id
  {
    for i := 0 to |table|
      invariant forall j :: 0 <= j < i ==> table[j].id != id
    {
      if table[i].id == id { return i; }
    }
    index := -1;
  }
}
