/** upnp/src/uuid/md5.c around its compression function: the buffering of blocks,
    the bit count kept in two words, the padding, and the byte order. */
module Md5 {
  import opened Bytes

  type Word = w: int | 0 <= w < 0x1_0000_0000

  datatype Quad = Quad(a: Word, b: Word, c: Word, d: Word)

  /** MD5Transform: some function of the state and a block of 64 octets. */
  type Transform = (Quad, seq<Byte>) -> Quad

  const INITIAL := Quad(0x67452301, 0xefcdab89, 0x98badcfe, 0x10325476)

  // ----- what is computed

  /** The transform applied to the complete blocks of data, one after another. */
  function Fold(f: Transform, q: Quad, data: seq<Byte>): Quad
    decreases |data|
  {
    if |data| < 64 then q else Fold(f, f(q, data[..64]), data[64..])
  }

  /** What is left over after the complete blocks. */
  function Tail(data: seq<Byte>): (t: seq<Byte>)
    ensures |t| == |data| % 64
  {
    data[|data| / 64 * 64..]
  }

  /** The k least significant octets of n, the lowest first. */
  function LittleEndian(n: nat, k: nat): (s: seq<Byte>)
    ensures |s| == k
  {
    if k == 0 then [] else [n % 256] + LittleEndian(n / 256, k - 1)
  }

  /** Between 1 and 64 octets, so that 56 modulo 64 come before the length. */
  function PadLength(n: nat): (k: nat)
    ensures 1 <= k <= 64 && (n + k) % 64 == 56
  {
    if n % 64 < 56 then 56 - n % 64 else 120 - n % 64
  }

  function Zeros(k: nat): (s: seq<Byte>)
    ensures |s| == k && forall i :: 0 <= i < k ==> s[i] == 0
  {
    seq(k, _ => 0)
  }

  /** RFC 1321, sections 3.1 and 3.2: a one bit, zeros, and the length in bits. */
  function Padded(data: seq<Byte>): seq<Byte> {
    data + ([0x80] + Zeros(PadLength(|data|) - 1)) + LittleEndian(8 * |data| % 0x1_0000_0000_0000_0000, 8)
  }

  function EncodeWords(ws: seq<Word>): (s: seq<Byte>)
    ensures |s| == 4 * |ws|
  {
    if ws == [] then [] else LittleEndian(ws[0], 4) + EncodeWords(ws[1..])
  }

  function Words(q: Quad): seq<Word> {
    [q.a, q.b, q.c, q.d]
  }

  /** The digest of a whole message. */
  function Digest(f: Transform, data: seq<Byte>): (s: seq<Byte>)
    ensures |s| == 16
  {
    EncodeWords(Words(Fold(f, INITIAL, Padded(data))))
  }

  // ----- byte order

  /** The body of Encode's loop. */
  method PutWord(output: array<Byte>, j: nat, w: Word)
    requires j + 4 <= output.Length
    modifies output
    ensures output[..] == old(output[..j]) + LittleEndian(w, 4) + old(output[j + 4..])
  {
    FourOctets(w);
    hide LittleEndian;
    output[j] := w % 0x100;
    output[j + 1] := w / 0x100 % 0x100;
    output[j + 2] := w / 0x1_0000 % 0x100;
    output[j + 3] := w / 0x100_0000 % 0x100;
  }

  /** Encode; the inputs are words and the outputs octets. */
  method Encode(output: array<Byte>, input: seq<Word>, len: nat)
    requires len == 4 * |input| <= output.Length
    modifies output
    ensures output[..] == EncodeWords(input) + old(output[len..])
  {
    hide LittleEndian;
    var i, j := 0, 0;
    while j < len
      invariant j == 4 * i && i <= |input|
      invariant output[..j] == EncodeWords(input[..i])
      invariant output[j..] == old(output[j..])
    {
      ghost var before := output[..j];
      PutWord(output, j, input[i]);
      EncodeAppend(input[..i], input[i]);
      assert input[..i + 1] == input[..i] + [input[i]];
      assert output[..j + 4] == before + LittleEndian(input[i], 4);
      i, j := i + 1, j + 4;
    }
    assert input[..i] == input;
    assert output[..] == output[..len] + output[len..];
  }

  lemma {:induction false} EncodeAppend(ws: seq<Word>, w: Word)
    ensures EncodeWords(ws + [w]) == EncodeWords(ws) + LittleEndian(w, 4)
  {
    hide LittleEndian;
    if ws == [] {
      assert EncodeWords([w]) == LittleEndian(w, 4) + EncodeWords([]);
    } else {
      assert (ws + [w])[1..] == ws[1..] + [w];
      EncodeAppend(ws[1..], w);
    }
  }

  lemma FourOctets(w: Word)
    ensures LittleEndian(w, 4) == [w % 0x100, w / 0x100 % 0x100, w / 0x1_0000 % 0x100, w / 0x100_0000 % 0x100]
  {
    var (x, y, z) := (w / 0x100, w / 0x1_0000, w / 0x100_0000);
    assert x / 0x100 == y && y / 0x100 == z;
    assert LittleEndian(z, 1) == [z % 0x100];
    assert LittleEndian(y, 2) == [y % 0x100] + LittleEndian(z, 1);
    assert LittleEndian(x, 3) == [x % 0x100] + LittleEndian(y, 2);
    assert LittleEndian(w, 4) == [w % 0x100] + LittleEndian(x, 3);
  }

  function DecodeWords(s: seq<Byte>): (ws: seq<Word>)
    requires |s| % 4 == 0
    ensures 4 * |ws| == |s|
  {
    if s == [] then [] else [WordAt(s)] + DecodeWords(s[4..])
  }

  function Join(b0: int, b1: int, b2: int, b3: int): int {
    b0 + 0x100 * b1 + 0x1_0000 * b2 + 0x100_0000 * b3
  }

  function WordAt(s: seq<Byte>): Word
    requires |s| >= 4
  {
    Join(s[0], s[1], s[2], s[3])
  }

  /** Decode; the inputs are octets and the outputs words. */
  method Decode(output: array<Word>, input: seq<Byte>, len: nat)
    requires len == |input| && len % 4 == 0 && len / 4 <= output.Length
    modifies output
    ensures output[..len / 4] == DecodeWords(input) && output[len / 4..] == old(output[len / 4..])
  {
    hide WordAt;
    var i, j := 0, 0;
    while j < len
      invariant j == 4 * i && j <= len
      invariant DecodeWords(input) == output[..i] + DecodeWords(input[j..])
      invariant output[len / 4..] == old(output[len / 4..])
    {
      ghost var before := output[..i];
      output[i] := WordAt(input[j..]);
      assert output[..i + 1] == before + [WordAt(input[j..])];
      assert input[j..][4..] == input[j + 4..];
      i, j := i + 1, j + 4;
    }
  }

  lemma JoinDigits(w: Word)
    ensures Join(w % 0x100, w / 0x100 % 0x100, w / 0x1_0000 % 0x100, w / 0x100_0000 % 0x100) == w
  {
    var (x, y, z) := (w / 0x100, w / 0x1_0000, w / 0x100_0000);
    assert x / 0x100 == y && y / 0x100 == z && z % 0x100 == z;
  }

  lemma WordOfOctets(w: Word, rest: seq<Byte>)
    ensures WordAt(LittleEndian(w, 4) + rest) == w
  {
    FourOctets(w);
    JoinDigits(w);
    hide LittleEndian, Join;
  }

  lemma OctetsOfWord(s: seq<Byte>)
    requires |s| >= 4
    ensures LittleEndian(WordAt(s), 4) == s[..4]
  {
    FourOctets(WordAt(s));
    JoinSplits(s[0], s[1], s[2], s[3]);
  }

  lemma JoinSplits(b0: Byte, b1: Byte, b2: Byte, b3: Byte)
    ensures var w := Join(b0, b1, b2, b3);
            w % 0x100 == b0 && w / 0x100 % 0x100 == b1 && w / 0x1_0000 % 0x100 == b2 && w / 0x100_0000 % 0x100 == b3
  {
    var w := Join(b0, b1, b2, b3);
    assert w / 0x100 == b1 + 0x100 * b2 + 0x1_0000 * b3;
    assert w / 0x1_0000 == b2 + 0x100 * b3;
    assert w / 0x100_0000 == b3;
  }

  lemma {:induction false} DecodeUndoesEncode(ws: seq<Word>)
    ensures DecodeWords(EncodeWords(ws)) == ws
  {
    if ws != [] {
      WordOfOctets(ws[0], EncodeWords(ws[1..]));
      assert EncodeWords(ws)[4..] == EncodeWords(ws[1..]);
      DecodeUndoesEncode(ws[1..]);
    }
  }

  lemma {:induction false} EncodeUndoesDecode(s: seq<Byte>)
    requires |s| % 4 == 0
    ensures EncodeWords(DecodeWords(s)) == s
  {
    if s != [] {
      OctetsOfWord(s);
      EncodeUndoesDecode(s[4..]);
      assert s == s[..4] + s[4..];
    }
  }

  // ----- folding

  lemma {:induction false} FoldConcat(f: Transform, q: Quad, a: seq<Byte>, b: seq<Byte>)
    requires |a| % 64 == 0
    ensures Fold(f, q, a + b) == Fold(f, Fold(f, q, a), b)
    decreases |a|
  {
    if a == [] {
      assert a + b == b;
    } else {
      assert (a + b)[..64] == a[..64] && (a + b)[64..] == a[64..] + b;
      FoldConcat(f, f(q, a[..64]), a[64..], b);
    }
  }

  /** The state after some data, and the tail of it, are all that matters later. */
  lemma FoldResumes(f: Transform, data: seq<Byte>, more: seq<Byte>)
    ensures Fold(f, INITIAL, data + more) == Fold(f, Fold(f, INITIAL, data), Tail(data) + more)
  {
    var done := data[..|data| / 64 * 64];
    assert data == done + Tail(data);
    assert data + more == done + (Tail(data) + more);
    FoldConcat(f, INITIAL, done, Tail(data) + more);
    FoldConcat(f, INITIAL, done, Tail(data));
  }

  lemma TailConcat(a: seq<Byte>, b: seq<Byte>)
    requires |a| % 64 == 0
    ensures Tail(a + b) == Tail(b)
  {
    assert (|a| + |b|) / 64 * 64 == |a| + |b| / 64 * 64;
  }

  // ----- the bit count

  /** The two words hold 8 n modulo 2^64. */
  predicate Counts(count0: Word, count1: Word, n: nat) {
    count0 + 0x1_0000_0000 * count1 == 8 * n % 0x1_0000_0000_0000_0000
  }

  lemma IndexOfCount(count0: Word, count1: Word, n: nat)
    requires Counts(count0, count1, n)
    ensures count0 / 8 % 64 == n % 64
  {
    var m := 8 * n / 0x1_0000_0000_0000_0000;
    var r := n - 0x2000_0000 * count1 - 0x2000_0000_0000_0000 * m;
    assert count0 == 8 * r;
    SameIndex(n, r, 0x80_0000 * count1 + 0x80_0000_0000_0000 * m);
  }

  lemma SameIndex(n: int, r: int, k: int)
    requires n == r + 64 * k
    ensures n % 64 == r % 64
  {
  }

  lemma Shifted(len: Word)
    ensures 8 * len == len * 8 % 0x1_0000_0000 + 0x1_0000_0000 * (len / 0x2000_0000)
  {
  }

  lemma Carried(a: Word, b: Word)
    ensures var low := (a + b) % 0x1_0000_0000;
            a + b == low + 0x1_0000_0000 * (if low < b then 1 else 0)
  {
  }

  lemma SumModulo(a: nat, b: nat)
    ensures (a % 0x1_0000_0000 + b) % 0x1_0000_0000 == (a + b) % 0x1_0000_0000
  {
  }

  lemma LapsDropOut(x: nat, before: nat, after: nat, more: nat, laps: nat)
    requires before == x % 0x1_0000_0000_0000_0000
    requires before + more == after + 0x1_0000_0000_0000_0000 * laps && after < 0x1_0000_0000_0000_0000
    ensures (x + more) % 0x1_0000_0000_0000_0000 == after
  {
  }

  /** The two words after len more octets, the carry taken as MD5Update takes it. */
  lemma CountStep(count0: Word, count1: Word, n: nat, len: Word)
    requires Counts(count0, count1, n)
    ensures var shifted := len * 8 % 0x1_0000_0000;
            var low := (count0 + shifted) % 0x1_0000_0000;
            var high := (count1 + (if low < shifted then 1 else 0)) % 0x1_0000_0000;
            Counts(low, (high + len / 0x2000_0000) % 0x1_0000_0000, n + len)
  {
    var shifted := len * 8 % 0x1_0000_0000;
    var top := len / 0x2000_0000;
    var low := (count0 + shifted) % 0x1_0000_0000;
    var carry := if low < shifted then 1 else 0;
    Shifted(len);
    Carried(count0, shifted);
    var sum := count1 + carry + top;
    SumModulo(count1 + carry, top);
    LapsDropOut(8 * n, count0 + 0x1_0000_0000 * count1, low + 0x1_0000_0000 * (sum % 0x1_0000_0000), 8 * len,
                sum / 0x1_0000_0000);
  }

  // ----- the context

  /** PADDING */
  function Padding(): (s: seq<Byte>)
    ensures |s| == 64
  {
    [0x80] + Zeros(63)
  }

  class Md5 {
    const f: Transform
    const buffer: array<Byte>
    var count0: Word
    var count1: Word
    var state: Quad
    ghost var seen: seq<Byte>

    /** What the context holds after the octets in `seen`. */
    ghost predicate Valid()
      reads this, buffer
    {
      && buffer.Length == 64
      && state == Fold(f, INITIAL, seen)
      && Counts(count0, count1, |seen|)
      && buffer[..|seen| % 64] == Tail(seen)
    }

    /** MD5Init on a new context. */
    constructor (f: Transform)
      ensures Valid() && seen == [] && this.f == f && fresh(buffer)
    {
      this.f := f;
      buffer := new Byte[64];
      count0, count1 := 0, 0;
      state := INITIAL;
      seen := [];
    }

    /** MD5_memcpy into the buffer. */
    method CopyIn(at: nat, input: seq<Byte>)
      requires at + |input| <= buffer.Length
      modifies buffer
      ensures buffer[..] == old(buffer[..at]) + input + old(buffer[at + |input|..])
    {
      var i := 0;
      while i < |input|
        invariant i <= |input|
        invariant forall k :: 0 <= k < i ==> buffer[at + k] == input[k]
        invariant forall k :: 0 <= k < at || at + i <= k < buffer.Length ==> buffer[k] == old(buffer[k])
      {
        buffer[at + i] := input[i];
        i := i + 1;
      }
    }

    /** The bit count part of MD5Update. */
    method Count(len: Word, ghost n: nat)
      requires Counts(count0, count1, n)
      modifies `count0, `count1
      ensures Counts(count0, count1, n + len)
    {
      hide Counts;
      CountStep(count0, count1, n, len);
      count0 := (count0 + len * 8 % 0x1_0000_0000) % 0x1_0000_0000;
      if count0 < len * 8 % 0x1_0000_0000 {
        count1 := (count1 + 1) % 0x1_0000_0000;
      }
      count1 := (count1 + len / 0x2000_0000) % 0x1_0000_0000;
    }

    /** The transforms of MD5Update once the buffer is full; i is where it stops. */
    method Absorb(input: seq<Byte>, partLen: nat) returns (i: nat)
      requires buffer.Length == 64 && partLen <= |input|
      modifies `state
      ensures partLen <= i <= |input| < i + 64 && (i - partLen) % 64 == 0
      ensures state == Fold(f, old(state), buffer[..] + input[partLen..])
    {
      ghost var all := Fold(f, state, buffer[..] + input[partLen..]);
      assert (buffer[..] + input[partLen..])[..64] == buffer[..];
      assert (buffer[..] + input[partLen..])[64..] == input[partLen..];
      state := f(state, buffer[..]);
      i := partLen;
      while i + 63 < |input|
        invariant partLen <= i <= |input| && (i - partLen) % 64 == 0
        invariant Fold(f, state, input[i..]) == all
      {
        assert input[i..][..64] == input[i..i + 64] && input[i..][64..] == input[i + 64..];
        state := f(state, input[i..i + 64]);
        i := i + 64;
      }
    }

    /** The precondition is the range in which `i + 63` does not wrap around; see
        WrappedLoopNeverEnds for what happens outside it. */
    method Update(input: seq<Byte>)
      requires Valid() && |seen| % 64 + |input| < 0x1_0000_0000
      modifies this, buffer
      ensures Valid() && seen == old(seen) + input
    {
      hide Fold, Tail, Counts;
      ghost var all := seen + input;
      IndexOfCount(count0, count1, |seen|);
      var index := count0 / 8 % 64;
      Count(|input|, |seen|);
      var partLen := 64 - index;
      FoldResumes(f, seen, input);
      var i := 0;
      if |input| >= partLen {
        CopyIn(index, input[..partLen]);
        assert buffer[..] == Tail(seen) + input[..partLen];
        assert buffer[..] + input[partLen..] == Tail(seen) + input;
        i := Absorb(input, partLen);
        index := 0;
        TailAfterBlocks(seen, input, i);
      } else {
        FoldShort(f, state, Tail(seen) + input);
        TailShort(seen, input);
      }
      CopyIn(index, input[i..]);
      seen := all;
    }

    /** MD5_memset of the context. */
    method Wipe()
      requires buffer.Length == 64
      modifies this, buffer
      ensures count0 == 0 && count1 == 0 && state == Quad(0, 0, 0, 0)
      ensures forall k :: 0 <= k < 64 ==> buffer[k] == 0
    {
      var k := 0;
      while k < 64
        invariant 0 <= k <= 64
        invariant forall j :: 0 <= j < k ==> buffer[j] == 0
      {
        buffer[k] := 0;
        k := k + 1;
      }
      count0, count1, state := 0, 0, Quad(0, 0, 0, 0);
    }

    /** The digest is that of everything seen; the context is wiped. */
    method Final(digest: array<Byte>)
      requires Valid() && digest.Length == 16 && digest != buffer
      modifies this, buffer, digest
      ensures digest[..] == Digest(f, old(seen))
      ensures count0 == 0 && count1 == 0 && state == Quad(0, 0, 0, 0)
      ensures forall k :: 0 <= k < buffer.Length ==> buffer[k] == 0
    {
      hide Fold, Tail, Counts, EncodeWords, LittleEndian;
      ghost var data := seen;
      var bits := new Byte[8];
      Encode(bits, [count0, count1], 8);
      CountOctets(count0, count1, |seen|);
      assert bits[..] == LittleEndian(8 * |data| % 0x1_0000_0000_0000_0000, 8);
      IndexOfCount(count0, count1, |seen|);
      var index := count0 / 8 % 64;
      var padLen := if index < 56 then 56 - index else 120 - index;
      assert Padding()[..padLen] == [0x80] + Zeros(padLen - 1);
      Update(Padding()[..padLen]);
      Update(bits[..]);
      assert seen == Padded(data);
      Encode(digest, [state.a, state.b, state.c, state.d], 16);
      assert digest[..] == Digest(f, data);
      Wipe();
    }
  }

  lemma TailAfterBlocks(seen: seq<Byte>, input: seq<Byte>, i: nat)
    requires i <= |input| < i + 64 && (i - (64 - |seen| % 64)) % 64 == 0
    ensures Tail(seen + input) == input[i..] && |seen + input| % 64 == |input| - i
  {
    assert |seen| + i == 64 * (|seen| / 64 + 1 + (i - (64 - |seen| % 64)) / 64);
    TailConcat(seen + input[..i], input[i..]);
    assert seen + input[..i] + input[i..] == seen + input;
  }

  lemma TailShort(seen: seq<Byte>, input: seq<Byte>)
    requires |seen| % 64 + |input| < 64
    ensures Tail(seen + input) == Tail(seen) + input && |seen + input| % 64 == |seen| % 64 + |input|
  {
  }

  lemma FoldShort(f: Transform, q: Quad, data: seq<Byte>)
    requires |data| < 64
    ensures Fold(f, q, data) == q
  {
  }

  lemma CountOctets(count0: Word, count1: Word, n: nat)
    requires Counts(count0, count1, n)
    ensures EncodeWords([count0, count1]) == LittleEndian(8 * n % 0x1_0000_0000_0000_0000, 8)
  {
    EightOctets(count0, count1);
    assert EncodeWords([count0, count1]) == LittleEndian(count0, 4) + (LittleEndian(count1, 4) + []);
  }

  lemma LowDigit(a: nat, k: nat)
    ensures (a + 0x100 * k) % 0x100 == a % 0x100
  {
  }

  lemma Quotients(low: Word, high: Word, n: nat)
    requires n == low + 0x1_0000_0000 * high
    ensures n % 0x100 == low % 0x100 && n / 0x100 % 0x100 == low / 0x100 % 0x100
    ensures n / 0x1_0000 % 0x100 == low / 0x1_0000 % 0x100 && n / 0x100_0000 % 0x100 == low / 0x100_0000 % 0x100
    ensures n / 0x100 / 0x100 == n / 0x1_0000 && n / 0x1_0000 / 0x100 == n / 0x100_0000
            && n / 0x100_0000 / 0x100 == high
  {
    LowDigit(low, 0x100_0000 * high);
    assert n / 0x100 == low / 0x100 + 0x100 * (0x1_0000 * high);
    LowDigit(low / 0x100, 0x1_0000 * high);
    assert n / 0x1_0000 == low / 0x1_0000 + 0x100 * (0x100 * high);
    LowDigit(low / 0x1_0000, 0x100 * high);
    assert n / 0x100_0000 == low / 0x100_0000 + 0x100 * high;
    LowDigit(low / 0x100_0000, high);
  }

  lemma EightOctets(low: Word, high: Word)
    ensures LittleEndian(low + 0x1_0000_0000 * high, 8) == LittleEndian(low, 4) + LittleEndian(high, 4)
  {
    FourOctets(low);
    var n := low + 0x1_0000_0000 * high;
    var (x, y, z) := (n / 0x100, n / 0x1_0000, n / 0x100_0000);
    Quotients(low, high, n);
    assert LittleEndian(z, 5) == [z % 0x100] + LittleEndian(high, 4);
    assert LittleEndian(y, 6) == [y % 0x100] + LittleEndian(z, 5);
    assert LittleEndian(x, 7) == [x % 0x100] + LittleEndian(y, 6);
    assert LittleEndian(n, 8) == [n % 0x100] + LittleEndian(x, 7);
  }

  // ----- what a digest is, octet by octet

  /** The digest is the words a, b, c and d of the state, in this order, each with its
      lowest octet first. */
  lemma DigestOctets(f: Transform, data: seq<Byte>)
    ensures var (q, d) := (Fold(f, INITIAL, Padded(data)), Digest(f, data));
            && d[0] == q.a % 0x100 && d[1] == q.a / 0x100 % 0x100
            && d[2] == q.a / 0x1_0000 % 0x100 && d[3] == q.a / 0x100_0000
            && d[4] == q.b % 0x100 && d[5] == q.b / 0x100 % 0x100
            && d[6] == q.b / 0x1_0000 % 0x100 && d[7] == q.b / 0x100_0000
            && d[8] == q.c % 0x100 && d[9] == q.c / 0x100 % 0x100
            && d[10] == q.c / 0x1_0000 % 0x100 && d[11] == q.c / 0x100_0000
            && d[12] == q.d % 0x100 && d[13] == q.d / 0x100 % 0x100
            && d[14] == q.d / 0x1_0000 % 0x100 && d[15] == q.d / 0x100_0000
  {
    hide Fold, Padded, LittleEndian;
    var q := Fold(f, INITIAL, Padded(data));
    FourOctets(q.a);
    FourOctets(q.b);
    FourOctets(q.c);
    FourOctets(q.d);
    var (a, b, c, d) := (LittleEndian(q.a, 4), LittleEndian(q.b, 4), LittleEndian(q.c, 4), LittleEndian(q.d, 4));
    FourWords([q.a, q.b, q.c, q.d]);
    assert Digest(f, data) == a + (b + (c + d));
  }

  lemma FourWords(ws: seq<Word>)
    requires |ws| == 4
    ensures EncodeWords(ws) ==
            LittleEndian(ws[0], 4) + (LittleEndian(ws[1], 4) + (LittleEndian(ws[2], 4) + LittleEndian(ws[3], 4)))
  {
    hide LittleEndian;
    assert ws[1..][1..] == ws[2..] && ws[2..][1..] == ws[3..] && ws[3..][1..] == [];
    assert EncodeWords(ws[3..]) == LittleEndian(ws[3], 4) + [] == LittleEndian(ws[3], 4);
    assert EncodeWords(ws[2..]) == LittleEndian(ws[2], 4) + EncodeWords(ws[3..]);
    assert EncodeWords(ws[1..]) == LittleEndian(ws[1], 4) + EncodeWords(ws[2..]);
  }

  /** A transform that leaves the state alone shows what the state begins with: the
      octets of section 3.3 of RFC 1321. */
  lemma DigestBeginsWith(f: Transform, data: seq<Byte>)
    requires forall q, block :: f(q, block) == q
    ensures Digest(f, data) == [0x01, 0x23, 0x45, 0x67, 0x89, 0xab, 0xcd, 0xef,
                                0xfe, 0xdc, 0xba, 0x98, 0x76, 0x54, 0x32, 0x10]
  {
    hide Padded, Digest;
    FoldOfNothing(f, INITIAL, Padded(data));
    DigestOctets(f, data);
  }

  lemma {:induction false} FoldOfNothing(f: Transform, q: Quad, data: seq<Byte>)
    requires forall p, block :: f(p, block) == p
    ensures Fold(f, q, data) == q
    decreases |data|
  {
    if |data| >= 64 {
      FoldOfNothing(f, q, data[64..]);
    }
  }

  /** The blocks are taken one after another: a last one comes last. */
  lemma {:induction false} FoldLastBlock(f: Transform, q: Quad, data: seq<Byte>, block: seq<Byte>)
    requires |data| % 64 == 0 && |block| == 64
    ensures Fold(f, q, data + block) == f(Fold(f, q, data), block)
    decreases |data|
  {
    if data == [] {
      assert data + block == block && block[..64] == block;
    } else {
      assert (data + block)[..64] == data[..64] && (data + block)[64..] == data[64..] + block;
      FoldLastBlock(f, f(q, data[..64]), data[64..], block);
    }
  }

  /** The padding of sections 3.1 and 3.2 of RFC 1321: whole blocks, as few as will do;
      the message, a one bit, zeros, and the number of bits in eight octets. */
  lemma PaddedLayout(data: seq<Byte>)
    ensures var (p, n) := (Padded(data), |data|);
            && |p| % 64 == 0 && n + 9 <= |p| < n + 73
            && p[..n] == data && p[n] == 0x80 && (forall k :: n < k < |p| - 8 ==> p[k] == 0)
            && LowestFirst(p[|p| - 8..]) == 8 * n % 0x1_0000_0000_0000_0000
  {
    hide LittleEndian;
    var (p, n) := (Padded(data), |data|);
    LowestFirstReads(8 * n % 0x1_0000_0000_0000_0000, 8);
    assert Power(8) == 0x1_0000_0000_0000_0000 by { EightOctetsHold(); }
    assert p[|p| - 8..] == LittleEndian(8 * n % 0x1_0000_0000_0000_0000, 8);
    assert (n + PadLength(n) + 8) % 64 == 0 by { PadToBlocks(n, PadLength(n)); }
  }

  lemma PadToBlocks(n: nat, k: nat)
    requires (n + k) % 64 == 56
    ensures (n + k + 8) % 64 == 0
  {
  }

  /** The number whose octets these are, the lowest first. */
  function LowestFirst(s: seq<Byte>): nat {
    if s == [] then 0 else s[0] + 0x100 * LowestFirst(s[1..])
  }

  function Power(k: nat): (p: nat)
    ensures p > 0
  {
    if k == 0 then 1 else 0x100 * Power(k - 1)
  }

  lemma EightOctetsHold()
    ensures Power(8) == 0x1_0000_0000_0000_0000
  {
    assert Power(4) == 0x1_0000_0000;
    assert Power(6) == 0x1_0000_0000_0000;
  }

  lemma {:induction false} LowestFirstReads(n: nat, k: nat)
    requires n < Power(k)
    ensures LowestFirst(LittleEndian(n, k)) == n
    decreases k
  {
    if k > 0 {
      LowestFirstReads(n / 0x100, k - 1);
      assert LittleEndian(n, k)[1..] == LittleEndian(n / 0x100, k - 1);
    }
  }

  // ----- the pieces do not matter

  function Joined(pieces: seq<seq<Byte>>): seq<Byte> {
    if pieces == [] then [] else pieces[0] + Joined(pieces[1..])
  }

  /** However a message is cut into calls of MD5Update, MD5Final gives the digest of
      the whole message. */
  method DigestInPieces(f: Transform, pieces: seq<seq<Byte>>) returns (s: seq<Byte>)
    requires forall i :: 0 <= i < |pieces| ==> |pieces[i]| <= 0x1_0000_0000 - 64
    ensures s == Digest(f, Joined(pieces))
  {
    hide Fold, Tail, Counts, Digest;
    var c := new Md5(f);
    var i := 0;
    while i < |pieces|
      invariant i <= |pieces| && c.Valid() && c.f == f && fresh(c) && fresh(c.buffer)
      invariant Joined(pieces) == c.seen + Joined(pieces[i..])
    {
      c.Update(pieces[i]);
      i := i + 1;
    }
    assert c.seen + [] == c.seen == Joined(pieces);
    var digest := new Byte[16];
    c.Final(digest);
    s := digest[..];
  }

  // ----- the bound on one call

  /** The test `i + 63 < inputLen` in 32-bit arithmetic. */
  predicate Guard(i: Word, len: Word) {
    (i + 63) % 0x1_0000_0000 < len
  }

  /** The block loop starts at 64 - index and goes on in steps of 64. Outside the
      range that Update requires, no value it can take makes it stop. */
  lemma WrappedLoopNeverEnds(index: nat, len: Word)
    requires index < 64 && len >= 64 - index
    ensures (forall i: Word :: i % 64 == (64 - index) % 64 ==> Guard(i, len)) <==> index + len >= 0x1_0000_0000
  {
    if index + len >= 0x1_0000_0000 {
      forall i: Word | i % 64 == (64 - index) % 64 ensures Guard(i, len) {
        if i + 63 < 0x1_0000_0000 {
          assert i + index <= 0x1_0000_0000 - 64;
        }
      }
    } else {
      var last := if index == 0 then 0x1_0000_0000 - 64 else 0x1_0000_0000 - 64 - index;
      assert last % 64 == (64 - index) % 64;
      assert !Guard(last, len);
    }
  }
}
