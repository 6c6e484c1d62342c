/** Octets, the handful of ctype predicates the parser relies on, and the C
    number conversions (strtol, and sscanf's %d) restricted to what is used. */
module Bytes {
  type Byte = b: int | 0 <= b < 256

  const TAB: Byte := 9
  const LF: Byte := 10
  const CR: Byte := 13
  const SPACE: Byte := 32
  const QUOTE: Byte := 34
  const BACKSLASH: Byte := 92

  const LONG_LIMIT := 0x8000_0000_0000_0000
  const WORD := 0x1_0000_0000

  predicate IsDigit(c: Byte) {
    48 <= c <= 57
  }

  /** isspace in the C locale. */
  predicate IsSpace(c: Byte) {
    9 <= c <= 13 || c == 32
  }

  function ToLower(c: Byte): Byte {
    if 65 <= c <= 90 then c + 32 else c
  }

  /** The value of a digit of the given base, or -1. */
  function DigitValue(c: Byte, base: nat): (v: int)
    ensures v == -1 || 0 <= v < base
  {
    var v := if IsDigit(c) then c - 48
             else if 97 <= ToLower(c) <= 122 then ToLower(c) - 87
             else -1;
    if v < base then v else -1
  }

  /** First index at or after i that does not hold a white-space octet. */
  function SkipSpaces(s: seq<Byte>, i: nat): (j: nat)
    requires i <= |s|
    ensures i <= j <= |s|
    ensures j < |s| ==> !IsSpace(s[j])
    ensures forall k :: i <= k < j ==> IsSpace(s[k])
    decreases |s| - i
  {
    if i < |s| && IsSpace(s[i]) then SkipSpaces(s, i + 1) else i
  }

  /** First index at or after i that does not hold a digit of the base. */
  function DigitsEnd(s: seq<Byte>, i: nat, base: nat): (j: nat)
    requires i <= |s|
    ensures i <= j <= |s|
    ensures j < |s| ==> DigitValue(s[j], base) == -1
    ensures forall k :: i <= k < j ==> DigitValue(s[k], base) != -1
    decreases |s| - i
  {
    if i < |s| && DigitValue(s[i], base) != -1 then DigitsEnd(s, i + 1, base) else i
  }

  /** The number written by the digits of s, most significant first. */
  function Numeral(s: seq<Byte>, base: nat): (v: nat)
  {
    if s == [] then 0
    else
      var d := DigitValue(s[|s| - 1], base);
      Numeral(s[..|s| - 1], base) * base + (if d == -1 then 0 else d)
  }

  datatype Sign = Plus | Minus

  /** What strtol reports: the number, where it stopped, and whether the number
      left the range of a 64-bit long (ERANGE). */
  datatype Strtol = Strtol(value: int, end: nat, erange: bool)

  function SignOf(s: seq<Byte>, i: nat): Sign {
    if i < |s| && s[i] == 45 then Minus else Plus
  }

  function AfterSign(s: seq<Byte>, i: nat): (j: nat)
    requires i <= |s|
    ensures i <= j <= |s|
  {
    if i < |s| && (s[i] == 43 || s[i] == 45) then i + 1 else i
  }

  /** An optional 0x, taken only when a hexadecimal digit follows it. */
  function AfterHexPrefix(s: seq<Byte>, i: nat, base: nat): (j: nat)
    requires i <= |s|
    ensures i <= j <= |s|
  {
    if base == 16 && i + 2 < |s| && s[i] == 48 && ToLower(s[i + 1]) == 120 && DigitValue(s[i + 2], 16) != -1
    then i + 2
    else i
  }

  function ClampLong(v: int): int {
    if v >= LONG_LIMIT then LONG_LIMIT - 1 else if v < -LONG_LIMIT then -LONG_LIMIT else v
  }

  /** strtol on a string that ends where s ends. */
  function StrToL(s: seq<Byte>, base: nat): (r: Strtol)
    ensures r.end <= |s|
  {
    var a := SkipSpaces(s, 0);
    var b := AfterSign(s, a);
    var c := AfterHexPrefix(s, b, base);
    var d := DigitsEnd(s, c, base);
    if d == c then Strtol(0, 0, false)
    else
      var m: int := Numeral(s[c..d], base);
      var v := if SignOf(s, a) == Minus then -m else m;
      Strtol(ClampLong(v), d, ClampLong(v) != v)
  }

  /** (int) applied to a long. */
  function WrapInt32(v: int): (r: int)
    ensures -0x8000_0000 <= r < 0x8000_0000
    ensures (r - v) % WORD == 0
  {
    var u := v % WORD;
    if u >= 0x8000_0000 then u - WORD else u
  }
}
