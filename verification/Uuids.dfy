/**
 UUIDs as 128-bit numbers, which is how the database orders the `uuid` type, and their text form, which is how
 the pagination cursor compares them.
 */
module Uuids {
  import opened Numerals

  const UUID_DIGITS := 32

  function Pow16(n: nat): (p: nat)
    ensures p > 0
  {
    if n == 0 then 1 else 16 * Pow16(n - 1)
  }

  predicate IsUuid(id: nat) {
    id < Pow16(UUID_DIGITS)
  }

  /** A hyphen follows digits 8, 12, 16 and 20. */
  function Hyphen(digits: nat): string {
    if digits in [8, 12, 16, 20] then "-" else ""
  }

  /** The first `digits` digits of the text form. */
  function TextOf(id: nat, digits: nat): string {
    if digits == 0 then ""
    else TextOf(id / 16, digits - 1) + Hyphen(digits - 1) + [HexDigit(id % 16)]
  }

  /** `id::text` */
  function Text(id: nat): string {
    TextOf(id, UUID_DIGITS)
  }

  predicate LexLess(a: string, b: string) {
    b != [] && (a == [] || a[0] < b[0] || (a[0] == b[0] && LexLess(a[1..], b[1..])))
  }

  /** Texts of one length that end in a separator and a last code point compare on the front, then on the last. */
  lemma {:induction false} LexLessOnLast(a: string, b: string, separator: string, x: char, y: char)
    requires |a| == |b|
    ensures LexLess(a + separator + [x], b + separator + [y]) <==> LexLess(a, b) || (a == b && x < y)
  {
    var p, q := a + separator + [x], b + separator + [y];
    if a != [] {
      LexLessOnLast(a[1..], b[1..], separator, x, y);
      assert p[1..] == a[1..] + separator + [x];
      assert q[1..] == b[1..] + separator + [y];
      assert a == b <==> a[0] == b[0] && a[1..] == b[1..];
    } else if separator != [] {
      LexLessOnLast([], [], separator[1..], x, y);
      assert p[1..] == [] + separator[1..] + [x];
      assert q[1..] == [] + separator[1..] + [y];
    } else {
      assert p == [x] && q == [y];
    }
  }

  lemma HexDigitOrder(x: nat, y: nat)
    requires x < 16 && y < 16
    ensures HexDigit(x) == HexDigit(y) <==> x == y
    ensures HexDigit(x) < HexDigit(y) <==> x < y
  {}

  lemma TextEndsEqual(p: string, q: string, separator: string, x: char, y: char)
    requires |p| == |q|
    ensures p + separator + [x] == q + separator + [y] <==> p == q && x == y
  {
    var s, t := p + separator + [x], q + separator + [y];
    assert s[..|p|] == p && t[..|q|] == q;
    assert s[|s| - 1] == x && t[|t| - 1] == y;
  }

  lemma {:induction false} TextOfOrder(a: nat, b: nat, digits: nat)
    requires a < Pow16(digits) && b < Pow16(digits)
    ensures |TextOf(a, digits)| == |TextOf(b, digits)|
    ensures TextOf(a, digits) == TextOf(b, digits) <==> a == b
    ensures LexLess(TextOf(a, digits), TextOf(b, digits)) <==> a < b
  {
    if digits > 0 {
      TextOfOrder(a / 16, b / 16, digits - 1);
      var p, q := TextOf(a / 16, digits - 1), TextOf(b / 16, digits - 1);
      HexDigitOrder(a % 16, b % 16);
      LexLessOnLast(p, q, Hyphen(digits - 1), HexDigit(a % 16), HexDigit(b % 16));
      TextEndsEqual(p, q, Hyphen(digits - 1), HexDigit(a % 16), HexDigit(b % 16));
    }
  }

  /** The text order of UUIDs is their numeric order, and the text determines the UUID. */
  lemma TextOrder(a: nat, b: nat)
    requires IsUuid(a) && IsUuid(b)
    ensures Text(a) == Text(b) <==> a == b
    ensures LexLess(Text(a), Text(b)) <==> a < b
  {
    TextOfOrder(a, b, UUID_DIGITS);
  }
}
