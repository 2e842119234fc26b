/** Decimal numerals as Python prints integers and as `int(text)` and `str.strip` read text, on ASCII. */
module Numerals {
  import opened Options

  function Digit(d: int): char
    requires 0 <= d < 10
  {
    ['0', '1', '2', '3', '4', '5', '6', '7', '8', '9'][d]
  }

  /** Lower-case hexadecimal. */
  function HexDigit(d: int): char
    requires 0 <= d < 16
  {
    if d < 10 then ('0' as int + d) as char else ('a' as int + d - 10) as char
  }

  function Decimal(n: nat): (s: string)
    ensures s != ""
  {
    if n < 10 then [Digit(n)] else Decimal(n / 10) + [Digit(n % 10)]
  }

  function DecimalOf(i: int): string {
    if i < 0 then "-" + Decimal(-i) else Decimal(i)
  }

  lemma {:induction false} DecimalIsInjective(a: nat, b: nat)
    requires Decimal(a) == Decimal(b)
    ensures a == b
  {
    var p, q := Decimal(a), Decimal(b);
    assert p[|p| - 1] == Digit(a % 10) && q[|q| - 1] == Digit(b % 10);
    if a >= 10 && b >= 10 {
      assert p[..|p| - 1] == Decimal(a / 10) && q[..|q| - 1] == Decimal(b / 10);
      DecimalIsInjective(a / 10, b / 10);
    }
  }

  predicate IsSpace(c: char) {
    c in " \t\n\r\U{0B}\U{0C}\U{1C}\U{1D}\U{1E}\U{1F}"
  }

  function StripLeft(s: string): string {
    if s != "" && IsSpace(s[0]) then StripLeft(s[1..]) else s
  }

  function StripRight(s: string): string {
    if s != "" && IsSpace(s[|s| - 1]) then StripRight(s[..|s| - 1]) else s
  }

  function Strip(s: string): string {
    StripRight(StripLeft(s))
  }

  /** A space, a tab or one of the ASCII line, field, group or record separators. */
  predicate IsWhite(c: char) {
    c == ' ' || '\t' <= c <= '\r' || '\U{1C}' <= c <= '\U{1F}'
  }

  ghost predicate White(s: string) {
    forall i :: 0 <= i < |s| ==> IsWhite(s[i])
  }

  lemma SpaceIs(c: char)
    ensures IsSpace(c) <==> IsWhite(c)
  {
    var spaces := " \t\n\r\U{0B}\U{0C}\U{1C}\U{1D}\U{1E}\U{1F}";
    assert |spaces| == 10;
    if IsWhite(c) {
      assert c in [' ', '\t', '\n', '\r', '\U{0B}', '\U{0C}', '\U{1C}', '\U{1D}', '\U{1E}', '\U{1F}'];
    }
  }

  lemma {:induction false} StripLeftIs(s: string) returns (front: string)
    ensures s == front + StripLeft(s) && White(front)
    ensures StripLeft(s) != "" ==> !IsWhite(StripLeft(s)[0])
  {
    if s != "" {
      SpaceIs(s[0]);
    }
    if s != "" && IsSpace(s[0]) {
      front := StripLeftIs(s[1..]);
      front := [s[0]] + front;
    } else {
      front := "";
    }
  }

  lemma {:induction false} StripRightIs(s: string) returns (back: string)
    ensures s == StripRight(s) + back && White(back)
    ensures StripRight(s) != "" ==> !IsWhite(StripRight(s)[|StripRight(s)| - 1])
  {
    if s != "" {
      SpaceIs(s[|s| - 1]);
    }
    if s != "" && IsSpace(s[|s| - 1]) {
      back := StripRightIs(s[..|s| - 1]);
      back := back + [s[|s| - 1]];
    } else {
      back := "";
    }
  }

  /** Stripping takes blanks off both ends and leaves none there. */
  lemma StripIs(s: string) returns (front: string, back: string)
    ensures s == front + Strip(s) + back && White(front) && White(back)
    ensures Strip(s) != "" ==> !IsWhite(Strip(s)[0]) && !IsWhite(Strip(s)[|Strip(s)| - 1])
  {
    front := StripLeftIs(s);
    back := StripRightIs(StripLeft(s));
  }

  function DigitValue(c: char): Option<int> {
    if '0' <= c <= '9' then Some((c - '0') as int) else None
  }

  /** Digits, with single underscores allowed between them. */
  function ParseDigits(s: string): Option<int>
    decreases |s|
  {
    if s == "" || DigitValue(s[|s| - 1]).None? then None
    else if |s| == 1 then DigitValue(s[0])
    else
      var front := if s[|s| - 2] == '_' then s[..|s| - 2] else s[..|s| - 1];
      match ParseDigits(front)
      case None => None
      case Some(n) => Some(10 * n + DigitValue(s[|s| - 1]).value)
  }

  function ParseInt(text: string): Option<int> {
    var s := Strip(text);
    if s != "" && s[0] == '-' then
      var n := ParseDigits(s[1..]);
      if n.None? then None else Some(-n.value)
    else if s != "" && s[0] == '+' then ParseDigits(s[1..])
    else ParseDigits(s)
  }

  predicate IsDigits(s: string) {
    s != "" && forall i :: 0 <= i < |s| ==> '0' <= s[i] <= '9'
  }

  lemma {:induction false} ParseDecimal(n: nat)
    ensures IsDigits(Decimal(n)) && ParseDigits(Decimal(n)) == Some(n)
  {
    var s := Decimal(n);
    if n >= 10 {
      ParseDecimal(n / 10);
      assert s[..|s| - 1] == Decimal(n / 10);
      assert s[|s| - 2] == Decimal(n / 10)[|s| - 2];
    }
  }

  /** `int(str(i)) == i` for every integer. */
  lemma ParseIntOfDecimal(i: int)
    ensures ParseInt(DecimalOf(i)) == Some(i)
  {
    var s := DecimalOf(i);
    ParseDecimal(if i < 0 then -i else i);
    assert !IsSpace(s[0]) && !IsSpace(s[|s| - 1]);
    assert Strip(s) == s;
    if i < 0 {
      assert s[1..] == Decimal(-i);
    }
  }
}
