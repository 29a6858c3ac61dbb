/** Characters, numbers and strings as JSON text.

    A text is a sequence of bytes; byte `b` is written as the character with code `b`. */
module JsonText {
  import opened Wrappers

  predicate IsSpace(c: char) {
    c == ' ' || c == '\t' || c == '\r' || c == '\n'
  }

  predicate IsDigit(c: char) {
    '0' <= c <= '9'
  }

  /** The characters that `readNumber` collects. */
  predicate IsNumeric(c: char) {
    IsDigit(c) || c in ".eE+-"
  }

  predicate IsControl(c: char) {
    '\0' < c <= 0x1F as char
  }

  // Natural numbers in decimal.

  function DigitOf(d: nat): char
    requires d < 10
  {
    ('0' as int + d) as char
  }

  function Decimal(n: nat): (t: string)
    ensures t != [] && forall i :: 0 <= i < |t| ==> IsDigit(t[i])
  {
    if n < 10 then [DigitOf(n)] else Decimal(n / 10) + [DigitOf(n % 10)]
  }

  /** The number that a string of digits denotes. */
  function Number(t: string): nat
    requires forall i :: 0 <= i < |t| ==> IsDigit(t[i])
  {
    if t == [] then 0
    else
      var c := t[|t| - 1];
      assert IsDigit(c);
      10 * Number(t[..|t| - 1]) + (c as int - '0' as int)
  }

  lemma {:induction false} DecimalReadsBack(n: nat)
    ensures Number(Decimal(n)) == n
  {
    if n >= 10 {
      DecimalReadsBack(n / 10);
      assert Decimal(n)[..|Decimal(n)| - 1] == Decimal(n / 10);
    }
  }

  /** `uintToString`: digits from the last to the first. */
  method UintToString(value: nat) returns (t: string)
    ensures t == Decimal(value)
  {
    t := [];
    var n := value;
    while true
      invariant Decimal(value) == Decimal(n) + t
      decreases n
    {
      assert n >= 10 ==> Decimal(n) == Decimal(n / 10) + [DigitOf(n % 10)];
      t := [DigitOf(n % 10)] + t;
      if n / 10 == 0 {
        break;
      }
      n := n / 10;
    }
  }

  function IntText(i: int): string {
    if i < 0 then "-" + Decimal(-i) else Decimal(i)
  }

  /** `valueToString` for integers; the least 64-bit number negates to itself as a signed number
      and is printed as the unsigned one. */
  method IntToString(value: int) returns (t: string)
    requires -0x8000_0000_0000_0000 <= value < 0x8000_0000_0000_0000
    ensures t == IntText(value)
  {
    if value < 0 {
      t := UintToString(-value);
      t := "-" + t;
    } else {
      t := UintToString(value);
    }
  }

  // Strings.

  function HexDigit(d: nat): char
    requires d < 16
  {
    if d < 10 then ('0' as int + d) as char else ('A' as int + (d - 10)) as char
  }

  /** The escape of one character. */
  function Escape(c: char): string {
    if c == '\"' then "\\\""
    else if c == '\\' then "\\\\"
    else if c == 8 as char then "\\b"
    else if c == 12 as char then "\\f"
    else if c == '\n' then "\\n"
    else if c == '\r' then "\\r"
    else if c == '\t' then "\\t"
    else if IsControl(c) then "\\u00" + [HexDigit(c as int / 16), HexDigit(c as int % 16)]
    else [c]
  }

  function Escaped(s: string): string {
    if s == [] then [] else Escape(s[0]) + Escaped(s[1..])
  }

  function Quoted(s: string): string {
    "\"" + Escaped(s) + "\""
  }

  /** Characters that have to be escaped. */
  predicate NeedsEscape(c: char) {
    c in "\"\\\n\r\t" || c == 8 as char || c == 12 as char || IsControl(c)
  }

  lemma {:induction false} NothingToEscape(s: string)
    requires forall i :: 0 <= i < |s| ==> !NeedsEscape(s[i])
    ensures Escaped(s) == s
  {
    if s != [] { NothingToEscape(s[1..]); }
  }

  lemma {:induction false} EscapedMore(s: string, c: char)
    ensures Escaped(s + [c]) == Escaped(s) + Escape(c)
  {
    if s != [] {
      assert (s + [c])[1..] == s[1..] + [c];
      EscapedMore(s[1..], c);
    } else {
      assert ([] + [c])[1..] == [];
    }
  }

  /** `valueToQuotedString` for a string without NUL. */
  method ValueToQuotedString(value: string) returns (t: string)
    requires '\0' !in value
    ensures t == Quoted(value)
  {
    hide Escaped, Escape;
    if forall i :: 0 <= i < |value| ==> !NeedsEscape(value[i]) {
      NothingToEscape(value);
      return "\"" + value + "\"";
    }
    t := "\"";
    EscapedNothing();
    for i := 0 to |value|
      invariant t == "\"" + Escaped(value[..i])
    {
      EscapedMore(value[..i], value[i]);
      assert value[..i + 1] == value[..i] + [value[i]];
      OneMore("\"", Escaped(value[..i]), Escape(value[i]));
      t := t + Escape(value[i]);
    }
    assert value[..|value|] == value;
    t := t + "\"";
  }

  lemma EscapedNothing()
    ensures Escaped("") == ""
  {
  }

  lemma OneMore(a: string, b: string, c: string)
    ensures a + b + c == a + (b + c)
  {
  }

  // UTF-8.

  function Byte(b: nat): char
    requires b < 256
  {
    b as char
  }

  /** `codePointToUTF8` */
  function CodePointToUtf8(cp: nat): string {
    if cp <= 0x7F then [Byte(cp)]
    else if cp <= 0x7FF then [Byte(0xC0 + cp / 0x40), Byte(0x80 + cp % 0x40)]
    else if cp <= 0xFFFF then [Byte(0xE0 + cp / 0x1000), Byte(0x80 + cp / 0x40 % 0x40), Byte(0x80 + cp % 0x40)]
    else if cp <= 0x10FFFF then
      [Byte(0xF0 + cp / 0x4_0000), Byte(0x80 + cp / 0x1000 % 0x40), Byte(0x80 + cp / 0x40 % 0x40),
        Byte(0x80 + cp % 0x40)]
    else []
  }

  predicate IsTail(c: char) {
    0x80 <= c as int < 0xC0
  }

  function TailBits(c: char): nat
    requires IsTail(c)
  {
    c as int - 0x80
  }

  /** The numbers that stand for halves of a pair in UTF-16 and for no character. */
  predicate IsSurrogate(cp: nat) {
    0xD800 <= cp <= 0xDFFF
  }

  /** The first code point of a text in UTF-8, and how many bytes it takes.  Only the shortest
      form of a code point is accepted, and no surrogate, as section 3 of RFC 3629 demands. */
  function DecodeUtf8(t: string): (r: Option<(nat, nat)>)
    ensures r.Some? ==> 0 < r.value.1 <= |t|
  {
    if t == [] then None
    else
      var b := t[0] as int;
      if b < 0x80 then Some((b, 1))
      else if 0xC2 <= b < 0xE0 && |t| >= 2 && IsTail(t[1]) then Some(((b - 0xC0) * 0x40 + TailBits(t[1]), 2))
      else if 0xE0 <= b < 0xF0 && |t| >= 3 && IsTail(t[1]) && IsTail(t[2])
              && (b > 0xE0 || TailBits(t[1]) >= 0x20) && (b != 0xED || TailBits(t[1]) < 0x20) then
        Some((((b - 0xE0) * 0x40 + TailBits(t[1])) * 0x40 + TailBits(t[2]), 3))
      else if 0xF0 <= b < 0xF5 && |t| >= 4 && IsTail(t[1]) && IsTail(t[2]) && IsTail(t[3])
              && (b > 0xF0 || TailBits(t[1]) >= 0x10) && (b < 0xF4 || TailBits(t[1]) < 0x10) then
        Some(((((b - 0xF0) * 0x40 + TailBits(t[1])) * 0x40 + TailBits(t[2])) * 0x40 + TailBits(t[3]), 4))
      else None
  }

  /** A code point reads back from its bytes, whatever follows, iff it is no surrogate; the bytes
      of a surrogate are not UTF-8. */
  lemma Utf8ReadsBack(cp: nat, rest: string)
    requires cp <= 0x10FFFF
    ensures DecodeUtf8(CodePointToUtf8(cp) + rest) == Some((cp, |CodePointToUtf8(cp)|)) <==> !IsSurrogate(cp)
    ensures IsSurrogate(cp) ==> DecodeUtf8(CodePointToUtf8(cp) + rest) == None
  {
    var t := CodePointToUtf8(cp) + rest;
    if cp <= 0x7F {
      assert t[0] == Byte(cp);
    } else if cp <= 0x7FF {
      assert t[0] == Byte(0xC0 + cp / 0x40) && t[1] == Byte(0x80 + cp % 0x40);
    } else if cp <= 0xFFFF {
      var hi, mid, lo := cp / 0x1000, cp / 0x40 % 0x40, cp % 0x40;
      ThreeParts(cp);
      SurrogateParts(cp);
      assert t[0] == Byte(0xE0 + hi) && t[1] == Byte(0x80 + mid) && t[2] == Byte(0x80 + lo);
    } else {
      var top, hi, mid, lo := cp / 0x4_0000, cp / 0x1000 % 0x40, cp / 0x40 % 0x40, cp % 0x40;
      FourParts(cp);
      assert t[0] == Byte(0xF0 + top) && t[1] == Byte(0x80 + hi) && t[2] == Byte(0x80 + mid) && t[3] == Byte(0x80 + lo);
    }
  }

  lemma SurrogateParts(cp: nat)
    requires 0x800 <= cp <= 0xFFFF
    ensures IsSurrogate(cp) <==> cp / 0x1000 == 0xD && cp / 0x40 % 0x40 >= 0x20
  {
    ThreeParts(cp);
  }

  lemma ThreeParts(cp: nat)
    ensures cp == (cp / 0x1000 * 0x40 + cp / 0x40 % 0x40) * 0x40 + cp % 0x40
  {
    var q := cp / 0x40;
    assert q / 0x40 == cp / 0x1000;
  }

  lemma FourParts(cp: nat)
    ensures cp == ((cp / 0x4_0000 * 0x40 + cp / 0x1000 % 0x40) * 0x40 + cp / 0x40 % 0x40) * 0x40 + cp % 0x40
  {
    ThreeParts(cp);
    var q := cp / 0x1000;
    assert q / 0x40 == cp / 0x4_0000;
  }
}
