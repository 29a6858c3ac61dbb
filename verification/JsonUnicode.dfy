/** Which decoded strings are UTF-8. */
module JsonUnicode {
  import opened Wrappers
  import opened JsonText
  import opened JsonGrammar

  predicate IsUtf8(t: string)
    decreases |t|
  {
    t == [] ||
    match DecodeUtf8(t)
    case None => false
    case Some((_, n)) => IsUtf8(t[n..])
  }

  predicate IsLowSurrogate(u: nat) {
    0xDC00 <= u <= 0xDFFF
  }

  /** An escape decodes to UTF-8 iff it is no low surrogate without a high one in front. */
  lemma EscapeIsUtf8(s: string)
    requires CodePoint(s).Some?
    ensures IsUtf8(CodePointToUtf8(CodePoint(s).value.0)) <==> !IsLowSurrogate(Hex4(s).value)
  {
    hide Hex4, DecodeUtf8, CodePointToUtf8;
    var cp := CodePoint(s).value.0;
    OneCharacter(cp, "");
    assert CodePointToUtf8(cp) + "" == CodePointToUtf8(cp);
  }

  /** A character in front of a text. */
  lemma OneCharacter(cp: nat, rest: string)
    requires cp <= 0x10FFFF
    ensures IsUtf8(CodePointToUtf8(cp) + rest) <==> !IsSurrogate(cp) && IsUtf8(rest)
  {
    hide DecodeUtf8, CodePointToUtf8;
    var b := CodePointToUtf8(cp);
    Utf8ReadsBack(cp, rest);
    SomeBytes(cp);
    assert (b + rest)[|b|..] == rest;
  }

  lemma SomeBytes(cp: nat)
    requires cp <= 0x10FFFF
    ensures CodePointToUtf8(cp) != []
  {
  }

  /** The reader takes a lone low surrogate and writes bytes that are not UTF-8. */
  lemma LoneSurrogate()
    ensures Decode("\\uDC00") == Some([0xED as char, 0xB0 as char, 0x80 as char])
    ensures !IsUtf8([0xED as char, 0xB0 as char, 0x80 as char])
  {
    var s := "\\uDC00";
    var u := s[2..];
    assert u == "DC00";
    assert HexDigits(u, 1) == Some(0xD) && HexDigits(u, 2) == Some(0xDC) && HexDigits(u, 3) == Some(0xDC0);
    assert Hex4(u) == Some(0xDC00);
    assert u[4..] == "";
    assert CodePoint(u) == Some((0xDC00, ""));
    assert Decode("") == Some("");
    var b := [0xED as char, 0xB0 as char, 0x80 as char];
    assert CodePointToUtf8(0xDC00) == b && b + "" == b;
  }

  /** No escape outside a pair is a surrogate. */
  predicate Paired(s: string)
    decreases |s|
  {
    if s == [] || s[0] == '\"' then true
    else if s[0] != '\\' then Paired(s[1..])
    else if |s| == 1 then true
    else if s[1] == 'u' then
      match CodePoint(s[2..])
      case None => true
      case Some((cp, rest)) => !IsSurrogate(cp) && Paired(rest)
    else Paired(s[2..])
  }

  /** The first bytes decide about the first character. */
  lemma FirstCharacter(t: string, rest: string)
    requires DecodeUtf8(t).Some?
    ensures var n := DecodeUtf8(t).value.1;
      DecodeUtf8(t[..n] + rest) == DecodeUtf8(t) && (t[0] as int < 0x80 <==> n == 1)
      && (n > 1 ==> forall i :: 0 <= i < n ==> t[i] as int >= 0x80)
  {
    var n := DecodeUtf8(t).value.1;
    var u := t[..n] + rest;
    assert forall i :: 0 <= i < n ==> u[i] == t[i];
  }

  lemma MoreIsUtf8(t: string, rest: string)
    requires DecodeUtf8(t).Some?
    ensures IsUtf8(t[..DecodeUtf8(t).value.1] + rest) <==> IsUtf8(rest)
  {
    hide DecodeUtf8;
    var n := DecodeUtf8(t).value.1;
    FirstCharacter(t, rest);
    assert (t[..n] + rest)[n..] == rest;
  }

  /** Plain bytes are copied. */
  lemma {:induction false} CopiesPlain(s: string, n: nat)
    requires n <= |s| && forall i :: 0 <= i < n ==> s[i] != '\"' && s[i] != '\\'
    ensures Decode(s) == Prepend(s[..n], Decode(s[n..])) && Paired(s) == Paired(s[n..])
    decreases n
  {
    if n == 0 {
      assert s[0..] == s;
      if Decode(s).Some? { assert s[..0] + Decode(s).value == Decode(s).value; }
    } else {
      CopiesPlain(s[1..], n - 1);
      assert s[1..][n - 1..] == s[n..] && s[..n] == [s[0]] + s[1..][..n - 1];
      var r := Decode(s[n..]);
      if r.Some? { assert [s[0]] + (s[1..][..n - 1] + r.value) == s[..n] + r.value; }
    }
  }

  lemma AsciiFirst(s: string)
    requires s != [] && s[0] as int < 0x80
    ensures IsUtf8(s) <==> IsUtf8(s[1..])
  {
  }

  lemma HexAreAscii(s: string)
    requires Hex4(s).Some?
    ensures |s| >= 4 && forall i :: 0 <= i < 4 ==> s[i] as int < 0x80
  {
    assert HexDigits(s, 4).Some? && HexDigits(s, 3).Some? && HexDigits(s, 2).Some? && HexDigits(s, 1).Some?;
  }

  lemma FourAscii(s: string)
    requires |s| >= 4 && forall i :: 0 <= i < 4 ==> s[i] as int < 0x80
    ensures IsUtf8(s) <==> IsUtf8(s[4..])
  {
    hide IsUtf8;
    AsciiFirst(s);
    AsciiFirst(s[1..]);
    AsciiFirst(s[2..]);
    AsciiFirst(s[3..]);
    assert s[1..][1..] == s[2..] && s[2..][1..] == s[3..] && s[3..][1..] == s[4..];
  }

  lemma EscapeIsAscii(s: string)
    requires CodePoint(s).Some?
    ensures IsUtf8(s) <==> IsUtf8(CodePoint(s).value.1)
  {
    hide Hex4, IsUtf8;
    HexAreAscii(s);
    FourAscii(s);
    var u, rest := Hex4(s).value, s[4..];
    if 0xD800 <= u <= 0xDBFF {
      AsciiFirst(rest);
      AsciiFirst(rest[1..]);
      assert rest[1..][1..] == rest[2..] && rest[2..][4..] == rest[6..];
      HexAreAscii(rest[2..]);
      FourAscii(rest[2..]);
    }
  }

  /** A string whose bytes are UTF-8 decodes to UTF-8 iff its surrogates are paired. */
  lemma {:induction false} DecodedIsUtf8(s: string)
    requires IsUtf8(s) && Decode(s).Some?
    ensures IsUtf8(Decode(s).value) <==> Paired(s)
    decreases |s|
  {
    hide DecodeUtf8, CodePointToUtf8, CodePoint;
    if s == [] || s[0] == '\"' {
    } else if s[0] != '\\' {
      var n := DecodeUtf8(s).value.1;
      FirstCharacter(s, "");
      CopiesPlain(s, n);
      DecodedIsUtf8(s[n..]);
      MoreIsUtf8(s, Decode(s[n..]).value);
    } else {
      AsciiFirst(s);
      if s[1] == 'u' {
        AsciiFirst(s[1..]);
        assert s[1..][1..] == s[2..];
        EscapeIsAscii(s[2..]);
        var cp, rest := CodePoint(s[2..]).value.0, CodePoint(s[2..]).value.1;
        DecodedIsUtf8(rest);
        OneCharacter(cp, Decode(rest).value);
      } else {
        var c := Unescaped(s[1]).value;
        AsciiFirst(s[1..]);
        assert s[1..][1..] == s[2..];
        DecodedIsUtf8(s[2..]);
        AsciiFirst([c] + Decode(s[2..]).value);
        assert ([c] + Decode(s[2..]).value)[1..] == Decode(s[2..]).value;
      }
    }
  }
}
