/** The strings that the reader decodes, and what they mean. */
module JsonStrings {
  import opened Wrappers
  import opened JsonText
  import opened JsonValue
  import opened JsonGrammar
  import opened JsonSpelling
  import opened JsonLexing

  // One character.

  lemma HexInFront(d: string, rest: string)
    requires IsHex(d)
    ensures Hex4(d + rest) == Some(HexNumber(d)) && (d + rest)[4..] == rest
  {
    hide Hex4, HexNumber, IsHexDigit;
    HexIs(d + rest);
    assert (d + rest)[..4] == d;
  }

  lemma CharDecodes(ch: Char, rest: string)
    requires AcceptedChar(ch)
    ensures Decode(CharText(ch) + rest) == Prepend(CharMeaning(ch), Decode(rest))
  {
    hide Hex4, CodePointToUtf8, CodePoint, Decode, Prepend, HexNumber, IsHex;
    var t := CharText(ch) + rest;
    match ch
    case Plain(c) => PlainDecodes(c, t, rest);
    case Short(c) => ShortDecodes(c, t, rest);
    case Hex(d) =>
      HexAlone(d, rest);
      EscapeDecodes(d + rest);
      Joined("\\u", d, rest);
    case Pair(h, l) =>
      PairInFront(h, l, rest);
      EscapeDecodes(h + ("\\u" + l + rest));
      Joined("\\u" + h, "\\u" + l, rest);
      Joined("\\u", h, "\\u" + l + rest);
      Joined("\\u" + h, "\\u", l);
  }

  lemma Joined(a: string, b: string, c: string)
    ensures a + b + c == a + (b + c)
  {
  }

  lemma PlainDecodes(c: char, t: string, rest: string)
    requires AcceptedChar(Plain(c)) && t == [c] + rest
    ensures Decode(t) == Prepend([c], Decode(rest))
  {
    assert t[0] == c && t[1..] == rest;
  }

  lemma ShortDecodes(c: char, t: string, rest: string)
    requires AcceptedChar(Short(c)) && t == ['\\', c] + rest
    ensures Decode(t) == Prepend([ShortMeaning(c)], Decode(rest))
  {
    assert t[0] == '\\' && t[1] == c && t[2..] == rest;
  }

  lemma HexAlone(d: string, rest: string)
    requires AcceptedChar(Hex(d))
    ensures CodePoint(d + rest) == Some((HexNumber(d), rest))
  {
    hide Hex4, HexNumber, IsHex;
    HexInFront(d, rest);
  }

  lemma EscapeDecodes(u: string)
    requires CodePoint(u).Some?
    ensures Decode("\\u" + u) == Prepend(CodePointToUtf8(CodePoint(u).value.0), Decode(CodePoint(u).value.1))
  {
    hide CodePoint, CodePointToUtf8;
    var t := "\\u" + u;
    assert t[0] == '\\' && t[1] == 'u' && t[2..] == u;
  }

  lemma PairInFront(h: string, l: string, rest: string)
    requires AcceptedChar(Pair(h, l))
    ensures CodePoint(h + ("\\u" + l + rest))
         == Some((0x1_0000 + 0x400 * (HexNumber(h) - 0xD800) + HexNumber(l) % 0x400, rest))
  {
    hide Hex4, HexNumber, IsHex;
    var u := "\\u" + l + rest;
    HexInFront(h, u);
    HexInFront(l, rest);
    assert u[0] == '\\' && u[1] == 'u' && u[2..] == l + rest && u[6..] == rest;
  }

  /** Hexadecimal digits are neither quotes nor backslashes. */
  lemma InsideDigits(d: string, rest: string)
    requires IsHex(d)
    ensures IsInside("\\u" + d + rest) <==> IsInside(rest)
  {
    hide IsHexDigit, IsInside;
    var t := "\\u" + d + rest;
    var u := d + rest;
    InsideEscape(t);
    assert t[2..] == u && u[1..][1..] == u[2..] && u[2..][1..] == u[3..] && u[3..][1..] == u[4..] && u[4..] == rest;
    InsideDigit(u);
    InsideDigit(u[1..]);
    InsideDigit(u[2..]);
    InsideDigit(u[3..]);
  }

  lemma InsideEscape(t: string)
    requires |t| >= 2 && t[0] == '\\'
    ensures IsInside(t) <==> IsInside(t[2..])
  {
  }

  lemma InsidePlain(t: string)
    requires t != [] && t[0] != '\\' && t[0] != '\"'
    ensures IsInside(t) <==> IsInside(t[1..])
  {
  }

  lemma InsideDigit(t: string)
    requires t != [] && IsHexDigit(t[0])
    ensures IsInside(t) <==> IsInside(t[1..])
  {
  }

  lemma CharInside(ch: Char, rest: string)
    requires AcceptedChar(ch)
    ensures IsInside(CharText(ch) + rest) <==> IsInside(rest)
  {
    hide IsHex, HexNumber, IsInside;
    var t := CharText(ch) + rest;
    match ch
    case Plain(c) =>
      assert t[0] == c && t[1..] == rest;
      InsidePlain(t);
    case Short(c) =>
      assert t[0] == '\\' && t[2..] == rest;
      InsideEscape(t);
    case Hex(d) => InsideDigits(d, rest);
    case Pair(h, l) =>
      InsideDigits(h, "\\u" + l + rest);
      InsideDigits(l, rest);
      assert t == "\\u" + h + ("\\u" + l + rest);
  }

  // Strings.

  lemma CharAccepted(cs: seq<Char>)
    requires AcceptedChars(cs) && cs != []
    ensures AcceptedChar(cs[0]) && AcceptedChars(cs[1..])
  {
    hide AcceptedChar;
  }

  /** Accepted characters lie inside a string and are decoded to their meaning. */
  lemma {:induction false} CharsDecode(cs: seq<Char>)
    requires AcceptedChars(cs)
    ensures IsInside(CharsText(cs)) && Decode(CharsText(cs)) == Some(CharsMeaning(cs))
    decreases |cs|
  {
    hide CharText, CharMeaning, AcceptedChar, Decode, IsInside;
    if cs == [] {
      NothingDecodes();
    } else {
      CharAccepted(cs);
      CharsDecode(cs[1..]);
      CharDecodes(cs[0], CharsText(cs[1..]));
      CharInside(cs[0], CharsText(cs[1..]));
    }
  }

  lemma NothingDecodes()
    ensures Decode("") == Some("") && IsInside("")
  {
  }

  /** The first character of what can be decoded. */
  lemma FirstChar(t: string) returns (ch: Char, rest: string)
    requires t != [] && IsInside(t) && Decode(t).Some?
    ensures AcceptedChar(ch) && t == CharText(ch) + rest && |rest| < |t|
  {
    hide Hex4, HexNumber, IsHex;
    if t[0] != '\\' {
      ch, rest := Plain(t[0]), t[1..];
    } else if t[1] == 'u' {
      ch, rest := FirstEscape(t[2..]);
      assert t == "\\u" + t[2..];
    } else {
      ch, rest := Short(t[1]), t[2..];
    }
  }

  lemma FirstEscape(u: string) returns (ch: Char, rest: string)
    requires CodePoint(u).Some?
    ensures AcceptedChar(ch) && "\\u" + u == CharText(ch) + rest && |rest| < |u|
  {
    hide Hex4, HexNumber, IsHex;
    HexIs(u);
    var h := u[..4];
    rest := u[4..];
    if IsHigh(HexNumber(h)) {
      HexIs(rest[2..]);
      var l := rest[2..][..4];
      ch := Pair(h, l);
      assert u == h + ("\\u" + l + rest[6..]);
      rest := rest[6..];
    } else {
      ch := Hex(h);
    }
  }

  /** Whatever can be decoded consists of accepted characters. */
  lemma {:induction false} InsideChars(t: string) returns (cs: seq<Char>)
    requires IsInside(t) && Decode(t).Some?
    ensures AcceptedChars(cs) && CharsText(cs) == t && Decode(t) == Some(CharsMeaning(cs))
    decreases |t|
  {
    hide CharText, CharMeaning, AcceptedChar, Decode, IsInside;
    cs := [];
    if t != [] {
      var ch, rest := FirstChar(t);
      CharDecodes(ch, rest);
      CharInside(ch, rest);
      var more := InsideChars(rest);
      cs := [ch] + more;
      assert cs[1..] == more;
    }
    CharsDecode(cs);
  }

  // Strings in a text.

  lemma QuoteStands(doc: string, s: nat, cs: seq<Char>)
    requires Stands(doc, s, Quote(cs))
    ensures var q := s + |Quote(cs)|;
      s + 2 <= q <= |doc| && doc[s] == '\"' && doc[q - 1] == '\"' && doc[s + 1..q - 1] == CharsText(cs)
  {
    hide CharsText;
    var q := s + |Quote(cs)|;
    var t := doc[s..q];
    assert t[0] == '\"' && t[|t| - 1] == '\"' && t[1..|t| - 1] == CharsText(cs);
    assert doc[s + 1..q - 1] == t[1..|t| - 1];
  }

  /** A spelled string is read as its meaning. */
  lemma StringReads(doc: string, s: nat, cs: seq<Char>)
    requires AcceptedChars(cs) && Stands(doc, s, Quote(cs))
    ensures s + |Quote(cs)| <= |doc| && !IsBlank(doc[s])
    ensures var t := Lex(doc, s);
      t == Token(Text, s, s + |Quote(cs)|) && TokenString(doc, t) == Some(CharsMeaning(cs))
  {
    hide CharsText, CharsMeaning, AcceptedChars, Decode, Lex, IsInside, Stands;
    QuoteStands(doc, s, cs);
    CharsDecode(cs);
    StringLexed(doc, s, s + |Quote(cs)|);
  }

  /** A string that is read is a spelled one. */
  lemma StringFound(doc: string, s: nat) returns (cs: seq<Char>)
    requires s < |doc| && !IsBlank(doc[s]) && Lex(doc, s).kind == Text && Lex(doc, s).start == s
    requires TokenString(doc, Lex(doc, s)).Some?
    ensures AcceptedChars(cs) && Stands(doc, s, Quote(cs)) && Lex(doc, s).end == s + |Quote(cs)|
    ensures TokenString(doc, Lex(doc, s)) == Some(CharsMeaning(cs))
  {
    hide CharsText, CharsMeaning, AcceptedChars, Decode, Lex, IsInside;
    var q := Lex(doc, s).end;
    StringLexed(doc, s, q);
    cs := InsideChars(doc[s + 1..q - 1]);
    assert doc[s..q] == "\"" + doc[s + 1..q - 1] + "\"";
  }
}
