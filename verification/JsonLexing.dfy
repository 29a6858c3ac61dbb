/** The tokens that the reader finds are those of the texts. */
module JsonLexing {
  import opened Wrappers
  import opened JsonText
  import opened JsonValue
  import opened JsonGrammar
  import opened JsonSpelling

  // Characters.

  lemma BlankIs(c: char)
    ensures IsBlank(c) <==> IsSpace(c)
  {
  }

  lemma DigitIs(c: char)
    ensures c in DIGITS <==> IsDigit(c)
    ensures c in DIGITS ==> IndexIn(DIGITS, c) == c as int - '0' as int
  {
    PlaceOf(DIGITS, c);
    assert forall i :: 0 <= i < |DIGITS| ==> DIGITS[i] as int == '0' as int + i;
    if IsDigit(c) { assert DIGITS[c as int - '0' as int] == c; }
  }

  lemma {:induction false} PlaceOf(s: string, c: char)
    ensures c in s <==> IndexIn(s, c) < |s|
  {
    if s != [] && s[0] != c {
      assert s == [s[0]] + s[1..];
      PlaceOf(s[1..], c);
    }
  }

  lemma NumberCharIs(c: char)
    ensures IsNumberChar(c) <==> IsNumeric(c)
  {
    DigitIs(c);
  }

  // Spaces.

  lemma {:induction false} SkipIs(doc: string, p: nat)
    requires p <= |doc|
    ensures var s := SkipSpaces(doc, p); Blanks(doc, p, s) && (s < |doc| ==> !IsBlank(doc[s]))
    decreases |doc| - p
  {
    if p < |doc| {
      BlankIs(doc[p]);
      if IsSpace(doc[p]) { SkipIs(doc, p + 1); }
    }
  }

  lemma {:induction false} SkipOver(doc: string, p: nat, s: nat)
    requires Blanks(doc, p, s) && (s < |doc| ==> !IsBlank(doc[s]))
    ensures SkipSpaces(doc, p) == s
    decreases s - p
  {
    if p < |doc| {
      BlankIs(doc[p]);
      if p < s { SkipOver(doc, p + 1, s); }
    }
  }

  /** A token does not depend on the spaces in front of it. */
  lemma LexSkips(doc: string, p: nat, s: nat)
    requires Blanks(doc, p, s) && (s < |doc| ==> !IsBlank(doc[s]))
    ensures Lex(doc, p) == Lex(doc, s) && Lex(doc, s).start == s
  {
    hide StringToken, CommentToken, Word, NumberEnd, IsBlank;
    SkipOver(doc, p, s);
    SkipOver(doc, s, s);
    LexStart(doc, s);
  }

  lemma LexStart(doc: string, s: nat)
    requires s <= |doc| && SkipSpaces(doc, s) == s
    ensures Lex(doc, s).start == s
  {
    hide SkipSpaces, StringEnd, BlockEnd, LineEnd, NumberEnd, HasWord;
  }

  /** Where a token starts. */
  lemma LexedAt(doc: string, p: nat)
    requires p <= |doc|
    ensures var t := Lex(doc, p); Blanks(doc, p, t.start) && Lex(doc, t.start) == t
    ensures var t := Lex(doc, p); t.start < |doc| ==> !IsBlank(doc[t.start])
  {
    hide Lex, IsBlank, SkipSpaces;
    SkipIs(doc, p);
    LexSkips(doc, p, SkipSpaces(doc, p));
  }

  // Comments.

  lemma {:induction false} BlockEndIs(doc: string, p: nat, q: nat)
    requires p <= |doc|
    ensures BlockEnd(doc, p) == Some(q) <==>
      && p + 2 <= q <= |doc| && doc[q - 2] == '*' && doc[q - 1] == '/'
      && forall i :: p <= i < q - 2 ==> !(doc[i] == '*' && doc[i + 1] == '/')
    decreases |doc| - p
  {
    if p < |doc| { BlockEndIs(doc, p + 1, q); }
  }

  lemma {:induction false} LineEndIs(doc: string, p: nat, q: nat)
    requires p <= |doc|
    ensures LineEnd(doc, p) == q <==>
      && p <= q <= |doc| && (forall i :: p <= i < q - 1 ==> doc[i] !in "\r\n")
      && (q == |doc| || (q > p && doc[q - 1] in "\r\n")) && (q == |doc| > p
         ==> forall i :: p <= i < q - 1 ==> doc[i] !in "\r\n")
    decreases |doc| - p
  {
    if p < |doc| { LineEndIs(doc, p + 1, q); }
  }

  lemma StandsTwo(doc: string, p: nat, a: char, b: char)
    ensures Stands(doc, p, [a, b]) <==> p + 2 <= |doc| && doc[p] == a && doc[p + 1] == b
  {
    if p + 2 <= |doc| { assert doc[p..p + 2] == [doc[p], doc[p + 1]]; }
  }

  /** The comment that starts at `s`. */
  lemma CommentIs(doc: string, s: nat, e: nat)
    requires s < |doc| && doc[s] == '/'
    ensures IsComment(doc, s, e) <==> CommentToken(doc, s + 1) == Token(Comment, s, e)
  {
    hide BlockEnd, LineEnd;
    StandsTwo(doc, s, '/', '*');
    StandsTwo(doc, s, '/', '/');
    if e >= 2 { StandsTwo(doc, e - 2, '*', '/'); }
    if s + 2 <= |doc| {
      BlockEndIs(doc, s + 2, e);
      LineEndIs(doc, s + 2, e);
    }
  }

  lemma NotSpace(doc: string, s: nat)
    requires s < |doc| && !IsBlank(doc[s])
    ensures SkipSpaces(doc, s) == s
  {
    BlankIs(doc[s]);
  }

  lemma CommentLexed(doc: string, s: nat, e: nat)
    requires s < |doc| && !IsBlank(doc[s])
    ensures IsComment(doc, s, e) <==> Lex(doc, s) == Token(Comment, s, e)
  {
    hide SkipSpaces, StringEnd, CommentToken, NumberEnd, HasWord, BlockComment, LineComment;
    NotSpace(doc, s);
    if doc[s] == '/' {
      CommentIs(doc, s, e);
    } else {
      NoCommentAt(doc, s, e);
    }
  }

  lemma NoCommentAt(doc: string, s: nat, e: nat)
    requires s < |doc| && doc[s] != '/'
    ensures !IsComment(doc, s, e)
  {
    StandsTwo(doc, s, '/', '*');
    StandsTwo(doc, s, '/', '/');
  }

  /** Past a gap the reader finds the token behind it. */
  lemma {:induction false} GapLexed(doc: string, p: nat, x: nat)
    requires Gap(doc, p, x) && x < |doc| && !IsBlank(doc[x]) && Lex(doc, x).kind != Comment
    ensures LexPastComments(doc, p) == Lex(doc, x) && Lex(doc, x).start == x
    decreases x - p
  {
    hide Lex, IsBlank, IsComment;
    if Blanks(doc, p, x) {
      LexSkips(doc, p, x);
    } else {
      var a: nat, b: nat :| p <= a < b <= x && Blanks(doc, p, a) && IsComment(doc, a, b) && Gap(doc, b, x);
      CommentBegins(doc, a, b);
      LexSkips(doc, p, a);
      CommentLexed(doc, a, b);
      GapLexed(doc, b, x);
    }
  }

  lemma CommentBegins(doc: string, a: nat, b: nat)
    requires IsComment(doc, a, b)
    ensures a < |doc| && doc[a] == '/' && !IsBlank(doc[a]) && a < b <= |doc|
  {
    StandsTwo(doc, a, '/', '*');
    StandsTwo(doc, a, '/', '/');
  }

  /** The next token that is no comment stands behind a gap. */
  lemma {:induction false} LexedGap(doc: string, p: nat)
    requires p <= |doc|
    ensures var t := LexPastComments(doc, p);
      Gap(doc, p, t.start) && Lex(doc, t.start) == t && (t.start < |doc| ==> !IsBlank(doc[t.start]))
    decreases |doc| - p
  {
    hide Lex, IsBlank, IsComment, Blanks;
    var c, t := Lex(doc, p), LexPastComments(doc, p);
    LexedAt(doc, p);
    if c.kind == Comment {
      LexedGap(doc, c.end);
      CommentLexed(doc, c.start, c.end);
      assert p <= c.start < c.end <= t.start;
    }
  }

  lemma BlanksAreGap(doc: string, p: nat, q: nat)
    requires Blanks(doc, p, q)
    ensures Gap(doc, p, q)
  {
  }

  lemma GapInside(doc: string, p: nat, q: nat)
    requires Gap(doc, p, q)
    ensures p <= q <= |doc|
    decreases q - p
  {
    hide IsBlank, IsComment;
    if !Blanks(doc, p, q) {
      var a: nat, b: nat :| p <= a < b <= q && Blanks(doc, p, a) && IsComment(doc, a, b) && Gap(doc, b, q);
      GapInside(doc, b, q);
    }
  }

  // Tokens.

  function MarkKind(c: char): Kind {
    if c == '{' then ObjectBegin else if c == '}' then ObjectEnd else if c == '[' then ArrayBegin
    else if c == ']' then ArrayEnd else if c == ',' then ArraySeparator else MemberSeparator
  }

  lemma MarkLexed(doc: string, s: nat)
    requires s < |doc| && !IsBlank(doc[s])
    ensures doc[s] in "{}[],:" ==> Lex(doc, s) == Token(MarkKind(doc[s]), s, s + 1)
    ensures Lex(doc, s).kind in {ObjectBegin, ObjectEnd, ArrayBegin, ArrayEnd, ArraySeparator, MemberSeparator} ==>
      doc[s] in "{}[],:" && Lex(doc, s).kind == MarkKind(doc[s])
  {
    hide SkipSpaces, StringEnd, BlockEnd, LineEnd, NumberEnd, HasWord;
    NotSpace(doc, s);
  }

  lemma WordLexed(doc: string, s: nat)
    requires s < |doc| && !IsBlank(doc[s])
    ensures Stands(doc, s, "null") <==> Lex(doc, s).kind == NullWord
    ensures Stands(doc, s, "true") <==> Lex(doc, s).kind == True
    ensures Stands(doc, s, "false") <==> Lex(doc, s).kind == False
    ensures var t := Lex(doc, s); t.kind == NullWord || t.kind == True ==> t.end == s + 4
    ensures var t := Lex(doc, s); t.kind == False ==> t.end == s + 5
  {
    hide SkipSpaces, StringEnd, BlockEnd, LineEnd, NumberEnd;
    NotSpace(doc, s);
    FirstAndRest(doc, s, 't', "rue");
    FirstAndRest(doc, s, 'f', "alse");
    FirstAndRest(doc, s, 'n', "ull");
    assert "true" == ['t'] + "rue" && "false" == ['f'] + "alse" && "null" == ['n'] + "ull";
  }

  lemma FirstAndRest(doc: string, s: nat, c: char, rest: string)
    requires s < |doc|
    ensures Stands(doc, s, [c] + rest) <==> doc[s] == c && HasWord(doc, s + 1, rest)
  {
    var w := [c] + rest;
    if s + |w| <= |doc| {
      assert doc[s..s + |w|] == [doc[s]] + doc[s + 1..s + 1 + |rest|];
      assert w[0] == c && w[1..] == rest;
    }
  }

  lemma {:induction false} NumberEndIs(doc: string, p: nat, q: nat)
    requires p <= |doc|
    ensures NumberEnd(doc, p) == q <==> p <= q && Ends(doc, q) && forall i :: p <= i < q ==> IsNumberChar(doc[i])
    decreases |doc| - p
  {
    hide IsNumberChar, IsNumeric;
    if p < |doc| {
      NumberCharIs(doc[p]);
      if IsNumeric(doc[p]) { NumberEndIs(doc, p + 1, q); }
    }
  }

  lemma NumeralAt(doc: string, s: nat)
    requires s < |doc| && SkipSpaces(doc, s) == s
    ensures Lex(doc, s).kind == Numeral <==> IsDigit(doc[s]) || doc[s] == '-'
    ensures Lex(doc, s).kind == Numeral ==> Lex(doc, s) == Token(Numeral, s, NumberEnd(doc, s + 1))
  {
    hide SkipSpaces, StringEnd, BlockEnd, LineEnd, NumberEnd, HasWord;
  }

  lemma NumberLexed(doc: string, s: nat, q: nat)
    requires s < |doc| && !IsBlank(doc[s])
    ensures Lex(doc, s) == Token(Numeral, s, q) <==>
      (doc[s] in DIGITS || doc[s] == '-') && s < q && Ends(doc, q) && forall i :: s < i < q ==> IsNumberChar(doc[i])
  {
    hide SkipSpaces, Lex, NumberEnd, IsNumberChar, Ends, IsDigit;
    NotSpace(doc, s);
    DigitIs(doc[s]);
    NumberEndIs(doc, s + 1, q);
    NumeralAt(doc, s);
  }

  lemma {:induction false} StringEndIs(doc: string, p: nat, q: nat)
    requires p <= |doc|
    ensures StringEnd(doc, p) == Some(q) <==>
      p < q <= |doc| && doc[q - 1] == '\"' && IsInside(doc[p..q - 1])
    decreases |doc| - p
  {
    if p < |doc| {
      if p < q <= |doc| { InsideSlices(doc, p, q - 1); }
      if doc[p] == '\\' {
        if p + 1 < |doc| { StringEndIs(doc, p + 2, q); }
      } else if doc[p] != '\"' {
        StringEndIs(doc, p + 1, q);
      }
    }
  }

  lemma InsideSlices(doc: string, p: nat, e: nat)
    requires p <= e <= |doc|
    ensures p < e ==> doc[p..e][0] == doc[p] && doc[p..e][1..] == doc[p + 1..e]
    ensures p + 2 <= e ==> doc[p..e][2..] == doc[p + 2..e]
  {
  }

  lemma StringLexed(doc: string, s: nat, q: nat)
    requires s < |doc| && !IsBlank(doc[s])
    ensures Lex(doc, s) == Token(Text, s, q) <==>
      doc[s] == '\"' && ClosedAt(doc, s, q)
  {
    hide SkipSpaces, StringEnd, BlockEnd, LineEnd, NumberEnd, HasWord;
    NotSpace(doc, s);
    StringEndIs(doc, s + 1, q);
  }

  /** The comment that cannot be read, or the slash that starts none. */
  lemma SlashLexed(doc: string, s: nat)
    requires s < |doc| && doc[s] == '/' && !(exists r: nat :: IsComment(doc, s, r))
    ensures Lex(doc, s).kind == Error
    ensures Lex(doc, s).end == if Stands(doc, s, "/*") then |doc| else if s + 1 < |doc| then s + 2 else s + 1
  {
    hide SkipSpaces, StringEnd, BlockEnd, LineEnd, NumberEnd, HasWord, IsComment;
    NotSpace(doc, s);
    StandsTwo(doc, s, '/', '*');
    CommentLexed(doc, s, Lex(doc, s).end);
  }

  lemma OpenStringLexed(doc: string, s: nat)
    requires s < |doc| && doc[s] == '\"' && forall r: nat :: !ClosedAt(doc, s, r)
    ensures Lex(doc, s) == Token(Error, s, |doc|)
  {
    hide SkipSpaces, StringEnd, BlockEnd, LineEnd, NumberEnd, HasWord, ClosedAt;
    NotSpace(doc, s);
    var q := StringEnd(doc, s + 1);
    if q.Some? { StringLexed(doc, s, q.value); }
  }

  lemma AnyStringLexed(doc: string, s: nat, q: nat)
    requires s < |doc| && doc[s] == '\"'
    ensures AnyString(doc, s, q) <==> Lex(doc, s).end == q
    ensures Lex(doc, s).kind !in {ObjectEnd, Comment}
  {
    hide Lex, ClosedAt;
    if r: nat :| ClosedAt(doc, s, r) {
      StringLexed(doc, s, r);
      StringLexed(doc, s, q);
    } else {
      OpenStringLexed(doc, s);
    }
  }

  lemma OtherLexed(doc: string, s: nat)
    requires s < |doc| && !IsBlank(doc[s]) && doc[s] !in "\"}/-" && doc[s] !in DIGITS
    requires Lex(doc, s).kind !in {NullWord, True, False}
    ensures Lex(doc, s).end == s + 1 && Lex(doc, s).kind !in {ObjectEnd, Comment}
  {
    hide SkipSpaces, StringEnd, BlockEnd, LineEnd, NumberEnd, HasWord;
    NotSpace(doc, s);
    DigitIs(doc[s]);
  }

  /** What counts as a separator behind a comment. */
  lemma AnyTokenLexed(doc: string, s: nat, q: nat)
    requires s < |doc| && !IsBlank(doc[s])
    ensures AnyToken(doc, s, q) <==> Lex(doc, s).kind !in {ObjectEnd, Comment} && Lex(doc, s).end == q
  {
    hide Lex, AnyString, IsComment, IsBlank, Ends, IsNumberChar, Stands;
    var t := Lex(doc, s);
    LexedAt(doc, s);
    MarkLexed(doc, s);
    CommentLexed(doc, s, t.end);
    if exists r: nat :: IsComment(doc, s, r) {
      var r: nat :| IsComment(doc, s, r);
      CommentLexed(doc, s, r);
    } else if doc[s] == '\"' {
      AnyStringLexed(doc, s, q);
    } else if doc[s] in DIGITS || doc[s] == '-' {
      NumberLexed(doc, s, q);
      NumeralFound(doc, s);
    } else if doc[s] == '/' {
      SlashLexed(doc, s);
    } else if doc[s] != '}' {
      WordLexed(doc, s);
      if t.kind !in {NullWord, True, False} { OtherLexed(doc, s); }
    }
  }

  lemma NumeralFound(doc: string, s: nat)
    requires s < |doc| && !IsBlank(doc[s]) && (doc[s] in DIGITS || doc[s] == '-')
    ensures Lex(doc, s).kind == Numeral
  {
    hide Lex, SkipSpaces;
    NotSpace(doc, s);
    DigitIs(doc[s]);
    NumeralAt(doc, s);
  }

  // Hexadecimal digits.

  lemma HexDigitIs(c: char)
    ensures HexValue(c) == if IsHexDigit(c) then Some(DigitAt(c)) else None
  {
    hide IndexIn;
    PlaceOf(LOWER_DIGITS, c);
    PlaceOf(UPPER_DIGITS, c);
    HexPlaces(c);
  }

  lemma HexPlaces(c: char)
    ensures c in LOWER_DIGITS <==> '0' <= c <= '9' || 'a' <= c <= 'f'
    ensures c in UPPER_DIGITS <==> '0' <= c <= '9' || 'A' <= c <= 'F'
    ensures c in LOWER_DIGITS ==>
      IndexIn(LOWER_DIGITS, c) == if c <= '9' then c as int - '0' as int else c as int - 'a' as int + 10
    ensures c in UPPER_DIGITS ==>
      IndexIn(UPPER_DIGITS, c) == if c <= '9' then c as int - '0' as int else c as int - 'A' as int + 10
  {
    hide IndexIn;
    PlaceOf(LOWER_DIGITS, c);
    PlaceOf(UPPER_DIGITS, c);
    if '0' <= c <= '9' { assert LOWER_DIGITS[c as int - '0' as int] == c && UPPER_DIGITS[c as int - '0' as int] == c; }
    if 'a' <= c <= 'f' { assert LOWER_DIGITS[c as int - 'a' as int + 10] == c; }
    if 'A' <= c <= 'F' { assert UPPER_DIGITS[c as int - 'A' as int + 10] == c; }
  }

  /** Four digits are read as the number they stand for, and anything else is refused. */
  lemma HexIs(s: string)
    ensures Hex4(s) == if |s| >= 4 && IsHex(s[..4]) then Some(HexNumber(s[..4])) else None
  {
    hide HexValue, IsHexDigit, DigitAt;
    if |s| >= 4 {
      HexDigitIs(s[0]);
      HexDigitIs(s[1]);
      HexDigitIs(s[2]);
      HexDigitIs(s[3]);
      FourDigits(s);
    }
  }

  lemma FourDigits(s: string)
    requires |s| >= 4
    ensures HexDigits(s, 4) ==
      match (HexValue(s[0]), HexValue(s[1]), HexValue(s[2]), HexValue(s[3]))
      case (Some(a), Some(b), Some(c), Some(d)) => Some(0x1000 * a + 0x100 * b + 0x10 * c + d)
      case _ => None
  {
    hide HexValue;
    assert HexDigits(s, 1) == HexValue(s[0]);
    assert HexDigits(s, 3)
      == match (HexDigits(s, 2), HexValue(s[2])) case (Some(a), Some(b)) => Some(a * 16 + b) case _ => None;
  }

  // Numbers.

  lemma {:induction false} AmountIs(t: string)
    ensures Digits(t) <==> forall i :: 0 <= i < |t| ==> IsDigit(t[i])
    ensures Digits(t) ==> Amount(t) == Number(t)
  {
    hide IsDigit, IndexIn;
    forall i | 0 <= i < |t| ensures t[i] in DIGITS <==> IsDigit(t[i]) { DigitIs(t[i]); }
    if t != [] {
      DigitIs(t[|t| - 1]);
      AmountIs(t[..|t| - 1]);
    }
  }

  lemma NumberMeaningIs(t: string, f: Features)
    ensures DecodeNumber(t, f) == NumberMeaning(t, f)
  {
    hide Amount, Number, Digits;
    AmountIs(t);
    if t != [] && t[0] == '-' {
      AmountIs(t[1..]);
      assert forall i :: 0 < i < |t| ==> t[i] == t[1..][i - 1];
    }
  }
}
