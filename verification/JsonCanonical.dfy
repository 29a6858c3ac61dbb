/** How the printers spell a value. */
module JsonCanonical {
  import opened Wrappers
  import opened JsonText
  import opened JsonReal
  import opened JsonValue
  import opened JsonGrammar
  import opened JsonPieces
  import opened JsonSpelling
  import opened JsonLexing
  import opened JsonDocuments

  // Strings.

  function SpellChar(c: char): Char {
    if c == '\"' then Short('\"')
    else if c == '\\' then Short('\\')
    else if c == 8 as char then Short('b')
    else if c == 12 as char then Short('f')
    else if c == '\n' then Short('n')
    else if c == '\r' then Short('r')
    else if c == '\t' then Short('t')
    else if IsControl(c) then Hex("00" + [HexDigit(c as int / 16), HexDigit(c as int % 16)])
    else Plain(c)
  }

  lemma CharSpelled(c: char)
    ensures CharText(SpellChar(c)) == Escape(c)
    ensures c != '\0' ==> LegalChar(SpellChar(c)) && AcceptedChar(SpellChar(c)) && CharMeaning(SpellChar(c)) == [c]
  {
    hide IsHex, HexNumber, CodePointToUtf8, HexDigit;
    if IsControl(c) { ControlHex(c as int); }
  }

  lemma ControlHex(n: nat)
    requires n < 32
    ensures var d := "00" + [HexDigit(n / 16), HexDigit(n % 16)];
      IsHex(d) && HexNumber(d) == n && CodePointToUtf8(n) == [n as char]
  {
    hide IndexIn, IsHexDigit, DigitAt;
    DigitBack(0);
    DigitBack(n / 16);
    DigitBack(n % 16);
  }

  lemma DigitBack(d: nat)
    requires d < 16
    ensures IsHexDigit(HexDigit(d)) && DigitAt(HexDigit(d)) == d && HexDigit(0) == '0'
  {
    hide IndexIn;
    HexPlaces(HexDigit(d));
  }

  /** The printers choose the shortest legal spelling of a character, and capitals for its digits. */
  lemma ShortestEscape(c: char, ch: Char)
    requires c != '\0' && LegalChar(ch) && CharMeaning(ch) == [c]
    ensures |Escape(c)| <= |CharText(ch)|
    ensures |Escape(c)| == 6 ==> forall i :: 2 <= i < 6 ==> Escape(c)[i] in UPPER_DIGITS
  {
    hide IsHexDigit, HexNumber, CodePointToUtf8, HexDigit, UPPER_DIGITS;
    if IsControl(c) {
      Capital(0);
      Capital(c as int / 16);
      Capital(c as int % 16);
    }
  }

  lemma Capital(d: nat)
    requires d < 16
    ensures HexDigit(d) in UPPER_DIGITS && HexDigit(0) == '0'
  {
    HexPlaces(HexDigit(d));
  }

  function SpellChars(s: string): (r: seq<Char>)
    ensures |r| == |s| && forall i :: 0 <= i < |s| ==> r[i] == SpellChar(s[i])
  {
    seq(|s|, i requires 0 <= i < |s| => SpellChar(s[i]))
  }

  lemma {:induction false} CharsSpelled(s: string)
    requires IsCString(s)
    ensures CharsText(SpellChars(s)) == Escaped(s)
    ensures LegalChars(SpellChars(s)) && AcceptedChars(SpellChars(s)) && CharsMeaning(SpellChars(s)) == s
    decreases |s|
  {
    hide SpellChar, Escape, CharText, CharMeaning, LegalChar, AcceptedChar;
    LegalSpelled(s);
    if s != [] {
      CharSpelled(s[0]);
      CharsSpelled(s[1..]);
      assert SpellChars(s)[1..] == SpellChars(s[1..]);
      assert s == [s[0]] + s[1..];
    }
  }

  lemma LegalSpelled(s: string)
    requires IsCString(s)
    ensures LegalChars(SpellChars(s)) && AcceptedChars(SpellChars(s))
  {
    hide SpellChar, LegalChar, AcceptedChar;
    LegalCharsSpelled(s);
    LegalCharsAccepted(SpellChars(s));
  }

  lemma LegalCharsSpelled(s: string)
    requires IsCString(s)
    ensures LegalChars(SpellChars(s))
  {
    hide SpellChar, LegalChar, AcceptedChar;
    forall i | 0 <= i < |s| ensures LegalChar(SpellChars(s)[i]) {
      assert s[i] in s;
      CharSpelled(s[i]);
    }
  }

  lemma {:induction false} NameWithoutNul(s: string)
    requires IsCString(s)
    ensures UpToNul(s) == s
  {
    if s != [] {
      assert s == [s[0]] + s[1..];
      NameWithoutNul(s[1..]);
    }
  }

  // Numbers.

  lemma {:induction false} DecimalIsInt(n: nat)
    ensures IsInt(Decimal(n)) && (n > 0 ==> '1' <= Decimal(n)[0] <= '9')
  {
    if n >= 10 { DecimalIsInt(n / 10); }
  }

  lemma IntIsNumber(i: int)
    ensures IsNumber(IntText(i))
  {
    hide Decimal;
    var t := IntText(i);
    IntChars(i);
    var u := Unsigned(t);
    DecimalIsInt(if i < 0 then -i else i);
    assert u == Decimal(if i < 0 then -i else i);
    assert u[..|u|] == u && u[|u|..|u|] == "" && u[|u|..] == "";
    assert Splits(u, |u|, |u|);
  }

  lemma WholeIsSame(i: int)
    requires -0x8000_0000_0000_0000 <= i <= MAX_UINT64
    ensures var r := WholeValue(i < 0, if i < 0 then -i else i);
      r.Some? && (r.value.Int? || r.value.UInt?) && NumberOf(r.value) == i
  {
  }

  /** Which characters stand where in a number. */
  lemma SplitChars(u: string, i: nat, j: nat, k: nat)
    requires Splits(u, i, j) && k < |u|
    ensures if k < i || i < k < j then IsDigit(u[k])
            else if k < j then u[k] == '.'
            else if k == j then u[k] in "eE" else IsDigit(u[k]) || u[k] in "+-"
  {
    if k < i {
      assert u[k] == u[..i][k];
    } else if k < j {
      assert u[k] == u[i..j][k - i] && (k > i ==> u[k] == u[i..j][1..][k - i - 1]);
    } else {
      assert u[k] == u[j..][k - j] && (k > j ==> u[k] == u[j..][1..][k - j - 1])
        && (k > j + 1 ==> u[k] == u[j..][2..][k - j - 2]);
    }
  }

  /** The only point of a number stands behind its integer part, and digits up to the end leave
      no room for an exponent. */
  lemma PointIsAt(u: string, i: nat, j: nat, dot: nat)
    requires Splits(u, i, j) && dot < |u| && u[dot] == '.' && forall k :: dot < k < |u| ==> IsDigit(u[k])
    ensures dot == i && j == |u|
  {
    hide IsInt, IsFraction, IsExponent;
    SplitChars(u, i, j, dot);
    if j < |u| { SplitChars(u, i, j, j); }
  }

  /** Cutting digits off a fraction leaves a number, as long as one digit stays. */
  lemma ShorterFraction(u: string, i: nat, n: nat)
    requires Splits(u, i, |u|) && i + 1 < n <= |u| && i < |u| && u[i] == '.'
    ensures Splits(u[..n], i, n)
  {
    var s := u[..n];
    assert s[..i] == u[..i] && u[i..|u|] == u[i..] && s[n..] == "";
    forall k | 0 <= k < |s[i..n][1..]| ensures IsDigit(s[i..n][1..][k]) {
      assert s[i..n][1..][k] == u[i..][1..][k];
    }
  }

  /** A JSON number is still one when it has been shortened. */
  lemma ShortenedIsNumber(d: string)
    requires IsNumber(d)
    ensures IsNumber(Shortened(d))
  {
    hide Shortened, Splits;
    if Shortened(d) != d {
      var n := |Shortened(d)|;
      var dot := ShortenedIsSame(d);
      var i: nat, j: nat :| Splits(Unsigned(d), i, j);
      assert Shortened(d) == d[..n];
      ShorterNumber(d, i, j, dot, n);
    }
  }

  lemma ShorterNumber(d: string, i: nat, j: nat, dot: nat, n: nat)
    requires d != [] && Splits(Unsigned(d), i, j) && dot + 1 < n <= |d| && d[dot] == '.'
    requires forall k :: dot < k < |d| ==> IsDigit(d[k])
    ensures IsNumber(d[..n])
  {
    hide IsInt, IsFraction, IsExponent, Splits;
    var m := if d[0] == '-' then 1 else 0;
    var u := Unsigned(d);
    assert forall k :: 0 <= k < |u| ==> u[k] == d[k + m];
    PointIsAt(u, i, j, dot - m);
    ShorterFraction(u, i, n - m);
    assert Unsigned(d[..n]) == u[..n - m];
  }

  /** Real numbers are finite, and the library reads back the number whose shortened text it is
      given. */
  ghost predicate Restored(v: Value, f: Features)
    decreases v
  {
    match v
    case Real(d) => IsNumber(d) && NumberMeaning(Shortened(d), f) == Some(Real(d))
    case Array(xs) => forall i :: 0 <= i < |xs| ==> Restored(xs[i], f)
    case Object(ms) => forall i :: 0 <= i < |ms| ==> Restored(ms[i].value, f)
    case _ => true
  }

  lemma MemberRestored(v: Value, i: nat, f: Features)
    requires v.Object? && i < |v.members| && Restored(v, f)
    ensures Restored(v.members[i].value, f)
  {
    hide IsNumber, NumberMeaning, Shortened;
  }

  // Values.

  function Spell(v: Value): Spelled
    requires Writable(v)
    decreases v
  {
    match v
    case Null => NullText
    case Bool(b) => BoolText(b)
    case Int(i) => NumberText(IntText(i))
    case UInt(n) => NumberText(IntText(n))
    case Real(d) => NumberText(Shortened(d))
    case Str(s) => StringText(SpellChars(s))
    case Array(xs) => ItemsText(seq(|xs|, i requires 0 <= i < |xs| => Spell(xs[i])))
    case Object(ms) =>
      EntriesText(seq(|ms|, i requires 0 <= i < |ms| => Entry(SpellChars(ms[i].name), Spell(ms[i].value))))
  }

  lemma QuoteSpelled(s: string)
    requires IsCString(s)
    ensures Quote(SpellChars(s)) == Quoted(s)
  {
    hide SpellChars, CharsText, Escaped;
    CharsSpelled(s);
  }

  /** The tokens are those of the value. */
  lemma {:induction false} SpelledTokens(v: Value)
    requires Writable(v)
    ensures Tokens(Spell(v)) == Pieces(v)
    decreases v, 1, 0
  {
    hide ItemTokens, EntryTokens, ItemPieces, MemberPieces, IntText, Quote, Quoted, SpellChars;
    if v.Array? && v.items != [] { SpelledItems(v, 0); }
    if v.Object? && v.members != [] { SpelledEntries(v, 0); }
    if v.Str? { QuoteSpelled(v.str); }
    if v.Array? { Grouped("[", if v.items == [] then [] else ItemPieces(v, 0), "]"); }
    if v.Object? { Grouped("{", if v.members == [] then [] else MemberPieces(v, 0), "}"); }
  }

  lemma Grouped(open: string, inside: seq<string>, close: string)
    ensures [open] + inside + [close] == [open] + (inside + [close])
  {
  }

  lemma {:induction false} SpelledItems(v: Value, i: nat)
    requires v.Array? && Writable(v) && i < |v.items|
    ensures Spell(v).ItemsText? && |Spell(v).items| == |v.items| && ItemTokens(Spell(v), i) == ItemPieces(v, i)
    decreases v, 0, |v.items| - i
  {
    hide Tokens, Pieces;
    SpelledTokens(v.items[i]);
    if i + 1 < |v.items| { SpelledItems(v, i + 1); }
  }

  lemma {:induction false} SpelledEntries(v: Value, i: nat)
    requires v.Object? && Writable(v) && i < |v.members|
    ensures Spell(v).EntriesText? && |Spell(v).entries| == |v.members| && EntryTokens(Spell(v), i) == MemberPieces(v, i)
    decreases v, 0, |v.members| - i
  {
    hide Tokens, Pieces, Quote, Quoted, SpellChars;
    SpelledTokens(v.members[i].value);
    QuoteSpelled(v.members[i].name);
    if i + 1 < |v.members| { SpelledEntries(v, i + 1); }
  }

  lemma IntMeaning(i: int, f: Features)
    requires -0x8000_0000_0000_0000 <= i <= MAX_UINT64
    ensures var r := NumberMeaning(IntText(i), f);
      r.Some? && Same(Int(i), r.value)
      && Same(UInt(if i < 0 then 0 else i), r.value) == (i >= 0)
  {
    hide IntText, NumberMeaning, DecodeNumber;
    NumberMeaningIs(IntText(i), f);
    IntDecodes(i, f);
    WholeIsSame(i);
  }

  lemma {:induction false} LegalSpelling(v: Value, f: Features)
    requires Writable(v) && Restored(v, f)
    ensures Legal(Spell(v), f)
    decreases v
  {
    hide Shortened, IntText, SpellChars, IsNumber, NumberMeaning, LegalChars, Accepted;
    match v
    case Null =>
    case Bool(_) =>
    case Int(i) =>
      IntIsNumber(i);
      IntMeaning(i, f);
    case UInt(n) =>
      IntIsNumber(n);
      IntMeaning(n, f);
    case Real(d) => ShortenedIsNumber(d);
    case Str(s) => CharsSpelled(s);
    case Array(xs) => forall i | 0 <= i < |xs| ensures Legal(Spell(v).items[i], f) { LegalSpelling(xs[i], f); }
    case Object(ms) =>
      forall i | 0 <= i < |ms| ensures LegalChars(Spell(v).entries[i].name) && Legal(Spell(v).entries[i].value, f) {
        LegalSpelling(ms[i].value, f);
        CharsSpelled(ms[i].name);
      }
  }

  /** The meaning is the value. */
  lemma {:induction false} SpelledMeaning(v: Value, f: Features)
    requires Writable(v)
    requires Restored(v, f)
    ensures Legal(Spell(v), f) && Accepted(Spell(v), f) && Same(v, Meaning(Spell(v), f))
    decreases v, 1, 0
  {
    hide Shortened, IntText, SpellChars, IsNumber, NumberMeaning, DecodeNumber, LegalChars, AcceptedChars, CharsMeaning,
      UpToNul, Put, Accepted, IsRun;
    LegalSpelling(v, f);
    LegalAccepted(Spell(v), f);
    match v
    case Null =>
    case Bool(_) =>
    case Int(i) => IntMeaning(i, f);
    case UInt(n) => IntMeaning(n, f);
    case Real(d) =>
    case Str(s) =>
      CharsSpelled(s);
      NameWithoutNul(s);
    case Array(xs) => ItemsSame(v, |xs|, f);
    case Object(ms) => EntriesSame(v, |ms|, f);
  }

  lemma {:induction false} ItemsSame(v: Value, n: nat, f: Features)
    requires v.Array? && Writable(v) && n <= |v.items| && Restored(v, f) && Accepted(Spell(v), f)
    ensures var r := ItemsMeaning(Spell(v), n, f); forall i :: 0 <= i < n ==> Same(v.items[i], r[i])
    decreases v, 0, n
  {
    hide Meaning, Same;
    if n > 0 {
      ItemsSame(v, n - 1, f);
      SpelledMeaning(v.items[n - 1], f);
    }
  }

  lemma {:induction false} EntriesSame(v: Value, n: nat, f: Features)
    requires v.Object? && Writable(v) && n <= |v.members| && Restored(v, f) && Accepted(Spell(v), f)
    ensures var r := EntriesMeaning(Spell(v), n, f);
      |r| == n && forall i :: 0 <= i < n ==> r[i].name == v.members[i].name && Same(v.members[i].value, r[i].value)
    decreases v, 0, n
  {
    hide Meaning, Same, Put, UpToNul, SpellChars, CharsMeaning, Before, Restored, AcceptedChars, LegalChars, Spell,
      Accepted, Writable;
    EntriesOf(v);
    if n > 0 {
      EntriesSame(v, n - 1, f);
      MemberRestored(v, n - 1, f);
      var m := v.members[n - 1];
      SpelledMeaning(m.value, f);
      CharsSpelled(m.name);
      NameWithoutNul(m.name);
      PutLast(EntriesMeaning(Spell(v), n - 1, f), m.name, Meaning(Spell(m.value), f));
    }
  }

  lemma EntriesOf(v: Value)
    requires v.Object? && Writable(v)
    ensures Ordered(v.members)
      && forall i :: 0 <= i < |v.members| ==> IsCString(v.members[i].name) && Writable(v.members[i].value)
    ensures Spell(v).EntriesText? && |Spell(v).entries| == |v.members|
    ensures forall i :: 0 <= i < |v.members| ==>
      Spell(v).entries[i] == Entry(SpellChars(v.members[i].name), Spell(v.members[i].value))
  {
    hide SpellChars, Before;
  }
}
