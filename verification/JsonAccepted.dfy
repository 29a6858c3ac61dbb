/** The reader accepts exactly the texts of the grammar, with exactly their meaning. */
module JsonAccepted {
  import opened Wrappers
  import opened JsonText
  import opened JsonValue
  import opened JsonGrammar
  import opened JsonSpelling
  import opened JsonLexing
  import opened JsonStrings

  // What stands in front of a token.

  lemma FrontLexed(doc: string, p: nat, s: nat, f: Features)
    requires InFront(doc, p, s, f) && s < |doc| && !IsBlank(doc[s]) && Lex(doc, s).kind != Comment
    ensures p <= |doc| && LexValue(doc, p, f) == Lex(doc, s) && Lex(doc, s).start == s
  {
    hide Lex, IsBlank, LexPastComments, Gap, Blanks;
    if f.allowComments {
      GapInside(doc, p, s);
      GapLexed(doc, p, s);
    } else {
      BlanksInside(doc, p, s);
      LexSkips(doc, p, s);
    }
  }

  lemma BlanksInside(doc: string, p: nat, s: nat)
    requires Blanks(doc, p, s)
    ensures p <= s <= |doc|
  {
  }

  lemma FrontFound(doc: string, p: nat, f: Features)
    requires p <= |doc|
    ensures var t := LexValue(doc, p, f);
      InFront(doc, p, t.start, f) && Lex(doc, t.start) == t && (t.start < |doc| ==> !IsBlank(doc[t.start]))
  {
    hide Lex, IsBlank, LexPastComments, Gap, Blanks;
    if f.allowComments { LexedGap(doc, p); } else { LexedAt(doc, p); }
  }

  /** The first token behind a value is a comment iff it is not only spaces that follow. */
  lemma GapFirst(doc: string, m: nat, x: nat)
    requires Gap(doc, m, x) && x < |doc| && !IsBlank(doc[x]) && Lex(doc, x).kind != Comment
    ensures m <= |doc| && LexPastComments(doc, m) == Lex(doc, x)
    ensures if Blanks(doc, m, x) then Lex(doc, m) == Lex(doc, x) else Lex(doc, m).kind == Comment
  {
    hide Lex, IsBlank, LexPastComments, IsComment;
    GapInside(doc, m, x);
    GapLexed(doc, m, x);
    if Blanks(doc, m, x) {
      LexSkips(doc, m, x);
    } else {
      var a: nat, b: nat :| m <= a < b <= x && Blanks(doc, m, a) && IsComment(doc, a, b) && Gap(doc, b, x);
      CommentBegins(doc, a, b);
      LexSkips(doc, m, a);
      CommentLexed(doc, a, b);
    }
  }

  /** A mark behind a gap. */
  lemma MarkBehind(doc: string, m: nat, x: nat)
    requires Gap(doc, m, x) && x < |doc| && doc[x] in "{}[],:"
    ensures m <= |doc| && LexPastComments(doc, m) == Token(MarkKind(doc[x]), x, x + 1)
    ensures if Blanks(doc, m, x) then Lex(doc, m) == Token(MarkKind(doc[x]), x, x + 1) else Lex(doc, m).kind == Comment
  {
    hide Lex, LexPastComments, Gap, Blanks;
    MarkLexed(doc, x);
    GapFirst(doc, m, x);
  }

  // From the grammar to the reader.

  lemma ScalarSpells(doc: string, s: nat, q: nat, sp: Spelled, f: Features)
    requires s < q <= |doc| && Accepted(sp, f) && Spells(doc, s, q, sp, f) && !sp.ItemsText? && !sp.EntriesText?
    ensures !IsBlank(doc[s]) && Lex(doc, s).end == q && Lex(doc, s).start == s
    ensures match sp
      case NullText => Lex(doc, s).kind == NullWord
      case BoolText(b) => Lex(doc, s).kind == if b then True else False
      case NumberText(t) => Lex(doc, s).kind == Numeral && doc[s..q] == t
      case StringText(cs) => Lex(doc, s).kind == Text && TokenString(doc, Lex(doc, s)) == Some(CharsMeaning(cs))
      case _ => true
  {
    hide Lex, Quote, CharsMeaning, AcceptedChars, Ends, IsNumberChar, NumberMeaning, Decode;
    if sp.NullText? { WordSpells(doc, s, "null"); }
    if sp.BoolText? { WordSpells(doc, s, if sp.flag then "true" else "false"); }
    if sp.NumberText? { NumberSpells(doc, s, q, sp.text); }
    if sp.StringText? { StringReads(doc, s, sp.chars); }
  }

  lemma WordSpells(doc: string, s: nat, word: string)
    requires word in {"null", "true", "false"} && Stands(doc, s, word)
    ensures s < |doc| && !IsBlank(doc[s]) && Lex(doc, s).start == s && Lex(doc, s).end == s + |word|
    ensures Lex(doc, s).kind == if word == "null" then NullWord else if word == "true" then True else False
  {
    hide Lex;
    assert doc[s] == doc[s..s + |word|][0] == word[0];
    WordLexed(doc, s);
    LexedAt(doc, s);
    NothingToSkip(doc, s);
  }

  lemma NothingToSkip(doc: string, s: nat)
    requires s < |doc| && !IsBlank(doc[s])
    ensures Lex(doc, s).start == s
  {
    hide Lex, IsBlank;
    LexSkips(doc, s, s);
  }

  lemma NumberSpells(doc: string, s: nat, q: nat, t: string)
    requires IsRun(t) && Stands(doc, s, t) && q == s + |t| && Ends(doc, q)
    ensures s < q <= |doc| && !IsBlank(doc[s]) && Lex(doc, s) == Token(Numeral, s, q) && doc[s..q] == t
  {
    hide Lex, IsNumberChar, Ends;
    assert forall i :: s <= i < q ==> doc[i] == doc[s..q][i - s] == t[i - s];
    NumberLexed(doc, s, q);
  }

  /** A value of the grammar is read as its meaning. */
  lemma {:induction false} SpansRead(doc: string, p: nat, q: nat, sp: Spelled, f: Features)
    requires Accepted(sp, f) && Spans(doc, p, q, sp, f)
    ensures p <= |doc| && ParseValue(doc, p, f) == Reads(Meaning(sp, f), q)
    decreases sp, 2, 0
  {
    hide Lex, LexValue, LexPastComments, InFront, Spells, ParseValue, SkipSpaces, Decode, Accepted, Meaning;
    var s: nat :| p <= s < q <= |doc| && InFront(doc, p, s, f) && Spells(doc, s, q, sp, f);
    if sp.ItemsText? {
      ItemsTextRead(doc, p, s, q, sp, f);
    } else if sp.EntriesText? {
      EntriesTextRead(doc, p, s, q, sp, f);
    } else {
      ScalarRead(doc, p, s, q, sp, f);
    }
  }

  lemma ScalarRead(doc: string, p: nat, s: nat, q: nat, sp: Spelled, f: Features)
    requires p <= s < q <= |doc| && InFront(doc, p, s, f) && Spells(doc, s, q, sp, f) && Accepted(sp, f)
    requires !sp.ItemsText? && !sp.EntriesText?
    ensures ParseValue(doc, p, f) == Reads(Meaning(sp, f), q)
  {
    hide Lex, LexValue, LexPastComments, InFront, Spells, SkipSpaces, Decode, NumberMeaning, DecodeNumber, CharsMeaning,
      AcceptedChars, IsBlank;
    ScalarSpells(doc, s, q, sp, f);
    FrontLexed(doc, p, s, f);
    if sp.NumberText? { NumberMeaningIs(sp.text, f); }
  }

  lemma OpensArray(doc: string, p: nat, f: Features)
    requires p <= |doc| && LexValue(doc, p, f).kind == ArrayBegin
    ensures ParseValue(doc, p, f) == ParseArray(doc, LexValue(doc, p, f).end, f)
  {
    hide LexValue, ParseArray;
  }

  lemma OpensObject(doc: string, p: nat, f: Features)
    requires p <= |doc| && LexValue(doc, p, f).kind == ObjectBegin
    ensures ParseValue(doc, p, f) == ParseMembers(doc, LexValue(doc, p, f).end, [], "", f)
  {
    hide LexValue, ParseMembers;
  }

  /** Spaces in front of a value do not matter. */
  lemma ValueSkips(doc: string, p: nat, f: Features)
    requires p <= |doc|
    ensures ParseValue(doc, p, f) == ParseValue(doc, SkipSpaces(doc, p), f)
  {
    hide SkipSpaces, Lex, IsBlank, ParseMembers, ParseArray, DecodeNumber, Decode;
    var s := SkipSpaces(doc, p);
    SkipIs(doc, p);
    LexSkips(doc, p, s);
  }

  lemma ElementsSkip(doc: string, p: nat, xs: seq<Value>, f: Features)
    requires p <= |doc|
    ensures ParseElements(doc, p, xs, f) == ParseElements(doc, SkipSpaces(doc, p), xs, f)
  {
    hide SkipSpaces, ParseValue, LexPastComments;
    ValueSkips(doc, p, f);
  }

  /** A bracket that closes is no value. */
  lemma NoValue(doc: string, p: nat, f: Features)
    requires p <= |doc| && At(doc, SkipSpaces(doc, p)) == ']'
    ensures ParseValue(doc, p, f) == Fails
  {
    hide SkipSpaces, Lex, LexPastComments, ParseMembers, ParseArray, DecodeNumber, Decode;
    var s := SkipSpaces(doc, p);
    SkipIs(doc, p);
    MarkLexed(doc, s);
    LexSkips(doc, p, s);
    PastNoComment(doc, p);
  }

  lemma PastNoComment(doc: string, p: nat)
    requires p <= |doc| && Lex(doc, p).kind != Comment
    ensures LexPastComments(doc, p) == Lex(doc, p)
  {
    hide Lex;
  }

  lemma {:induction false} ItemsTextRead(doc: string, p: nat, s: nat, q: nat, sp: Spelled, f: Features)
    requires p <= s < q <= |doc| && InFront(doc, p, s, f) && Spells(doc, s, q, sp, f) && Accepted(sp, f)
      && sp.ItemsText?
    ensures ParseValue(doc, p, f) == Reads(Meaning(sp, f), q)
    decreases sp, 1, 0
  {
    hide Lex, LexValue, LexPastComments, InFront, SkipSpaces, ParseValue, ParseElements, SpansItems, Accepted, Blanks;
    MarkLexed(doc, s);
    FrontLexed(doc, p, s, f);
    OpensArray(doc, p, f);
    if sp.items == [] {
      SkipOver(doc, s + 1, q - 1);
    } else {
      SpansItemsRead(doc, s + 1, q, sp, 0, f);
      ElementsSkip(doc, s + 1, [], f);
      ElementsNeedValue(doc, s + 1, [], f);
    }
  }

  lemma ElementsNeedValue(doc: string, p: nat, xs: seq<Value>, f: Features)
    requires p <= |doc| && ParseElements(doc, p, xs, f).Reads?
    ensures At(doc, SkipSpaces(doc, p)) != ']'
  {
    hide SkipSpaces, ParseValue, LexPastComments;
    if At(doc, SkipSpaces(doc, p)) == ']' { NoValue(doc, p, f); }
  }

  lemma ItemAccepted(sp: Spelled, i: nat, f: Features)
    requires sp.ItemsText? && Accepted(sp, f) && i < |sp.items|
    ensures Accepted(sp.items[i], f)
  {
  }

  lemma {:induction false} SpansItemsRead(doc: string, p: nat, q: nat, sp: Spelled, i: nat, f: Features)
    requires q <= |doc| && sp.ItemsText? && i < |sp.items| && Accepted(sp, f) && SpansItems(doc, p, q, sp, i, f)
    ensures p <= |doc|
    ensures ParseElements(doc, p, ItemsMeaning(sp, i, f), f) == Reads(Array(ItemsMeaning(sp, |sp.items|, f)), q)
    decreases sp, 0, |sp.items| - i
  {
    hide Lex, LexPastComments, ParseValue, Accepted, Gap, Spans, Meaning;
    var m: nat, x: nat :|
      && Spans(doc, p, m, sp.items[i], f) && Gap(doc, m, x) && x < q
      && if i + 1 == |sp.items| then doc[x] == ']' && q == x + 1
         else doc[x] == ',' && SpansItems(doc, x + 1, q, sp, i + 1, f);
    ItemAccepted(sp, i, f);
    SpansRead(doc, p, m, sp.items[i], f);
    MarkBehind(doc, m, x);
    if i + 1 < |sp.items| { SpansItemsRead(doc, x + 1, q, sp, i + 1, f); }
  }

  lemma {:induction false} EntriesTextRead(doc: string, p: nat, s: nat, q: nat, sp: Spelled, f: Features)
    requires p <= s < q <= |doc| && InFront(doc, p, s, f) && Spells(doc, s, q, sp, f) && Accepted(sp, f)
      && sp.EntriesText?
    ensures ParseValue(doc, p, f) == Reads(Meaning(sp, f), q)
    decreases sp, 1, 0
  {
    hide Lex, LexValue, LexPastComments, InFront, SkipSpaces, ParseValue, ParseMembers, SpansEntries, Accepted;
    MarkLexed(doc, s);
    FrontLexed(doc, p, s, f);
    OpensObject(doc, p, f);
    SpansEntriesRead(doc, s + 1, q, sp, 0, "", f);
  }

  lemma EntryAccepted(sp: Spelled, i: nat, f: Features)
    requires sp.EntriesText? && Accepted(sp, f) && i < |sp.entries|
    ensures AcceptedChars(sp.entries[i].name) && Accepted(sp.entries[i].value, f)
  {
    hide AcceptedChars;
  }

  /** A name and its colon are read. */
  lemma NameReads(doc: string, p: nat, c: nat, name: seq<Char>, ms: seq<Member>, last: string, f: Features)
    returns (e: nat)
    requires AcceptedChars(name) && SpansName(doc, p, c, name)
    ensures p <= |doc| && e < c <= |doc|
    ensures ParseMembers(doc, p, ms, last, f) == ParseMember(doc, e, ms, CharsMeaning(name), f)
    ensures Lex(doc, e).kind == MemberSeparator && Lex(doc, e).end == c
  {
    hide Lex, LexPastComments, Quote, CharsMeaning, AcceptedChars, Gap, ParseMember, Decode, Stands;
    var a: nat :|
      && Gap(doc, p, a) && Stands(doc, a, Quote(name))
      && a + |Quote(name)| < c <= |doc| && Blanks(doc, a + |Quote(name)|, c - 1) && doc[c - 1] == ':';
    e := a + |Quote(name)|;
    StringReads(doc, a, name);
    GapInside(doc, p, a);
    GapLexed(doc, p, a);
    MarkLexed(doc, c - 1);
    LexSkips(doc, e, c - 1);
  }

  lemma MemberEnds(doc: string, e: nat, ms: seq<Member>, name: string, f: Features, v: Value, m: nat)
    requires e <= |doc| && Lex(doc, e).kind == MemberSeparator && ParseValue(doc, Lex(doc, e).end, f) == Reads(v, m)
    requires m <= |doc| && Lex(doc, m).kind in {ObjectEnd, ArraySeparator, Comment}
    ensures ParseMember(doc, e, ms, name, f) ==
      var last := LexPastComments(doc, m);
      var ms' := Put(ms, UpToNul(name), v);
      if last.kind == ObjectEnd then Reads(Object(ms'), last.end) else ParseMembers(doc, last.end, ms', name, f)
  {
    hide Lex, LexPastComments, ParseValue, ParseMembers, Put, UpToNul;
  }

  lemma SeparatorReads(doc: string, m: nat, x: nat, y: nat)
    requires Gap(doc, m, x) && x < |doc| && Separates(doc, m, x, y)
    ensures m <= |doc| && Lex(doc, m).kind in {ObjectEnd, ArraySeparator, Comment}
    ensures LexPastComments(doc, m).kind != ObjectEnd && LexPastComments(doc, m).end == y
  {
    hide Lex, LexPastComments, AnyToken, Gap, Blanks;
    if doc[x] == ',' && y == x + 1 {
      MarkBehind(doc, m, x);
    } else {
      TokenBegins(doc, x, y);
      AnyTokenLexed(doc, x, y);
      GapFirst(doc, m, x);
    }
  }

  lemma TokenBegins(doc: string, x: nat, y: nat)
    requires x < |doc| && AnyToken(doc, x, y)
    ensures !IsBlank(doc[x]) && x < y
  {
    hide AnyString, IsComment, IsBlank;
  }

  lemma {:induction false} SpansEntriesRead(doc: string, p: nat, q: nat, sp: Spelled, i: nat, last: string, f: Features)
    requires q <= |doc| && sp.EntriesText? && i <= |sp.entries| && Accepted(sp, f)
      && SpansEntries(doc, p, q, sp, i, last, f)
    ensures p <= |doc|
    ensures ParseMembers(doc, p, EntriesMeaning(sp, i, f), last, f)
         == Reads(Object(EntriesMeaning(sp, |sp.entries|, f)), q)
    decreases sp, 0, |sp.entries| - i
  {
    hide Lex, LexPastComments, ParseValue, Accepted, Gap, Spans, Meaning, ParseMember, Put, SpansName, Separates,
      CharsMeaning, AcceptedChars;
    if i == |sp.entries| {
      var x: nat :| Gap(doc, p, x) && x + 1 == q && doc[x] == '}';
      MarkBehind(doc, p, x);
    } else {
      var e := sp.entries[i];
      EntryAccepted(sp, i, f);
      var c: nat, m: nat, x: nat :|
        && SpansName(doc, p, c, e.name) && Spans(doc, c, m, e.value, f) && Gap(doc, m, x) && x < q
        && ((i + 1 == |sp.entries| && doc[x] == '}' && q == x + 1)
            || exists y: nat :: y <= q && Separates(doc, m, x, y)
                                && SpansEntries(doc, y, q, sp, i + 1, CharsMeaning(e.name), f));
      SpansRead(doc, c, m, e.value, f);
      var done := EntriesMeaning(sp, i, f);
      if i + 1 == |sp.entries| && doc[x] == '}' && q == x + 1 {
        LastRead(doc, p, c, m, x, e.name, Meaning(e.value, f), done, last, f);
      } else {
        var y: nat :| y <= q && Separates(doc, m, x, y)
          && SpansEntries(doc, y, q, sp, i + 1, CharsMeaning(e.name), f);
        MoreRead(doc, p, c, m, x, y, e.name, Meaning(e.value, f), done, last, f);
        SpansEntriesRead(doc, y, q, sp, i + 1, CharsMeaning(e.name), f);
      }
    }
  }

  /** A member and the closing brace. */
  lemma LastRead(doc: string, p: nat, c: nat, m: nat, x: nat, name: seq<Char>, v: Value, ms: seq<Member>, last: string,
                 f: Features)
    requires AcceptedChars(name) && SpansName(doc, p, c, name) && c <= |doc| && ParseValue(doc, c, f) == Reads(v, m)
    requires Gap(doc, m, x) && x < |doc| && doc[x] == '}'
    ensures p <= |doc|
    ensures ParseMembers(doc, p, ms, last, f) == Reads(Object(Put(ms, UpToNul(CharsMeaning(name)), v)), x + 1)
  {
    hide Lex, LexPastComments, ParseValue, Gap, ParseMember, ParseMembers, Put, SpansName, CharsMeaning, AcceptedChars,
      UpToNul;
    var n := NameReads(doc, p, c, name, ms, last, f);
    MarkBehind(doc, m, x);
    MemberEnds(doc, n, ms, CharsMeaning(name), f, v, m);
  }

  /** A member and a separator. */
  lemma MoreRead(doc: string, p: nat, c: nat, m: nat, x: nat, y: nat, name: seq<Char>, v: Value, ms: seq<Member>,
                 last: string, f: Features)
    requires AcceptedChars(name) && SpansName(doc, p, c, name) && c <= |doc| && ParseValue(doc, c, f) == Reads(v, m)
    requires Gap(doc, m, x) && x < |doc| && Separates(doc, m, x, y)
    ensures p <= |doc| && y <= |doc|
    ensures ParseMembers(doc, p, ms, last, f)
         == ParseMembers(doc, y, Put(ms, UpToNul(CharsMeaning(name)), v), CharsMeaning(name), f)
  {
    hide Lex, LexPastComments, ParseValue, Gap, ParseMember, ParseMembers, Put, SpansName, CharsMeaning, AcceptedChars,
      UpToNul, Separates;
    var n := NameReads(doc, p, c, name, ms, last, f);
    SeparatorReads(doc, m, x, y);
    MemberEnds(doc, n, ms, CharsMeaning(name), f, v, m);
  }

  // From the reader to the grammar.

  lemma WordFound(doc: string, s: nat)
    requires s < |doc| && !IsBlank(doc[s]) && Lex(doc, s).kind in {NullWord, True, False}
    ensures var word := if Lex(doc, s).kind == NullWord then "null" else if Lex(doc, s).kind == True then "true"
      else "false";
      Stands(doc, s, word) && Lex(doc, s).end == s + |word|
  {
    hide Lex, Stands;
    WordLexed(doc, s);
  }

  lemma NumberFound(doc: string, s: nat)
    requires s < |doc| && !IsBlank(doc[s]) && Lex(doc, s).kind == Numeral && Lex(doc, s).start == s
    ensures var q := Lex(doc, s).end;
      s < q <= |doc| && IsRun(doc[s..q]) && Stands(doc, s, doc[s..q]) && Ends(doc, q)
  {
    hide Lex, IsNumberChar, Ends;
    var q := Lex(doc, s).end;
    NumberLexed(doc, s, q);
    DigitIs(doc[s]);
    NumberCharIs(doc[s]);
    forall i | 0 <= i < q - s ensures IsNumberChar(doc[s..q][i]) { assert doc[s..q][i] == doc[s + i]; }
  }

  /** A scalar that is read is one of the grammar. */
  lemma ScalarFound(doc: string, p: nat, f: Features) returns (sp: Spelled)
    requires p <= |doc| && ParseValue(doc, p, f).Reads? && LexValue(doc, p, f).kind !in {ObjectBegin, ArrayBegin}
    ensures Accepted(sp, f) && Spans(doc, p, ParseValue(doc, p, f).end, sp, f)
    ensures ParseValue(doc, p, f).value == Meaning(sp, f)
  {
    hide Lex, LexValue, InFront, Quote, CharsMeaning, AcceptedChars, Decode, Stands, IsRun, DecodeNumber, NumberMeaning,
      IsBlank, Ends, ParseArray, ParseMembers;
    var t, q := LexValue(doc, p, f), ParseValue(doc, p, f).end;
    FrontFound(doc, p, f);
    var s := t.start;
    if t.kind == Numeral {
      NumberFound(doc, s);
      NumberMeaningIs(doc[s..q], f);
      sp := NumberText(doc[s..q]);
    } else if t.kind == Text {
      var cs := StringFound(doc, s);
      sp := StringText(cs);
    } else {
      WordFound(doc, s);
      sp := if t.kind == NullWord then NullText else BoolText(t.kind == True);
    }
    assert Spells(doc, s, q, sp, f);
  }

  /** What the reader reads is a text of the grammar. */
  lemma {:induction false} ValueFound(doc: string, p: nat, f: Features) returns (sp: Spelled)
    requires p <= |doc| && ParseValue(doc, p, f).Reads?
    ensures Accepted(sp, f) && Spans(doc, p, ParseValue(doc, p, f).end, sp, f)
    ensures ParseValue(doc, p, f).value == Meaning(sp, f)
    decreases |doc| - p, 1
  {
    hide Lex, LexValue, ParseValue, InFront, Spans, Accepted, Meaning;
    var t := LexValue(doc, p, f);
    if t.kind == ArrayBegin {
      sp := ArrayFound(doc, p, f);
    } else if t.kind == ObjectBegin {
      sp := ObjectFound(doc, p, f);
    } else {
      sp := ScalarFound(doc, p, f);
    }
  }

  lemma {:induction false} ArrayFound(doc: string, p: nat, f: Features) returns (sp: Spelled)
    requires p <= |doc| && ParseValue(doc, p, f).Reads? && LexValue(doc, p, f).kind == ArrayBegin
    ensures Accepted(sp, f) && Spans(doc, p, ParseValue(doc, p, f).end, sp, f)
    ensures ParseValue(doc, p, f).value == Meaning(sp, f)
    decreases |doc| - p, 0
  {
    hide Lex, LexValue, ParseValue, ParseElements, InFront, SpansItems, SkipSpaces, Blanks, Spells, Accepted,
      ItemsMeaning;
    var t := LexValue(doc, p, f);
    FrontFound(doc, p, f);
    MarkLexed(doc, t.start);
    OpensArray(doc, p, f);
    SkipIs(doc, t.end);
    ElementsSkip(doc, t.end, [], f);
    NothingAccepted(f);
    if At(doc, SkipSpaces(doc, t.end)) == ']' {
      sp := ItemsText([]);
    } else {
      sp := ElementsFound(doc, t.end, [], f);
    }
    ItemsSpell(doc, t.start, ParseValue(doc, p, f).end, sp, f);
  }

  lemma ItemsSpell(doc: string, s: nat, q: nat, sp: Spelled, f: Features)
    requires s < q <= |doc| && doc[s] == '[' && sp.ItemsText?
    requires if sp.items == [] then doc[q - 1] == ']' && s + 2 <= q && Blanks(doc, s + 1, q - 1)
      else SpansItems(doc, s + 1, q, sp, 0, f)
    ensures Spells(doc, s, q, sp, f)
  {
    hide SpansItems, Blanks;
  }

  lemma NothingAccepted(f: Features)
    ensures Accepted(ItemsText([]), f) && ItemsMeaning(ItemsText([]), 0, f) == []
    ensures Accepted(EntriesText([]), f) && EntriesMeaning(EntriesText([]), 0, f) == []
  {
  }

  lemma ItemsGrow(xs: seq<Spelled>, x: Spelled, f: Features)
    requires Accepted(ItemsText(xs), f) && Accepted(x, f)
    ensures var more := ItemsText(xs + [x]);
      Accepted(more, f) && ItemsMeaning(more, |xs| + 1, f) == ItemsMeaning(ItemsText(xs), |xs|, f) + [Meaning(x, f)]
  {
    hide Meaning;
    var more := ItemsText(xs + [x]);
    assert Accepted(more, f) by {
      hide Meaning;
      assert forall i :: 0 <= i < |xs| + 1 ==> more.items[i] == if i < |xs| then xs[i] else x;
    }
    SameItems(more, ItemsText(xs), |xs|, f);
  }

  lemma {:induction false} SameItems(a: Spelled, b: Spelled, n: nat, f: Features)
    requires a.ItemsText? && b.ItemsText? && Accepted(a, f) && Accepted(b, f) && n <= |a.items| && n <= |b.items|
    requires forall i :: 0 <= i < n ==> a.items[i] == b.items[i]
    ensures ItemsMeaning(a, n, f) == ItemsMeaning(b, n, f)
  {
    hide Meaning, Accepted;
    if n > 0 {
      ItemAccepted(a, n - 1, f);
      SameItems(a, b, n - 1, f);
    }
  }

  /** The elements from `p` on, with those before. */
  lemma {:induction false} ElementsFound(doc: string, p: nat, before: seq<Spelled>, f: Features) returns (sp: Spelled)
    requires p <= |doc| && Accepted(ItemsText(before), f)
    requires ParseElements(doc, p, ItemsMeaning(ItemsText(before), |before|, f), f).Reads?
    ensures sp.ItemsText? && |before| < |sp.items| && sp.items[..|before|] == before && Accepted(sp, f)
    ensures var r := ParseElements(doc, p, ItemsMeaning(ItemsText(before), |before|, f), f);
      SpansItems(doc, p, r.end, sp, |before|, f) && r.value == Array(ItemsMeaning(sp, |sp.items|, f))
    decreases |doc| - p, 2
  {
    hide Lex, LexPastComments, ParseValue, Spans, Accepted, Gap, Meaning, ItemsMeaning, SpansItems;
    var q := ParseElements(doc, p, ItemsMeaning(ItemsText(before), |before|, f), f).end;
    var x := ValueFound(doc, p, f);
    var m := ParseValue(doc, p, f).end;
    var t := LexPastComments(doc, m);
    LexedGap(doc, m);
    MarkLexed(doc, t.start);
    ItemsGrow(before, x, f);
    if t.kind == ArrayEnd {
      sp := ItemsText(before + [x]);
    } else {
      sp := ElementsFound(doc, t.end, before + [x], f);
      assert sp.items[..|before|] == (before + [x])[..|before|] == before;
    }
    assert sp.items[|before|] == (before + [x])[|before|] == x;
    ItemSpans(doc, p, m, t.start, q, sp, |before|, f);
  }

  lemma ItemSpans(doc: string, p: nat, m: nat, x: nat, q: nat, sp: Spelled, i: nat, f: Features)
    requires q <= |doc| && sp.ItemsText? && i < |sp.items| && Spans(doc, p, m, sp.items[i], f) && Gap(doc, m, x)
    requires x < q && if i + 1 == |sp.items| then doc[x] == ']' && q == x + 1
      else doc[x] == ',' && SpansItems(doc, x + 1, q, sp, i + 1, f)
    ensures SpansItems(doc, p, q, sp, i, f)
  {
    hide Spans, Gap;
  }

  lemma EntriesGrow(es: seq<Entry>, e: Entry, f: Features)
    requires Accepted(EntriesText(es), f) && AcceptedChars(e.name) && Accepted(e.value, f)
    ensures var more := EntriesText(es + [e]);
      && Accepted(more, f)
      && EntriesMeaning(more, |es| + 1, f)
         == Put(EntriesMeaning(EntriesText(es), |es|, f), UpToNul(CharsMeaning(e.name)), Meaning(e.value, f))
  {
    hide Meaning, AcceptedChars, CharsMeaning, UpToNul, Put;
    var more := EntriesText(es + [e]);
    assert Accepted(more, f) by {
      assert forall i :: 0 <= i < |es| + 1 ==> more.entries[i] == if i < |es| then es[i] else e;
    }
    SameEntries(more, EntriesText(es), |es|, f);
  }

  lemma {:induction false} SameEntries(a: Spelled, b: Spelled, n: nat, f: Features)
    requires a.EntriesText? && b.EntriesText? && Accepted(a, f) && Accepted(b, f) && n <= |a.entries|
      && n <= |b.entries|
    requires forall i :: 0 <= i < n ==> a.entries[i] == b.entries[i]
    ensures EntriesMeaning(a, n, f) == EntriesMeaning(b, n, f)
  {
    hide Meaning, Accepted, AcceptedChars, CharsMeaning, UpToNul, Put;
    if n > 0 {
      EntryAccepted(a, n - 1, f);
      SameEntries(a, b, n - 1, f);
    }
  }

  lemma {:induction false} ObjectFound(doc: string, p: nat, f: Features) returns (sp: Spelled)
    requires p <= |doc| && ParseValue(doc, p, f).Reads? && LexValue(doc, p, f).kind == ObjectBegin
    ensures Accepted(sp, f) && Spans(doc, p, ParseValue(doc, p, f).end, sp, f)
    ensures ParseValue(doc, p, f).value == Meaning(sp, f)
    decreases |doc| - p, 0
  {
    hide Lex, LexValue, ParseValue, ParseMembers, InFront, SpansEntries, EntriesMeaning, Accepted;
    var t := LexValue(doc, p, f);
    FrontFound(doc, p, f);
    MarkLexed(doc, t.start);
    OpensObject(doc, p, f);
    NothingAccepted(f);
    sp := MembersFound(doc, t.end, [], "", f);
    EntriesSpell(doc, t.start, ParseValue(doc, p, f).end, sp, f);
  }

  lemma EntriesSpell(doc: string, s: nat, q: nat, sp: Spelled, f: Features)
    requires s < q <= |doc| && doc[s] == '{' && sp.EntriesText? && SpansEntries(doc, s + 1, q, sp, 0, "", f)
    ensures Spells(doc, s, q, sp, f)
  {
    hide SpansEntries;
  }

  /** A name and its colon that are read. */
  lemma NameFound(doc: string, p: nat, ms: seq<Member>, last: string, f: Features) returns (name: seq<Char>, e: nat)
    requires p <= |doc| && ParseMembers(doc, p, ms, last, f).Reads?
    requires LexPastComments(doc, p).kind != ObjectEnd || last != ""
    ensures AcceptedChars(name) && p < e <= |doc| && Lex(doc, e).kind == MemberSeparator
    ensures SpansName(doc, p, Lex(doc, e).end, name)
    ensures ParseMembers(doc, p, ms, last, f) == ParseMember(doc, e, ms, CharsMeaning(name), f)
  {
    hide Lex, LexPastComments, Quote, CharsMeaning, AcceptedChars, Gap, Decode, Stands, ParseValue, Put;
    var t := LexPastComments(doc, p);
    LexedGap(doc, p);
    name := StringFound(doc, t.start);
    e := t.end;
    LexedAt(doc, e);
    MarkLexed(doc, Lex(doc, e).start);
  }

  /** The value of a member and what stands behind it. */
  lemma SeparatorFound(doc: string, m: nat) returns (x: nat)
    requires m <= |doc| && Lex(doc, m).kind in {ObjectEnd, ArraySeparator, Comment}
    requires LexPastComments(doc, m).start < |doc|
    ensures x == LexPastComments(doc, m).start && x < |doc| && Gap(doc, m, x)
    ensures var t := LexPastComments(doc, m);
      if t.kind == ObjectEnd then doc[x] == '}' && t.end == x + 1 else Separates(doc, m, x, t.end)
  {
    hide Lex, LexPastComments, Gap, AnyToken, Blanks;
    var t := LexPastComments(doc, m);
    x := t.start;
    LexedGap(doc, m);
    MarkLexed(doc, x);
    GapFirst(doc, m, x);
    AnyTokenLexed(doc, x, t.end);
  }

  /** At the end of the text no member follows. */
  lemma NothingBehind(doc: string, m: nat, ms: seq<Member>, name: string, f: Features)
    requires m <= |doc|
    ensures var t := LexPastComments(doc, m);
      t.start == |doc| ==> t.kind == EndOfStream && ParseMembers(doc, t.end, ms, name, f) == Fails
  {
    hide LexPastComments;
    LexedGap(doc, m);
    AtEnd(doc, ms, name, f);
  }

  lemma AtEnd(doc: string, ms: seq<Member>, name: string, f: Features)
    ensures ParseMembers(doc, |doc|, ms, name, f) == Fails
    ensures Lex(doc, |doc|) == Token(EndOfStream, |doc|, |doc|)
  {
  }

  lemma EntrySpans(doc: string, p: nat, c: nat, m: nat, x: nat, q: nat, sp: Spelled, i: nat, last: string, f: Features)
    requires q <= |doc| && sp.EntriesText? && i < |sp.entries| && AcceptedChars(sp.entries[i].name)
    requires SpansName(doc, p, c, sp.entries[i].name) && Spans(doc, c, m, sp.entries[i].value, f) && Gap(doc, m, x)
      && x < q
    requires || (i + 1 == |sp.entries| && doc[x] == '}' && q == x + 1)
      || exists y: nat :: y <= q && Separates(doc, m, x, y)
                          && SpansEntries(doc, y, q, sp, i + 1, CharsMeaning(sp.entries[i].name), f)
    ensures SpansEntries(doc, p, q, sp, i, last, f)
  {
    hide SpansName, Spans, Gap, Separates, CharsMeaning, AcceptedChars;
  }

  /** The members from `p` on, with those before. */
  lemma {:induction false} MembersFound(doc: string, p: nat, before: seq<Entry>, last: string, f: Features)
    returns (sp: Spelled)
    requires p <= |doc| && Accepted(EntriesText(before), f)
    requires ParseMembers(doc, p, EntriesMeaning(EntriesText(before), |before|, f), last, f).Reads?
    ensures sp.EntriesText? && |before| <= |sp.entries| && sp.entries[..|before|] == before && Accepted(sp, f)
    ensures var r := ParseMembers(doc, p, EntriesMeaning(EntriesText(before), |before|, f), last, f);
      SpansEntries(doc, p, r.end, sp, |before|, last, f) && r.value == Object(EntriesMeaning(sp, |sp.entries|, f))
    decreases |doc| - p, 2
  {
    hide Lex, LexPastComments, ParseMember, Accepted, Gap, EntriesMeaning;
    var ms := EntriesMeaning(EntriesText(before), |before|, f);
    var t := LexPastComments(doc, p);
    if t.kind == ObjectEnd && last == "" {
      LexedGap(doc, p);
      MarkLexed(doc, t.start);
      sp := EntriesText(before);
    } else {
      sp := MemberFound(doc, p, before, last, f);
    }
  }

  lemma {:induction false} MemberFound(doc: string, p: nat, before: seq<Entry>, last: string, f: Features)
    returns (sp: Spelled)
    requires p <= |doc| && Accepted(EntriesText(before), f)
    requires ParseMembers(doc, p, EntriesMeaning(EntriesText(before), |before|, f), last, f).Reads?
    requires LexPastComments(doc, p).kind != ObjectEnd || last != ""
    ensures sp.EntriesText? && |before| <= |sp.entries| && sp.entries[..|before|] == before && Accepted(sp, f)
    ensures var r := ParseMembers(doc, p, EntriesMeaning(EntriesText(before), |before|, f), last, f);
      SpansEntries(doc, p, r.end, sp, |before|, last, f) && r.value == Object(EntriesMeaning(sp, |sp.entries|, f))
    decreases |doc| - p, 1
  {
    hide Lex, LexPastComments, ParseValue, ParseMembers, Accepted, Gap, EntriesMeaning, Spans, SpansName, Meaning,
      CharsMeaning, AcceptedChars, Separates, Put, UpToNul, SpansEntries;
    var ms := EntriesMeaning(EntriesText(before), |before|, f);
    var name, e := NameFound(doc, p, ms, last, f);
    var c := Lex(doc, e).end;
    var v := ValueFound(doc, c, f);
    var m := ParseValue(doc, c, f).end;
    var t := LexPastComments(doc, m);
    MemberEnds(doc, e, ms, CharsMeaning(name), f, ParseValue(doc, c, f).value, m);
    EntriesGrow(before, Entry(name, v), f);
    var more := before + [Entry(name, v)];
    NothingBehind(doc, m, EntriesMeaning(EntriesText(more), |more|, f), CharsMeaning(name), f);
    var x := SeparatorFound(doc, m);
    if t.kind == ObjectEnd {
      sp := EntriesText(more);
    } else {
      sp := MembersFound(doc, t.end, more, CharsMeaning(name), f);
      assert sp.entries[..|before|] == more[..|before|] == before;
    }
    assert sp.entries[|before|] == more[|before|];
    EntrySpans(doc, p, c, m, x, ParseMembers(doc, p, ms, last, f).end, sp, |before|, last, f);
  }

  // Documents.

  /** A document is read iff it is a text of the grammar, and then as its meaning. */
  lemma AcceptedIff(doc: string, f: Features)
    ensures ParseDocument(doc, f).Some? <==> exists sp :: IsText(doc, sp, f)
    ensures forall sp :: IsText(doc, sp, f) ==> ParseDocument(doc, f) == Some(Meaning(sp, f))
  {
    hide ParseValue, Spans, Accepted, Meaning;
    if ParseDocument(doc, f).Some? {
      var sp := ValueFound(doc, 0, f);
      RootKind(sp, f);
      assert IsText(doc, sp, f);
    }
    forall sp | IsText(doc, sp, f) ensures ParseDocument(doc, f) == Some(Meaning(sp, f)) {
      var q: nat :| Spans(doc, 0, q, sp, f);
      SpansRead(doc, 0, q, sp, f);
      RootKind(sp, f);
    }
  }

  lemma RootKind(sp: Spelled, f: Features)
    requires Accepted(sp, f)
    ensures Meaning(sp, f).Array? <==> sp.ItemsText?
    ensures Meaning(sp, f).Object? <==> sp.EntriesText?
  {
    hide ItemsMeaning, EntriesMeaning, CharsMeaning;
  }
}
