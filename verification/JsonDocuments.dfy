/** The texts of RFC 8259 are texts of the reader's grammar. */
module JsonDocuments {
  import opened Wrappers
  import opened JsonText
  import opened JsonValue
  import opened JsonGrammar
  import opened JsonPieces
  import opened JsonSpelling
  import opened JsonLexing
  import opened JsonAccepted

  // What is legal is accepted.

  lemma LegalCharsAccepted(cs: seq<Char>)
    requires LegalChars(cs)
    ensures AcceptedChars(cs)
  {
    hide HexNumber, IsHex;
    forall i | 0 <= i < |cs| ensures AcceptedChar(cs[i]) { LegalCharAccepted(cs[i]); }
  }

  lemma LegalCharAccepted(ch: Char)
    requires LegalChar(ch)
    ensures AcceptedChar(ch)
  {
    hide HexNumber, IsHex;
  }

  lemma NumberIsRun(t: string)
    requires IsNumber(t)
    ensures IsRun(t)
  {
    hide IsNumber, IsNumberChar, IsNumeric;
    NumberChars(t);
    DigitIs(t[0]);
    forall i | 0 <= i < |t| ensures IsNumberChar(t[i]) { NumberCharIs(t[i]); }
  }

  lemma {:induction false} LegalAccepted(sp: Spelled, f: Features)
    requires Legal(sp, f)
    ensures Accepted(sp, f)
    decreases sp
  {
    hide LegalChars, AcceptedChars, IsNumber, IsRun, NumberMeaning;
    match sp
    case NullText =>
    case BoolText(_) =>
    case NumberText(t) => NumberIsRun(t);
    case StringText(cs) => LegalCharsAccepted(cs);
    case ItemsText(xs) => forall i | 0 <= i < |xs| ensures Accepted(xs[i], f) { LegalAccepted(xs[i], f); }
    case EntriesText(es) =>
      forall i | 0 <= i < |es| ensures AcceptedChars(es[i].name) && Accepted(es[i].value, f) {
        LegalCharsAccepted(es[i].name);
        LegalAccepted(es[i].value, f);
      }
  }

  // Texts that lay out the tokens of a value.

  lemma OnePiece(piece: string)
    ensures [piece] + [] == [piece]
  {
  }

  lemma NoPieces(doc: string, p: nat)
    requires p <= |doc|
    ensures Lay(doc, p, []) == Some(p)
  {
  }

  /** The first token stands behind spaces. */
  lemma LaidFirst(doc: string, p: nat, piece: string, rest: seq<string>) returns (s: nat)
    requires p <= |doc| && Lay(doc, p, [piece] + rest).Some?
    ensures p <= s && s + |piece| <= |doc| && Blanks(doc, p, s) && Stands(doc, s, piece)
    ensures Lay(doc, s + |piece|, rest) == Lay(doc, p, [piece] + rest)
  {
    hide SkipSpaces, Lay;
    s := SkipSpaces(doc, p);
    LayFirst(doc, p, piece, rest);
    SkipIs(doc, p);
  }

  /** A mark behind spaces. */
  lemma LaidMark(doc: string, p: nat, mark: char, rest: seq<string>) returns (x: nat)
    requires p <= |doc| && Lay(doc, p, [[mark]] + rest).Some?
    ensures p <= x < |doc| && Blanks(doc, p, x) && Gap(doc, p, x) && doc[x] == mark
    ensures Lay(doc, x + 1, rest) == Lay(doc, p, [[mark]] + rest)
  {
    hide Lay, Blanks;
    x := LaidFirst(doc, p, [mark], rest);
    BlanksAreGap(doc, p, x);
    assert doc[x] == doc[x..x + 1][0] == mark;
  }

  lemma EndsAtMark(doc: string, q: nat, x: nat)
    requires Blanks(doc, q, x) && x < |doc| && doc[x] in ",]}"
    ensures Ends(doc, q)
  {
  }

  lemma FrontOf(doc: string, p: nat, s: nat, f: Features)
    requires Blanks(doc, p, s)
    ensures InFront(doc, p, s, f)
  {
    BlanksAreGap(doc, p, s);
  }

  lemma ScalarLaid(doc: string, p: nat, sp: Spelled, f: Features)
    requires p <= |doc| && Legal(sp, f) && !sp.ItemsText? && !sp.EntriesText?
    requires Lay(doc, p, Tokens(sp)).Some? && Ends(doc, Lay(doc, p, Tokens(sp)).value)
    ensures Spans(doc, p, Lay(doc, p, Tokens(sp)).value, sp, f)
  {
    hide Lay, Quote, NumberMeaning, LegalChars, Ends, Stands, InFront, Blanks, IsNumber;
    var t, q := Tokens(sp)[0], Lay(doc, p, Tokens(sp)).value;
    OnePiece(t);
    var s := LaidFirst(doc, p, t, []);
    NoPieces(doc, s + |t|);
    FrontOf(doc, p, s, f);
    if sp.NumberText? { NumberChars(sp.text); }
    if sp.StringText? { assert |Quote(sp.chars)| >= 2 by { QuoteLength(sp.chars); } }
    assert Spells(doc, s, q, sp, f);
  }

  lemma QuoteLength(cs: seq<Char>)
    ensures |Quote(cs)| >= 2
  {
  }

  /** The tokens of a legal value, with any spaces in front of them, span it. */
  lemma {:induction false} Laid(doc: string, p: nat, sp: Spelled, f: Features)
    requires p <= |doc| && Legal(sp, f)
    requires Lay(doc, p, Tokens(sp)).Some? && Ends(doc, Lay(doc, p, Tokens(sp)).value)
    ensures Spans(doc, p, Lay(doc, p, Tokens(sp)).value, sp, f)
    decreases sp, 1, 0
  {
    hide Lay, Tokens, Spans, Ends, Legal;
    if sp.ItemsText? {
      ArrayLaid(doc, p, sp, f);
    } else if sp.EntriesText? {
      ObjectLaid(doc, p, sp, f);
    } else {
      ScalarLaid(doc, p, sp, f);
    }
  }

  lemma {:induction false} ArrayLaid(doc: string, p: nat, sp: Spelled, f: Features)
    requires p <= |doc| && Legal(sp, f) && sp.ItemsText? && Lay(doc, p, Tokens(sp)).Some?
    ensures Spans(doc, p, Lay(doc, p, Tokens(sp)).value, sp, f)
    decreases sp, 0, |sp.items| + 1
  {
    hide Lay, ItemTokens, SpansItems, Legal, InFront, Gap, Blanks;
    var q := Lay(doc, p, Tokens(sp)).value;
    var s := LaidMark(doc, p, '[', Inside(sp) + ["]"]);
    FrontOf(doc, p, s, f);
    if sp.items == [] {
      assert Inside(sp) + ["]"] == ["]"] + [];
      var x := LaidMark(doc, s + 1, ']', []);
      NoPieces(doc, x + 1);
    } else {
      ItemsLaid(doc, s + 1, sp, 0, f);
    }
    assert Spells(doc, s, q, sp, f);
  }

  /** What stands behind the `i`-th element. */
  function BehindItem(sp: Spelled, i: nat): seq<string>
    requires sp.ItemsText? && i < |sp.items|
  {
    if i + 1 == |sp.items| then ["]"] else [","] + (ItemTokens(sp, i + 1) + ["]"])
  }

  lemma ItemParts(sp: Spelled, i: nat)
    requires sp.ItemsText? && i < |sp.items|
    ensures ItemTokens(sp, i) + ["]"] == Tokens(sp.items[i]) + BehindItem(sp, i)
  {
    hide Tokens;
  }

  lemma ItemLegal(sp: Spelled, i: nat, f: Features)
    requires sp.ItemsText? && Legal(sp, f) && i < |sp.items|
    ensures Legal(sp.items[i], f)
  {
  }

  lemma {:induction false} ItemsLaid(doc: string, p: nat, sp: Spelled, i: nat, f: Features)
    requires p <= |doc| && sp.ItemsText? && Legal(sp, f) && i < |sp.items|
    requires Lay(doc, p, ItemTokens(sp, i) + ["]"]).Some?
    ensures p < Lay(doc, p, ItemTokens(sp, i) + ["]"]).value
    ensures SpansItems(doc, p, Lay(doc, p, ItemTokens(sp, i) + ["]"]).value, sp, i, f)
    decreases sp, 0, |sp.items| - i
  {
    hide Lay, ItemTokens, Tokens, Spans, Legal, Ends, Gap, Blanks;
    var last := i + 1 == |sp.items|;
    var mark, rest := if last then ']' else ',', if last then [] else ItemTokens(sp, i + 1) + ["]"];
    ItemLegal(sp, i, f);
    ItemParts(sp, i);
    assert BehindItem(sp, i) == [[mark]] + rest;
    LaySum(doc, p, Tokens(sp.items[i]), BehindItem(sp, i));
    var m := Lay(doc, p, Tokens(sp.items[i])).value;
    var x := LaidMark(doc, m, mark, rest);
    EndsAtMark(doc, m, x);
    Laid(doc, p, sp.items[i], f);
    NoPieces(doc, x + 1);
    if !last { ItemsLaid(doc, x + 1, sp, i + 1, f); }
  }

  lemma {:induction false} ObjectLaid(doc: string, p: nat, sp: Spelled, f: Features)
    requires p <= |doc| && Legal(sp, f) && sp.EntriesText? && Lay(doc, p, Tokens(sp)).Some?
    ensures Spans(doc, p, Lay(doc, p, Tokens(sp)).value, sp, f)
    decreases sp, 0, |sp.entries| + 1
  {
    hide Lay, EntryTokens, SpansEntries, Legal, InFront, Gap, Blanks;
    var q := Lay(doc, p, Tokens(sp)).value;
    var s := LaidMark(doc, p, '{', Inside(sp) + ["}"]);
    FrontOf(doc, p, s, f);
    if sp.entries == [] {
      assert Inside(sp) + ["}"] == ["}"] + [];
      var x := LaidMark(doc, s + 1, '}', []);
      NoPieces(doc, x + 1);
      NoEntries(doc, s + 1, x, sp, f);
    } else {
      EntriesLaid(doc, s + 1, sp, 0, "", f);
    }
    assert Spells(doc, s, q, sp, f);
  }

  lemma NoEntries(doc: string, p: nat, x: nat, sp: Spelled, f: Features)
    requires sp == EntriesText([]) && Gap(doc, p, x) && x < |doc| && doc[x] == '}'
    ensures SpansEntries(doc, p, x + 1, sp, 0, "", f)
  {
    hide Gap;
  }

  /** What stands behind the value of the `i`-th member. */
  function Behind(sp: Spelled, i: nat): seq<string>
    requires sp.EntriesText? && i < |sp.entries|
  {
    if i + 1 == |sp.entries| then ["}"] else [","] + (EntryTokens(sp, i + 1) + ["}"])
  }

  lemma EntryParts(sp: Spelled, i: nat)
    requires sp.EntriesText? && i < |sp.entries|
    ensures EntryTokens(sp, i) + ["}"]
         == [Quote(sp.entries[i].name)] + ([":"] + (Tokens(sp.entries[i].value) + Behind(sp, i)))
  {
    hide Quote, Tokens;
  }

  lemma EntryLegal(sp: Spelled, i: nat, f: Features)
    requires sp.EntriesText? && Legal(sp, f) && i < |sp.entries|
    ensures AcceptedChars(sp.entries[i].name) && Legal(sp.entries[i].value, f)
  {
    hide LegalChars, AcceptedChars;
    LegalCharsAccepted(sp.entries[i].name);
  }

  /** A name and its colon. */
  lemma NameLaid(doc: string, p: nat, name: seq<Char>, rest: seq<string>) returns (c: nat)
    requires p <= |doc| && Lay(doc, p, [Quote(name)] + ([":"] + rest)).Some?
    ensures p < c <= |doc| && SpansName(doc, p, c, name)
    ensures Lay(doc, c, rest) == Lay(doc, p, [Quote(name)] + ([":"] + rest))
  {
    hide Lay, Quote, Gap, Blanks, Stands;
    var a := LaidFirst(doc, p, Quote(name), [":"] + rest);
    BlanksAreGap(doc, p, a);
    var x := LaidMark(doc, a + |Quote(name)|, ':', rest);
    c := x + 1;
  }

  lemma {:induction false} EntriesLaid(doc: string, p: nat, sp: Spelled, i: nat, name: string, f: Features)
    requires p <= |doc| && sp.EntriesText? && Legal(sp, f) && i < |sp.entries|
    requires Lay(doc, p, EntryTokens(sp, i) + ["}"]).Some?
    ensures p < Lay(doc, p, EntryTokens(sp, i) + ["}"]).value
    ensures SpansEntries(doc, p, Lay(doc, p, EntryTokens(sp, i) + ["}"]).value, sp, i, name, f)
    decreases sp, 0, |sp.entries| - i
  {
    hide Lay, EntryTokens, Tokens, Spans, Legal, Ends, Gap, Blanks, Quote, SpansName, AcceptedChars, SpansEntries,
      CharsMeaning;
    var e, last := sp.entries[i], i + 1 == |sp.entries|;
    var mark, rest := if last then '}' else ',', if last then [] else EntryTokens(sp, i + 1) + ["}"];
    EntryLegal(sp, i, f);
    EntryParts(sp, i);
    var c := NameLaid(doc, p, e.name, Tokens(e.value) + Behind(sp, i));
    assert Behind(sp, i) == [[mark]] + rest;
    LaySum(doc, c, Tokens(e.value), Behind(sp, i));
    var m := Lay(doc, c, Tokens(e.value)).value;
    var x := LaidMark(doc, m, mark, rest);
    EndsAtMark(doc, m, x);
    Laid(doc, c, e.value, f);
    NoPieces(doc, x + 1);
    if !last {
      EntriesLaid(doc, x + 1, sp, i + 1, CharsMeaning(e.name), f);
      assert Separates(doc, m, x, x + 1);
    }
    EntrySpans(doc, p, c, m, x, Lay(doc, p, EntryTokens(sp, i) + ["}"]).value, sp, i, name, f);
  }

  // Reading.

  /** Every text that lays out the tokens of a legal value, with any spaces, is read as its meaning. */
  lemma ReadsSpelled(doc: string, p: nat, sp: Spelled, f: Features)
    requires p <= |doc| && Legal(sp, f)
    requires Lay(doc, p, Tokens(sp)).Some? && Ends(doc, Lay(doc, p, Tokens(sp)).value)
    ensures Accepted(sp, f) && ParseValue(doc, p, f) == Reads(Meaning(sp, f), Lay(doc, p, Tokens(sp)).value)
  {
    hide Lay, ParseValue, Legal, Tokens, Spans, Accepted, Meaning, Ends;
    LegalAccepted(sp, f);
    Laid(doc, p, sp, f);
    SpansRead(doc, p, Lay(doc, p, Tokens(sp)).value, sp, f);
  }

  /** A JSON text: a value, and spaces behind it. */
  ghost predicate IsDocument(doc: string, sp: Spelled) {
    var end := Lay(doc, 0, Tokens(sp));
    end.Some? && Blanks(doc, end.value, |doc|)
  }

  /** Every JSON text is read as its meaning; with a strict root only arrays and objects are. */
  lemma EveryDocumentIsRead(doc: string, sp: Spelled, f: Features)
    requires Legal(sp, f) && IsDocument(doc, sp)
    ensures Accepted(sp, f)
    ensures ParseDocument(doc, f) == if f.strictRoot && !sp.ItemsText? && !sp.EntriesText? then None
      else Some(Meaning(sp, f))
  {
    hide Lay, ParseValue, Legal, Tokens, Accepted, Meaning;
    ReadsSpelled(doc, 0, sp, f);
    RootKind(sp, f);
  }
}
