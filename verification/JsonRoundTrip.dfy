/** Reading back: a text that lays out the tokens of a value denotes that value. */
module JsonRoundTrip {
  import opened Wrappers
  import opened JsonText
  import opened JsonReal
  import opened JsonValue
  import opened JsonGrammar
  import opened JsonPieces
  import opened JsonLayout
  import opened JsonSpelling
  import opened JsonDocuments
  import opened JsonCanonical
  import opened JsonWriter
  import JsonReader

  /** A value is read back from any layout of its tokens. */
  lemma ReadsBack(doc: string, p: nat, v: Value, f: Features) returns (w: Value)
    requires p <= |doc| && Writable(v) && Restored(v, f)
    requires Lay(doc, p, Pieces(v)).Some? && Ends(doc, Lay(doc, p, Pieces(v)).value)
    ensures ParseValue(doc, p, f) == Reads(w, Lay(doc, p, Pieces(v)).value) && Same(v, w)
  {
    hide Lay, Pieces, ParseValue, Writable, Tokens, Same, Meaning, Legal, Accepted, Spell, Restored;
    SpelledTokens(v);
    SpelledMeaning(v, f);
    ReadsSpelled(doc, p, Spell(v), f);
    w := Meaning(Spell(v), f);
  }

  // What the printers write lays out the tokens.

  predicate Blank(t: string) {
    forall i :: 0 <= i < |t| ==> IsSpace(t[i])
  }

  predicate Solid(pieces: seq<string>) {
    forall i :: 0 <= i < |pieces| ==> pieces[i] != [] && !IsSpace(pieces[i][0])
  }

  /** The text consists of the pieces and of spaces in front of them. */
  ghost predicate Lays(t: string, pieces: seq<string>) {
    Solid(pieces) && Lay(t, 0, pieces) == Some(|t|)
  }

  lemma {:induction false} SkipMoved(a: string, t: string, b: string, p: nat)
    requires p <= |t| && SkipSpaces(t, p) < |t|
    ensures SkipSpaces(a + t + b, |a| + p) == |a| + SkipSpaces(t, p)
    decreases |t| - p
  {
    assert (a + t + b)[|a| + p] == t[p];
    if IsSpace(t[p]) { SkipMoved(a, t, b, p + 1); }
  }

  lemma WordMoved(a: string, t: string, b: string, p: nat, word: string)
    requires HasWord(t, p, word)
    ensures HasWord(a + t + b, |a| + p, word)
  {
    assert (a + t + b)[|a| + p..|a| + p + |word|] == t[p..p + |word|];
  }

  lemma {:induction false} LayMoved(a: string, t: string, b: string, p: nat, pieces: seq<string>)
    requires p <= |t| && Solid(pieces) && Lay(t, p, pieces).Some?
    ensures Lay(a + t + b, |a| + p, pieces) == Some(|a| + Lay(t, p, pieces).value)
    decreases pieces
  {
    hide HasWord;
    if pieces != [] {
      var s := SkipSpaces(t, p);
      WordInside(t, s, pieces[0]);
      SkipMoved(a, t, b, p);
      WordMoved(a, t, b, s, pieces[0]);
      SolidRest(pieces);
      LayMoved(a, t, b, s + |pieces[0]|, pieces[1..]);
    }
  }

  lemma WordInside(t: string, s: nat, word: string)
    requires HasWord(t, s, word)
    ensures s + |word| <= |t|
  {
  }

  lemma SolidRest(pieces: seq<string>)
    requires Solid(pieces) && pieces != []
    ensures pieces[0] != [] && Solid(pieces[1..])
  {
  }

  lemma {:induction false} LayJoin(doc: string, p: nat, a: seq<string>, b: seq<string>)
    requires p <= |doc| && Lay(doc, p, a).Some?
    ensures Lay(doc, p, a + b) == Lay(doc, Lay(doc, p, a).value, b)
    decreases a
  {
    hide HasWord, SkipSpaces;
    if a == [] {
      assert a + b == b;
    } else {
      assert (a + b)[0] == a[0] && (a + b)[1..] == a[1..] + b;
      var s := SkipSpaces(doc, p);
      WordInside(doc, s, a[0]);
      LayJoin(doc, s + |a[0]|, a[1..], b);
    }
  }

  lemma LaysSum(t: string, a: seq<string>, u: string, b: seq<string>)
    requires Lays(t, a) && Lays(u, b)
    ensures Lays(t + u, a + b)
  {
    hide Lay;
    LayMoved("", t, u, 0, a);
    LayMoved(t, u, "", 0, b);
    assert "" + t + u == t + u && t + u + "" == t + u;
    LayJoin(t + u, 0, a, b);
    assert forall i :: 0 <= i < |a + b| ==> (a + b)[i] == if i < |a| then a[i] else b[i - |a|];
  }

  lemma {:induction false} SkipBlank(ws: string, t: string, p: nat)
    requires Blank(ws) && p <= |ws| && (t == [] || SkipSpaces(t, 0) < |t|)
    ensures SkipSpaces(ws + t, p) == |ws| + SkipSpaces(t, 0)
    decreases |ws| - p
  {
    if p < |ws| {
      assert (ws + t)[p] == ws[p];
      SkipBlank(ws, t, p + 1);
    } else if t != [] {
      SkipMoved(ws, t, "", 0);
      assert ws + t + "" == ws + t;
    }
  }

  lemma LaysBehind(ws: string, t: string, pieces: seq<string>)
    requires Blank(ws) && Lays(t, pieces) && pieces != []
    ensures Lays(ws + t, pieces)
  {
    hide HasWord, SkipSpaces, Blank, Solid;
    var s := SkipSpaces(t, 0);
    WordInside(t, s, pieces[0]);
    SolidRest(pieces);
    SkipBlank(ws, t, 0);
    WordMoved(ws, t, "", s, pieces[0]);
    LayMoved(ws, t, "", s + |pieces[0]|, pieces[1..]);
    assert ws + t + "" == ws + t;
  }

  lemma LaysOne(piece: string)
    requires piece != [] && !IsSpace(piece[0])
    ensures Lays(piece, [piece])
  {
    assert piece[0..|piece|] == piece;
    assert [piece][1..] == [];
  }

  lemma QuotedLays(s: string)
    ensures Lays(Quoted(s), [Quoted(s)])
  {
    LaysOne(Quoted(s));
  }

  lemma MarkLays(mark: string, ws: string)
    requires mark in {"[", "]", "{", "}", ",", ":"} && Blank(ws)
    ensures Lays(ws + mark, [mark])
  {
    LaysOne(mark);
    LaysBehind(ws, mark, [mark]);
  }

  predicate Sound(pieces: seq<string>) {
    Solid(pieces) && pieces != [] && pieces[|pieces| - 1] != ":"
  }

  lemma SoundSum(a: seq<string>, b: seq<string>)
    requires Solid(a) && Sound(b)
    ensures Sound(a + b)
  {
    assert forall i :: 0 <= i < |a + b| ==> (a + b)[i] == if i < |a| then a[i] else b[i - |a|];
  }

  /** No token is empty or starts with a space, and the last one is no colon. */
  lemma {:induction false} PiecesSound(v: Value)
    requires Writable(v)
    ensures Sound(Pieces(v))
    decreases v, 1, 0
  {
    hide ItemPieces, MemberPieces, Quoted, IntText, Shortened, Sound;
    if v.Array? {
      if v.items != [] { ItemsSound(v, 0); }
      BracketsSound("[", if v.items == [] then [] else ItemPieces(v, 0), "]");
    } else if v.Object? {
      if v.members != [] { MembersSound(v, 0); }
      BracketsSound("{", if v.members == [] then [] else MemberPieces(v, 0), "}");
    } else {
      ScalarSound(v);
    }
  }

  lemma ScalarSound(v: Value)
    requires Writable(v) && !v.Array? && !v.Object?
    ensures Sound(Pieces(v))
  {
    hide Decimal, Shortened, Escaped;
    ScalarPiece(v);
    if v.Int? { IntChars(v.whole); }
    if v.UInt? { IntChars(v.natural); }
    if v.Real? { assert IsPrinted(Shortened(v.text)); }
  }

  lemma BracketsSound(open: string, pieces: seq<string>, close: string)
    requires open in {"[", "{"} && close in {"]", "}"} && (pieces == [] || Sound(pieces))
    ensures Sound([open] + pieces + [close])
  {
    var all := [open] + pieces + [close];
    assert forall i :: 0 <= i < |all| ==>
      all[i] == if i == 0 then open else if i <= |pieces| then pieces[i - 1] else close;
  }

  lemma {:induction false} ItemsSound(v: Value, i: nat)
    requires v.Array? && Writable(v) && i < |v.items|
    ensures Sound(ItemPieces(v, i))
    decreases v, 0, |v.items| - i
  {
    hide Pieces, Sound, Writable;
    ItemWritable(v, i);
    PiecesSound(v.items[i]);
    if i + 1 < |v.items| {
      ItemsSound(v, i + 1);
      MarkSound(Pieces(v.items[i]), ",", ItemPieces(v, i + 1));
    } else {
      NoMorePieces(Pieces(v.items[i]));
    }
  }

  lemma MarkSound(a: seq<string>, mark: string, b: seq<string>)
    requires Sound(a) && Sound(b) && mark in {",", ":"}
    ensures Sound(a + ([mark] + b))
  {
    SoundSum([mark], b);
    SoundSum(a, [mark] + b);
  }

  lemma {:induction false} MembersSound(v: Value, i: nat)
    requires v.Object? && Writable(v) && i < |v.members|
    ensures Sound(MemberPieces(v, i))
    decreases v, 0, |v.members| - i
  {
    hide Pieces, Sound, Writable, Quoted;
    MemberWritable(v, i);
    var m := v.members[i];
    PiecesSound(m.value);
    NameSound(m.name);
    MarkSound([Quoted(m.name)], ":", Pieces(m.value));
    var own := [Quoted(m.name), ":"] + Pieces(m.value);
    assert own == [Quoted(m.name)] + ([":"] + Pieces(m.value));
    if i + 1 < |v.members| {
      MembersSound(v, i + 1);
      MarkSound(own, ",", MemberPieces(v, i + 1));
    } else {
      NoMorePieces(own);
    }
  }

  lemma NameSound(name: string)
    ensures Sound([Quoted(name)])
  {
    hide Escaped;
  }

  /** The compact text lays out its tokens. */
  lemma {:induction false} CompactLays(pieces: seq<string>, yaml: bool)
    requires Sound(pieces)
    ensures Lays(Compact(pieces, yaml), pieces)
  {
    hide Lays;
    var p, rest := pieces[0], pieces[1..];
    assert pieces == [p] + rest;
    LaysOne(p);
    if rest == [] {
      CompactOne(p, yaml);
      assert pieces == [p];
    } else {
      CompactLays(rest, yaml);
      if p == ":" && yaml {
        SpaceIsBlank();
        LaysBehind(" ", Compact(rest, yaml), rest);
        LaysSum(p, [p], " " + Compact(rest, yaml), rest);
        assert Compact(pieces, yaml) == p + (" " + Compact(rest, yaml));
      } else {
        LaysSum(p, [p], Compact(rest, yaml), rest);
      }
    }
  }

  lemma FastLays(v: Value, yaml: bool)
    requires Writable(v)
    ensures Lays(FastText(v, yaml), Pieces(v))
  {
    hide Lays, Compact, FastText, Pieces, Sound, Writable;
    CompactIsTokens(v, yaml);
    PiecesSound(v);
    CompactLays(Pieces(v), yaml);
  }

  lemma NothingLays()
    ensures Lays("", [])
  {
  }

  lemma SeparatorLays(some: bool, ws: string)
    ensures Lays(if some then "," else "", if some then [","] else [])
  {
    if some { LaysOne(","); }
  }

  /** Name, colon and value. */
  lemma MemberLays(name: string, before: string, after: string, t: string, pieces: seq<string>)
    requires Blank(before) && Blank(after) && pieces != [] && Lays(t, pieces)
    ensures Lays(Quoted(name) + (before + ":" + (after + t)), [Quoted(name), ":"] + pieces)
  {
    hide Lays, Quoted, Blank;
    QuotedLays(name);
    MarkLays(":", before);
    LaysBehind(after, t, pieces);
    LaysSum(before + ":", [":"], after + t, pieces);
    LaysSum(Quoted(name), [Quoted(name)], before + ":" + (after + t), [":"] + pieces);
    assert [Quoted(name), ":"] + pieces == [Quoted(name)] + ([":"] + pieces);
  }

  // The styled form.

  lemma IndentIsBlank(doc: string, indent: string) returns (ws: string)
    requires Blank(indent)
    ensures Indented(doc, indent) == doc + ws && Blank(ws)
  {
    if doc == [] {
      ws := indent;
    } else if doc[|doc| - 1] == ' ' {
      ws := "";
    } else if doc[|doc| - 1] != '\n' {
      ws := "\n" + indent;
    } else {
      ws := indent;
    }
  }

  lemma DeeperIsBlank(indent: string)
    requires Blank(indent)
    ensures Blank(indent + INDENT)
  {
  }

  lemma {:induction false} StyledLays(doc: string, v: Value, indent: string) returns (t: string)
    requires Writable(v) && Blank(indent)
    ensures Styled(doc, v, indent) == doc + t && Lays(t, Pieces(v))
    decreases v, 1, 0
  {
    hide Lays, ItemPieces, MemberPieces, StyledItems, StyledMembers, Indented, FastText, MultiLine, InlineItems, Blank;
    if IsSimple(v) {
      t := SimpleText(v);
      FastLays(v, false);
    } else if v.Object? {
      t := StyledObjectLays(doc, v, indent);
    } else if MultiLine(v) {
      t := StyledArrayLays(doc, v, indent);
    } else {
      t := InlineArrayLays(v);
      OnOneLine(v);
      Bracketed(doc, "[ ", InlineItems(v, |v.items|), " ]");
    }
  }

  /** Brackets on lines of their own. */
  lemma LinesLay(doc: string, open: string, t: string, pieces: seq<string>, close: string, indent: string)
    returns (u: string)
    requires open in {"[", "{"} && close in {"]", "}"} && Blank(indent) && Lays(t, pieces)
    ensures Indented(Indented(doc, indent) + open + t, indent) + close == doc + u && Lays(u, [open] + pieces + [close])
  {
    hide Lays, Indented, Blank;
    var ws := IndentIsBlank(doc, indent);
    var xs := IndentIsBlank(Indented(doc, indent) + open + t, indent);
    MarkLays(open, ws);
    MarkLays(close, xs);
    LaysSum(ws + open, [open], t, pieces);
    LaysSum(ws + open + t, [open] + pieces, xs + close, [close]);
    u := ws + open + t + (xs + close);
    Six(doc, ws, open, t, xs, close);
    Regroup(ws, open, t, xs, close);
  }

  lemma Regroup(a: string, b: string, c: string, d: string, e: string)
    ensures a + b + c + (d + e) == a + b + c + d + e
  {
  }

  lemma {:induction false} StyledArrayLays(doc: string, v: Value, indent: string) returns (t: string)
    requires v.Array? && v.items != [] && Writable(v) && MultiLine(v) && Blank(indent)
    ensures Styled(doc, v, indent) == doc + t && Lays(t, Pieces(v))
    decreases v, 0, |v.items| + 1
  {
    hide Lays, ItemPieces, StyledItems, Indented, MultiLine, Blank, Styled;
    LinesOf(doc, v, indent);
    DeeperIsBlank(indent);
    var items := StyledItemsLay(Indented(doc, indent) + "[", v, |v.items|, indent + INDENT);
    AllItems(v, |v.items|);
    NoMorePieces(FirstItems(v, |v.items|));
    t := LinesLay(doc, "[", items, ItemPieces(v, 0), "]", indent);
  }

  lemma {:induction false} StyledObjectLays(doc: string, v: Value, indent: string) returns (t: string)
    requires v.Object? && v.members != [] && Writable(v) && Blank(indent)
    ensures Styled(doc, v, indent) == doc + t && Lays(t, Pieces(v))
    decreases v, 0, |v.members| + 1
  {
    hide Lays, MemberPieces, StyledMembers, Indented, Blank, Styled;
    MemberLinesOf(doc, v, indent);
    DeeperIsBlank(indent);
    var members := StyledMembersLay(Indented(doc, indent) + "{", v, |v.members|, indent + INDENT);
    AllMembers(v, |v.members|);
    NoMorePieces(FirstMembers(v, |v.members|));
    t := LinesLay(doc, "{", members, MemberPieces(v, 0), "}", indent);
  }

  lemma {:induction false} StyledItemsLay(doc: string, v: Value, n: nat, indent: string) returns (t: string)
    requires v.Array? && Writable(v) && 0 < n <= |v.items| && Blank(indent)
    ensures StyledItems(doc, v, n, indent) == doc + t && Lays(t, FirstItems(v, n))
    decreases v, 0, n
  {
    hide Lays, Pieces, Styled, Writable, Indented, Blank;
    ItemWritable(v, n - 1);
    var sep, mark := if n > 1 then "," else "", if n > 1 then [","] else [];
    SeparatorLays(n > 1, "");
    var before := "";
    if n > 1 { before := StyledItemsLay(doc, v, n - 1, indent); } else { NothingLays(); }
    var d := StyledItems(doc, v, n - 1, indent) + sep;
    var ws := IndentIsBlank(d, indent);
    var own := StyledLays(Indented(d, indent), v.items[n - 1], indent);
    LaysBehind(ws, own, Pieces(v.items[n - 1]));
    LaysSum(before, FirstItems(v, n - 1), sep, mark);
    LaysSum(before + sep, FirstItems(v, n - 1) + mark, ws + own, Pieces(v.items[n - 1]));
    t := before + sep + (ws + own);
    Five(doc, before, sep, ws, own);
    NoLines(doc, v, indent);
  }

  lemma Five(a: string, b: string, c: string, d: string, e: string)
    ensures a + b + c + d + e == a + (b + c + (d + e))
  {
  }

  lemma {:induction false} StyledMembersLay(doc: string, v: Value, n: nat, indent: string) returns (t: string)
    requires v.Object? && Writable(v) && 0 < n <= |v.members| && Blank(indent)
    ensures StyledMembers(doc, v, n, indent) == doc + t && Lays(t, FirstMembers(v, n))
    decreases v, 0, n
  {
    hide Lays, Pieces, Styled, Writable, Indented, Blank, Quoted;
    MemberWritable(v, n - 1);
    var m := v.members[n - 1];
    var sep, mark := if n > 1 then "," else "", if n > 1 then [","] else [];
    SeparatorLays(n > 1, "");
    var before := "";
    if n > 1 { before := StyledMembersLay(doc, v, n - 1, indent); } else { NothingLays(); }
    var d := StyledMembers(doc, v, n - 1, indent) + sep;
    var ws := IndentIsBlank(d, indent);
    var x := StyledLays(Indented(d, indent) + Quoted(m.name) + " : ", m.value, indent);
    SpaceIsBlank();
    MemberLays(m.name, " ", " ", x, Pieces(m.value));
    var own := Quoted(m.name) + (" " + ":" + (" " + x));
    var ps := [Quoted(m.name), ":"] + Pieces(m.value);
    LaysBehind(ws, own, ps);
    LaysSum(before, FirstMembers(v, n - 1), sep, mark);
    LaysSum(before + sep, FirstMembers(v, n - 1) + mark, ws + own, ps);
    t := before + sep + (ws + own);
    MemberLine(Quoted(m.name), x, Indented(d, indent));
    Five(doc, before, sep, ws, own);
    NoLines(doc, v, indent);
  }

  lemma SpaceIsBlank()
    ensures Blank(" ")
  {
  }

  lemma MemberLine(name: string, x: string, d: string)
    ensures d + name + " : " + x == d + (name + (" " + ":" + (" " + x)))
  {
    assert " : " == " " + ":" + " ";
  }

  lemma OnOneLine(v: Value)
    requires v.Array? && Writable(v) && !MultiLine(v)
    ensures AllSimple(v)
  {
  }

  lemma InlineArrayLays(v: Value) returns (t: string)
    requires v.Array? && v.items != [] && Writable(v) && !MultiLine(v)
    ensures t == "[ " + InlineItems(v, |v.items|) + " ]" && Lays(t, Pieces(v))
  {
    hide Lays, ItemPieces, InlineItems, Blank;
    var items := InlineItems(v, |v.items|);
    InlineItemsLay(v, |v.items|);
    AllItems(v, |v.items|);
    NoMorePieces(FirstItems(v, |v.items|));
    SpaceIsBlank();
    LaysBehind(" ", items, ItemPieces(v, 0));
    MarkLays("]", " ");
    LaysOne("[");
    LaysSum("[", ["["], " " + items, ItemPieces(v, 0));
    LaysSum("[" + (" " + items), ["["] + ItemPieces(v, 0), " " + "]", ["]"]);
    t := "[" + (" " + items) + (" " + "]");
    assert "[" + " " == "[ " && " " + "]" == " ]";
    assert "[" + (" " + items) == "[" + " " + items;
  }

  lemma {:induction false} InlineItemsLay(v: Value, n: nat)
    requires v.Array? && Writable(v) && 0 < n <= |v.items| && forall i :: 0 <= i < n ==> IsSimple(v.items[i])
    ensures Lays(InlineItems(v, n), FirstItems(v, n)) && FirstItems(v, n) != []
    decreases n
  {
    hide Lays, Pieces, FastText, Writable, Blank;
    ItemWritable(v, n - 1);
    FastLays(v.items[n - 1], false);
    var mark := if n > 1 then [","] else [];
    var own := SimpleText(v.items[n - 1]);
    var spaced := if n > 1 then " " + own else own;
    SeparatorLays(n > 1, "");
    SpaceIsBlank();
    if n > 1 {
      InlineItemsLay(v, n - 1);
      LaysBehind(" ", own, Pieces(v.items[n - 1]));
    } else {
      NothingLays();
    }
    var sep := if n > 1 then "," else "";
    LaysSum(InlineItems(v, n - 1), FirstItems(v, n - 1), sep, mark);
    LaysSum(InlineItems(v, n - 1) + sep, FirstItems(v, n - 1) + mark, spaced, Pieces(v.items[n - 1]));
    if n > 1 {
      assert ", " == "," + " ";
      assert InlineItems(v, n) == InlineItems(v, n - 1) + sep + spaced;
    }
  }

  // The round trip.

  /** A text that lays out a value, followed by a line end, is read as that value. */
  lemma DocumentReadsBack(v: Value, t: string, f: Features) returns (w: Value)
    requires Writable(v) && Restored(v, f) && Lays(t, Pieces(v)) && (f.strictRoot ==> v.Array? || v.Object?)
    ensures ParseDocument(t + "\n", f) == Some(w) && Same(v, w)
  {
    hide Lay, Pieces, ParseValue, Writable, Restored;
    LayMoved("", t, "\n", 0, Pieces(v));
    assert "" + t + "\n" == t + "\n";
    w := ReadsBack(t + "\n", 0, v, f);
  }

  /** Reading what the compact printer wrote gives the same tree. */
  lemma FastRoundTrip(v: Value, yaml: bool, f: Features) returns (w: Value)
    requires Writable(v) && Restored(v, f) && (f.strictRoot ==> v.Array? || v.Object?)
    ensures ParseDocument(FastText(v, yaml) + "\n", f) == Some(w) && Same(v, w)
  {
    hide Lays, FastText, Pieces, Writable, ParseDocument, Same, Restored;
    FastLays(v, yaml);
    w := DocumentReadsBack(v, FastText(v, yaml), f);
  }

  /** Reading what the styled printer wrote gives the same tree. */
  lemma StyledRoundTrip(v: Value, f: Features) returns (w: Value)
    requires Writable(v) && Restored(v, f) && (f.strictRoot ==> v.Array? || v.Object?)
    ensures ParseDocument(Styled("", v, "") + "\n", f) == Some(w) && Same(v, w)
  {
    hide Lays, Styled, Pieces, Writable, ParseDocument, Same, Restored;
    var t := StyledLays("", v, "");
    assert "" + t == t;
    w := DocumentReadsBack(v, t, f);
  }

  /** The compact printer, and then the reader. */
  method WriteFastAndRead(v: Value, yaml: bool, f: Features) returns (ok: bool, w: Value)
    requires Writable(v) && Restored(v, f) && (f.strictRoot ==> v.Array? || v.Object?)
    ensures ok && Same(v, w)
  {
    hide FastText, Writable, ParseDocument, Same, Restored;
    var writer := new FastWriter();
    if yaml {
      writer.EnableYamlCompatibility();
    }
    var text := writer.Write(v);
    ghost var expected := FastRoundTrip(v, writer.yamlCompatibilityEnabled, f);
    var reader := new JsonReader.Reader(f);
    ok := reader.Parse(text, Null);
    w := reader.nodes[0];
  }

  /** The styled printer, and then the reader. */
  method WriteStyledAndRead(v: Value, f: Features) returns (ok: bool, w: Value)
    requires Writable(v) && Restored(v, f) && (f.strictRoot ==> v.Array? || v.Object?)
    ensures ok && Same(v, w)
  {
    hide Styled, Writable, ParseDocument, Same, Restored;
    var writer := new StyledWriter();
    var text := writer.Write(v);
    ghost var expected := StyledRoundTrip(v, f);
    var reader := new JsonReader.Reader(f);
    ok := reader.Parse(text, Null);
    w := reader.nodes[0];
  }
}
