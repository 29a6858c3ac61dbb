/** The layout of what the printers write.

    The compact text is the tokens one after the other.  The styled text is a list of lines, each
    indented by three spaces for every container that is open around it. */
module JsonLayout {
  import opened JsonText
  import opened JsonReal
  import opened JsonValue
  import opened JsonPieces
  import opened JsonWriter

  // The compact form.

  lemma CompactOne(piece: string, yaml: bool)
    ensures Compact([piece], yaml) == if piece == ":" && yaml then ": " else piece
  {
    assert [piece][1..] == [];
  }

  lemma CompactNone(yaml: bool)
    ensures Compact([], yaml) == ""
  {
  }

  /** The compact text consists of the tokens and of nothing else, but for a space behind every
      colon if that is asked for. */
  lemma {:induction false} CompactIsTokens(v: Value, yaml: bool)
    requires Writable(v)
    ensures FastText(v, yaml) == Compact(Pieces(v), yaml)
    decreases v, 1, 0
  {
    hide ItemPieces, MemberPieces, FastItems, FastMembers, Quoted, IntText, Shortened, Compact;
    CompactNone(yaml);
    if v.Array? {
      ArrayText(v, yaml);
      if v.items != [] {
        CompactItems(v, |v.items|, yaml);
        AllItems(v, |v.items|);
        NoMorePieces(FirstItems(v, |v.items|));
      }
      CompactBrackets("[", if v.items == [] then [] else ItemPieces(v, 0), "]", yaml);
    } else if v.Object? {
      ObjectText(v, yaml);
      if v.members != [] {
        CompactMembers(v, |v.members|, yaml);
        AllMembers(v, |v.members|);
        NoMorePieces(FirstMembers(v, |v.members|));
      }
      CompactBrackets("{", if v.members == [] then [] else MemberPieces(v, 0), "}", yaml);
    } else {
      ScalarPiece(v);
      CompactOne(Pieces(v)[0], yaml);
    }
  }

  lemma ScalarPiece(v: Value)
    requires Writable(v) && !v.Array? && !v.Object?
    ensures |Pieces(v)| == 1 && Pieces(v)[0] != ":" && Pieces(v) == [Pieces(v)[0]]
    ensures forall yaml: bool :: FastText(v, yaml) == Pieces(v)[0]
  {
    hide Decimal, Shortened, Escaped;
    if v.Int? { IntChars(v.whole); }
    if v.UInt? { IntChars(v.natural); }
    if v.Real? { assert IsPrinted(Shortened(v.text)); }
    assert Pieces(v)[0][0] != ':';
  }

  lemma CompactBrackets(open: string, pieces: seq<string>, close: string, yaml: bool)
    requires open != ":" && close != ":"
    ensures Compact([open] + pieces + [close], yaml) == open + Compact(pieces, yaml) + close
  {
    hide Compact;
    CompactOne(open, yaml);
    CompactOne(close, yaml);
    CompactSum([open], pieces, yaml);
    CompactSum([open] + pieces, [close], yaml);
  }

  lemma {:induction false} CompactItems(v: Value, n: nat, yaml: bool)
    requires v.Array? && Writable(v) && n <= |v.items|
    ensures FastItems(v, n, yaml) == Compact(FirstItems(v, n), yaml)
    decreases v, 0, n
  {
    hide Pieces, FastText, Writable;
    if n > 0 {
      ItemWritable(v, n - 1);
      CompactItems(v, n - 1, yaml);
      CompactIsTokens(v.items[n - 1], yaml);
      var mark := if n > 1 then [","] else [];
      CompactSum(FirstItems(v, n - 1), mark, yaml);
      CompactSum(FirstItems(v, n - 1) + mark, Pieces(v.items[n - 1]), yaml);
    }
  }

  lemma {:induction false} CompactMembers(v: Value, n: nat, yaml: bool)
    requires v.Object? && Writable(v) && n <= |v.members|
    ensures FastMembers(v, n, yaml) == Compact(FirstMembers(v, n), yaml)
    decreases v, 0, n
  {
    hide Pieces, FastText, Writable, Quoted;
    if n > 0 {
      MemberWritable(v, n - 1);
      CompactMembers(v, n - 1, yaml);
      var m := v.members[n - 1];
      CompactIsTokens(m.value, yaml);
      var mark, before := if n > 1 then [","] else [], FirstMembers(v, n - 1);
      var own := [Quoted(m.name), ":"] + Pieces(m.value);
      NameAndColon(m.name, Pieces(m.value), yaml);
      CompactSum(before, mark, yaml);
      CompactSum(before + mark, own, yaml);
      assert FirstMembers(v, n) == before + mark + own;
      JoinMembers(v, n, yaml);
    }
  }

  lemma JoinMembers(v: Value, n: nat, yaml: bool)
    requires v.Object? && Writable(v) && 0 < n <= |v.members| && Writable(v.members[n - 1].value)
    ensures var m := v.members[n - 1];
      FastMembers(v, n, yaml) == FastMembers(v, n - 1, yaml) + (if n > 1 then "," else "")
        + (Quoted(m.name) + (if yaml then ": " else ":") + FastText(m.value, yaml))
  {
    hide FastText, Writable, Quoted;
  }

  lemma NameAndColon(name: string, pieces: seq<string>, yaml: bool)
    ensures Compact([Quoted(name), ":"] + pieces, yaml)
         == Quoted(name) + (if yaml then ": " else ":") + Compact(pieces, yaml)
  {
    hide Compact, Escaped;
    CompactOne(Quoted(name), yaml);
    CompactOne(":", yaml);
    CompactSum([Quoted(name)], [":"], yaml);
    CompactSum([Quoted(name), ":"], pieces, yaml);
    assert [Quoted(name)] + [":"] == [Quoted(name), ":"];
  }

  /** The compact printer: the tokens and a line end. */
  method WriteCompact(root: Value, yaml: bool) returns (text: string)
    requires Writable(root)
    ensures text == Compact(Pieces(root), yaml) + "\n"
  {
    hide Writable, FastText, Compact, Pieces;
    var writer := new FastWriter();
    if yaml {
      writer.EnableYamlCompatibility();
    }
    text := writer.Write(root);
    CompactIsTokens(root, yaml);
  }

  // The styled form.

  /** A line inside `depth` containers that take several lines. */
  datatype Line = Line(depth: nat, text: string)

  function Blanks(n: nat): (t: string)
    ensures |t| == n && forall i :: 0 <= i < n ==> t[i] == ' '
  {
    seq(n, i => ' ')
  }

  /** Scalars and empty containers. */
  predicate IsFlat(v: Value) {
    match v
    case Array(xs) => |xs| == 0
    case Object(ms) => |ms| == 0
    case _ => true
  }

  function FlatText(v: Value): string
    requires Writable(v) && IsFlat(v)
  {
    Compact(Pieces(v), false)
  }

  /** The first `n` elements, with a comma and a space in between. */
  function Row(v: Value, n: nat): string
    requires v.Array? && Writable(v) && n <= |v.items| && forall i :: 0 <= i < n ==> IsFlat(v.items[i])
  {
    if n == 0 then ""
    else if n == 1 then FlatText(v.items[0])
    else Row(v, n - 1) + ", " + FlatText(v.items[n - 1])
  }

  /** An array takes one line iff its elements are flat, there are fewer than 25 of them, and the line
      is shorter than 74 characters. */
  predicate OnOneLine(v: Value)
    requires v.Array? && Writable(v)
  {
    && (forall i :: 0 <= i < |v.items| ==> IsFlat(v.items[i]))
    && |v.items| < 25
    && |"[ " + Row(v, |v.items|) + " ]"| < 74
  }

  /** A comma behind the last line. */
  function WithComma(lines: seq<Line>): seq<Line> {
    if lines == [] then []
    else lines[|lines| - 1 := Line(lines[|lines| - 1].depth, lines[|lines| - 1].text + ",")]
  }

  /** A name in front of the first line. */
  function WithName(name: string, lines: seq<Line>): seq<Line> {
    if lines == [] then [] else lines[0 := Line(lines[0].depth, Quoted(name) + " : " + lines[0].text)]
  }

  /** The lines of a value: brackets of containers that take several lines stand alone. */
  function Lines(v: Value, depth: nat): (r: seq<Line>)
    requires Writable(v)
    ensures r != []
    decreases v, 1, 0
  {
    if IsFlat(v) then [Line(depth, FlatText(v))]
    else if v.Object? then
      [Line(depth, "{")] + MemberLines(v, |v.members|, depth + 1) + [Line(depth, "}")]
    else if OnOneLine(v) then [Line(depth, "[ " + Row(v, |v.items|) + " ]")]
    else [Line(depth, "[")] + ItemLines(v, |v.items|, depth + 1) + [Line(depth, "]")]
  }

  /** The lines of the first `n` elements. */
  function ItemLines(v: Value, n: nat, depth: nat): seq<Line>
    requires v.Array? && Writable(v) && n <= |v.items|
    decreases v, 0, n
  {
    if n == 0 then [] else WithComma(ItemLines(v, n - 1, depth)) + Lines(v.items[n - 1], depth)
  }

  function MemberLines(v: Value, n: nat, depth: nat): seq<Line>
    requires v.Object? && Writable(v) && n <= |v.members|
    decreases v, 0, n
  {
    if n == 0 then []
    else
      WithComma(MemberLines(v, n - 1, depth)) + WithName(v.members[n - 1].name, Lines(v.members[n - 1].value, depth))
  }

  /** The lines from a line end on. */
  function Below(lines: seq<Line>): string {
    if lines == [] then ""
    else Below(lines[..|lines| - 1]) + ("\n" + Blanks(3 * lines[|lines| - 1].depth) + lines[|lines| - 1].text)
  }

  /** The lines, when the indentation of the first one is already there. */
  function Body(lines: seq<Line>): string
    requires lines != []
  {
    lines[0].text + Below(lines[1..])
  }

  /** Three spaces for each depth. */
  function Render(lines: seq<Line>): string
    requires lines != []
  {
    Blanks(3 * lines[0].depth) + Body(lines)
  }

  // The printer's layout is this one.

  lemma {:induction false} BelowSum(a: seq<Line>, b: seq<Line>)
    ensures Below(a + b) == Below(a) + Below(b)
    decreases |b|
  {
    if b == [] {
      assert a + b == a;
    } else {
      var n := |b| - 1;
      assert (a + b)[..|a + b| - 1] == a + b[..n];
      BelowSum(a, b[..n]);
    }
  }

  lemma BelowOne(l: Line)
    ensures Below([l]) == "\n" + Blanks(3 * l.depth) + l.text
  {
    assert [l][..0] == [];
  }

  lemma BelowComma(lines: seq<Line>)
    requires lines != []
    ensures Below(WithComma(lines)) == Below(lines) + ","
  {
    var n := |lines| - 1;
    assert WithComma(lines)[..n] == lines[..n];
  }

  lemma BelowBody(lines: seq<Line>)
    requires lines != []
    ensures Below(lines) == "\n" + Blanks(3 * lines[0].depth) + Body(lines)
  {
    hide Below, Blanks;
    var l, rest := lines[0], lines[1..];
    assert lines == [l] + rest;
    BelowOne(l);
    BelowSum([l], rest);
    LastThree("\n" + Blanks(3 * l.depth), l.text, Below(rest));
  }

  lemma LastThree(a: string, b: string, c: string)
    ensures a + b + c == a + (b + c)
  {
  }

  lemma BelowName(name: string, lines: seq<Line>)
    requires lines != []
    ensures Body(WithName(name, lines)) == Quoted(name) + " : " + Body(lines)
    ensures WithName(name, lines) != [] && WithName(name, lines)[0].depth == lines[0].depth
  {
    assert WithName(name, lines)[1..] == lines[1..];
  }

  // Lines have no blanks at their ends and no line ends inside.

  ghost predicate NoLineEnd(t: string) {
    forall i :: 0 <= i < |t| ==> t[i] != '\n'
  }

  ghost predicate Tidy(t: string) {
    t != [] && !IsSpace(t[0]) && !IsSpace(t[|t| - 1]) && NoLineEnd(t)
  }

  ghost predicate AllTidy(lines: seq<Line>) {
    forall k :: 0 <= k < |lines| ==> Tidy(lines[k].text)
  }

  lemma {:induction false} EscapedLineEnds(s: string)
    ensures NoLineEnd(Escaped(s))
  {
    if s != [] {
      EscapedLineEnds(s[1..]);
      EscapeLineEnd(s[0]);
    }
  }

  lemma EscapeLineEnd(c: char)
    ensures NoLineEnd(Escape(c))
  {
  }

  lemma QuotedTidy(s: string)
    ensures Tidy(Quoted(s))
  {
    hide Escaped;
    EscapedLineEnds(s);
  }

  lemma IntTidy(i: int)
    ensures Tidy(IntText(i))
  {
    hide Decimal;
  }

  lemma FlatTidy(v: Value)
    requires Writable(v) && IsFlat(v)
    ensures Tidy(FlatText(v)) && FlatText(v) == FastText(v, false)
  {
    hide Compact, Quoted, IntText, Shortened, Tidy;
    CompactIsTokens(v, false);
    match v
    case Int(i) => IntTidy(i);
    case UInt(n) => IntTidy(n);
    case Str(s) => QuotedTidy(s);
    case Real(d) => PrintedTidy(Shortened(d));
    case Null => WordTidy("null");
    case Bool(b) => WordTidy(if b then "true" else "false");
    case Array(_) =>
      assert FastText(v, false) == "[]";
      WordTidy("[]");
    case Object(_) =>
      assert FastText(v, false) == "{}";
      WordTidy("{}");
  }

  lemma PrintedTidy(d: string)
    requires IsPrinted(d)
    ensures Tidy(d)
  {
  }

  lemma WordTidy(w: string)
    requires w in {"null", "true", "false", "[]", "{}", "[", "]", "{", "}"}
    ensures Tidy(w)
  {
  }

  lemma {:induction false} RowLineEnds(v: Value, n: nat)
    requires v.Array? && Writable(v) && n <= |v.items| && forall i :: 0 <= i < n ==> IsFlat(v.items[i])
    ensures NoLineEnd(Row(v, n))
  {
    hide FlatText, Writable;
    if n > 0 {
      ItemWritable(v, n - 1);
      FlatTidy(v.items[n - 1]);
      if n > 1 { RowLineEnds(v, n - 1); }
    }
  }

  lemma CommaTidy(lines: seq<Line>)
    requires AllTidy(lines)
    ensures AllTidy(WithComma(lines))
  {
  }

  lemma NameTidy(name: string, lines: seq<Line>)
    requires AllTidy(lines)
    ensures AllTidy(WithName(name, lines))
  {
    hide Quoted;
    QuotedTidy(name);
  }

  lemma {:induction false} LinesTidy(v: Value, depth: nat)
    requires Writable(v)
    ensures AllTidy(Lines(v, depth)) && Lines(v, depth)[0].depth == depth
    decreases v, 1, 0
  {
    hide Writable, FlatText, Row, ItemLines, MemberLines, Tidy;
    if IsFlat(v) {
      FlatTidy(v);
    } else if v.Object? {
      BracketTidy();
      MemberLinesTidy(v, |v.members|, depth + 1);
    } else if OnOneLine(v) {
      RowLineEnds(v, |v.items|);
      RowTidy(Row(v, |v.items|));
    } else {
      BracketTidy();
      ItemLinesTidy(v, |v.items|, depth + 1);
    }
  }

  lemma BracketTidy()
    ensures Tidy("[") && Tidy("]") && Tidy("{") && Tidy("}")
  {
  }

  lemma RowTidy(row: string)
    requires NoLineEnd(row)
    ensures Tidy("[ " + row + " ]")
  {
  }

  lemma {:induction false} ItemLinesTidy(v: Value, n: nat, depth: nat)
    requires v.Array? && Writable(v) && n <= |v.items|
    ensures AllTidy(ItemLines(v, n, depth)) && (n > 0 ==> ItemLines(v, n, depth) != [])
    decreases v, 0, n
  {
    hide Writable, Lines, Tidy, WithComma;
    if n > 0 {
      ItemWritable(v, n - 1);
      ItemLinesTidy(v, n - 1, depth);
      CommaTidy(ItemLines(v, n - 1, depth));
      LinesTidy(v.items[n - 1], depth);
    }
  }

  lemma {:induction false} MemberLinesTidy(v: Value, n: nat, depth: nat)
    requires v.Object? && Writable(v) && n <= |v.members|
    ensures AllTidy(MemberLines(v, n, depth)) && (n > 0 ==> MemberLines(v, n, depth) != [])
    decreases v, 0, n
  {
    hide Writable, Lines, Tidy, WithComma, Quoted;
    if n > 0 {
      MemberWritable(v, n - 1);
      MemberLinesTidy(v, n - 1, depth);
      CommaTidy(MemberLines(v, n - 1, depth));
      LinesTidy(v.members[n - 1].value, depth);
      NameTidy(v.members[n - 1].name, Lines(v.members[n - 1].value, depth));
    }
  }

  // The two layouts agree.

  lemma {:induction false} RowIs(v: Value, n: nat)
    requires v.Array? && Writable(v) && n <= |v.items| && forall i :: 0 <= i < n ==> IsFlat(v.items[i])
    ensures forall i :: 0 <= i < n ==> IsSimple(v.items[i])
    ensures InlineItems(v, n) == Row(v, n)
    ensures |Row(v, n)| == TextLength(v, n) + (if n == 0 then 0 else 2 * (n - 1))
  {
    hide FlatText, Writable, FastText;
    if n > 0 {
      ItemWritable(v, n - 1);
      FlatTidy(v.items[n - 1]);
      RowIs(v, n - 1);
    }
  }

  /** An array takes several lines iff it does not fit on one. */
  lemma LayoutIs(v: Value)
    requires v.Array? && v.items != [] && Writable(v)
    ensures MultiLine(v) <==> !OnOneLine(v)
  {
    hide Writable, Row, TextLength;
    if forall i :: 0 <= i < |v.items| ==> IsFlat(v.items[i]) { RowIs(v, |v.items|); }
  }

  /** A text that the indentation of the next line can follow. */
  ghost predicate Ended(doc: string) {
    doc != [] && doc[|doc| - 1] != ' ' && doc[|doc| - 1] != '\n'
  }

  lemma {:induction false} BelowEnded(doc: string, lines: seq<Line>)
    requires AllTidy(lines) && (lines == [] ==> Ended(doc))
    ensures Ended(doc + Below(lines))
  {
    if lines == [] {
      assert doc + "" == doc;
    } else {
      var l := lines[|lines| - 1];
      assert Tidy(l.text);
      assert (doc + Below(lines))[|doc + Below(lines)| - 1] == l.text[|l.text| - 1];
    }
  }

  lemma NewLine(doc: string, depth: nat)
    requires Ended(doc)
    ensures Indented(doc, Blanks(3 * depth)) == doc + ("\n" + Blanks(3 * depth))
    ensures depth > 0 ==> Ready(doc + ("\n" + Blanks(3 * depth)), depth)
  {
  }

  /** The indentation of the next line is there. */
  ghost predicate Ready(doc: string, depth: nat) {
    Indented(doc, Blanks(3 * depth)) == doc
  }

  lemma Deeper(depth: nat)
    ensures Blanks(3 * depth) + INDENT == Blanks(3 * (depth + 1))
  {
  }

  lemma BodyOf(open: string, depth: nat, inside: seq<Line>, close: string)
    ensures Body([Line(depth, open)] + inside + [Line(depth, close)])
         == open + Below(inside) + ("\n" + Blanks(3 * depth)) + close
  {
    hide Below;
    var lines := [Line(depth, open)] + inside + [Line(depth, close)];
    assert lines[1..] == inside + [Line(depth, close)];
    BelowSum(inside, [Line(depth, close)]);
    BelowOne(Line(depth, close));
  }

  /** The printer writes the lines. */
  lemma {:induction false} StyledIs(doc: string, v: Value, depth: nat)
    requires Writable(v) && Ready(doc, depth)
    ensures Styled(doc, v, Blanks(3 * depth)) == doc + Body(Lines(v, depth))
    decreases v, 1, 0
  {
    hide Writable, FlatText, FastText, Row, ItemLines, MemberLines, Tidy, Below, StyledItems, StyledMembers, MultiLine,
      InlineItems, Blanks, OnOneLine;
    if IsFlat(v) {
      FlatTidy(v);
      BodyOne(depth, FlatText(v));
    } else if v.Object? {
      Deeper(depth);
      BracketEnded(doc, "{");
      MembersAre(doc + "{", v, |v.members|, depth + 1);
      MemberLinesTidy(v, |v.members|, depth + 1);
      Enclosed(doc, "{", MemberLines(v, |v.members|, depth + 1), "}", depth);
    } else {
      LayoutIs(v);
      if OnOneLine(v) {
        FitsFlat(v);
        RowIs(v, |v.items|);
        BodyOne(depth, "[ " + Row(v, |v.items|) + " ]");
      } else {
        Deeper(depth);
        BracketEnded(doc, "[");
        ItemsAre(doc + "[", v, |v.items|, depth + 1);
        ItemLinesTidy(v, |v.items|, depth + 1);
        Enclosed(doc, "[", ItemLines(v, |v.items|, depth + 1), "]", depth);
      }
    }
  }

  lemma FitsFlat(v: Value)
    requires v.Array? && Writable(v) && OnOneLine(v)
    ensures forall i :: 0 <= i < |v.items| ==> IsFlat(v.items[i])
  {
  }

  lemma BodyOne(depth: nat, text: string)
    ensures Body([Line(depth, text)]) == text
  {
    assert [Line(depth, text)][1..] == [];
  }

  lemma BracketEnded(doc: string, open: string)
    requires open in {"[", "{"}
    ensures Ended(doc + open)
  {
  }

  lemma Enclosed(doc: string, open: string, inside: seq<Line>, close: string, depth: nat)
    requires open in {"[", "{"} && AllTidy(inside)
    ensures Indented(doc + open + Below(inside), Blanks(3 * depth)) + close
         == doc + Body([Line(depth, open)] + inside + [Line(depth, close)])
  {
    hide Below, Body, Blanks, Tidy;
    BracketEnded(doc, open);
    BelowEnded(doc + open, inside);
    NewLine(doc + open + Below(inside), depth);
    BodyOf(open, depth, inside, close);
  }

  /** One more value on a line of its own. */
  lemma OnNewLine(doc: string, before: seq<Line>, own: seq<Line>, depth: nat)
    requires Ended(doc) && AllTidy(before) && own != [] && own[0].depth == depth > 0
    ensures var x := doc + Below(before) + (if before != [] then "," else "");
      && Indented(x, Blanks(3 * depth)) == x + ("\n" + Blanks(3 * depth))
      && Ready(x + ("\n" + Blanks(3 * depth)), depth)
      && x + ("\n" + Blanks(3 * depth)) + Body(own) == doc + Below(WithComma(before) + own)
  {
    hide Below, Body, Blanks, Tidy, Ready, WithComma, Indented;
    var x := doc + Below(before) + (if before != [] then "," else "");
    BelowEnded(doc, before);
    CommaEnded(doc + Below(before));
    NewLine(x, depth);
    NoLinesBelow();
    if before != [] { BelowComma(before); }
    BelowSum(WithComma(before), own);
    BelowBody(own);
  }

  lemma CommaEnded(doc: string)
    ensures Ended(doc + ",")
    ensures doc + "" == doc
  {
  }

  lemma NoLinesBelow()
    ensures Below([]) == "" && WithComma([]) == []
  {
  }

  lemma {:induction false} ItemsAre(doc: string, v: Value, n: nat, depth: nat)
    requires v.Array? && Writable(v) && n <= |v.items| && Ended(doc) && depth > 0
    ensures StyledItems(doc, v, n, Blanks(3 * depth)) == doc + Below(ItemLines(v, n, depth))
    decreases v, 0, n
  {
    hide Writable, Styled, Lines, Tidy, Below, Blanks, Ready, Indented, WithComma, Body, Ended, AllTidy;
    if n == 0 {
      NoLinesBelow();
      NoLines(doc, v, Blanks(3 * depth));
    } else {
      ItemWritable(v, n - 1);
      ItemsAre(doc, v, n - 1, depth);
      ItemLinesTidy(v, n - 1, depth);
      LinesTidy(v.items[n - 1], depth);
      var before := ItemLines(v, n - 1, depth);
      var x := doc + Below(before) + (if before != [] then "," else "");
      OnNewLine(doc, before, Lines(v.items[n - 1], depth), depth);
      StyledIs(x + ("\n" + Blanks(3 * depth)), v.items[n - 1], depth);
    }
  }

  lemma {:induction false} MembersAre(doc: string, v: Value, n: nat, depth: nat)
    requires v.Object? && Writable(v) && n <= |v.members| && Ended(doc) && depth > 0
    ensures StyledMembers(doc, v, n, Blanks(3 * depth)) == doc + Below(MemberLines(v, n, depth))
    decreases v, 0, n
  {
    hide Writable, Styled, Lines, Tidy, Below, Blanks, Ready, Indented, WithComma, WithName, Body, Ended, AllTidy,
      Quoted;
    if n == 0 {
      NoLinesBelow();
      NoLines(doc, v, Blanks(3 * depth));
    } else {
      MemberWritable(v, n - 1);
      MembersAre(doc, v, n - 1, depth);
      MemberLinesTidy(v, n - 1, depth);
      var m := v.members[n - 1];
      LinesTidy(m.value, depth);
      var before, own := MemberLines(v, n - 1, depth), Lines(m.value, depth);
      var x := doc + Below(before) + (if before != [] then "," else "");
      var y := x + ("\n" + Blanks(3 * depth)) + Quoted(m.name) + " : ";
      BelowName(m.name, own);
      OnNewLine(doc, before, WithName(m.name, own), depth);
      SpaceIsReady(x + ("\n" + Blanks(3 * depth)) + Quoted(m.name), depth);
      StyledIs(y, m.value, depth);
      assert y + Body(own) == x + ("\n" + Blanks(3 * depth)) + (Quoted(m.name) + " : " + Body(own));
    }
  }

  lemma SpaceIsReady(doc: string, depth: nat)
    ensures Ready(doc + " : ", depth)
  {
  }

  /** The styled text of a document. */
  lemma StyledDocument(v: Value)
    requires Writable(v)
    ensures Styled("", v, "") == Render(Lines(v, 0))
  {
    hide Writable, Styled, Lines, Body;
    assert Blanks(3 * 0) == "";
    LinesTidy(v, 0);
    StyledIs("", v, 0);
  }

  // The law of the indentation, on the text alone.

  function SplitLines(t: string): (r: seq<string>)
    ensures r != []
  {
    if t == [] then [[]]
    else
      var r, c := SplitLines(t[..|t| - 1]), t[|t| - 1];
      if c == '\n' then r + [[]] else r[|r| - 1 := r[|r| - 1] + [c]]
  }

  /** A line without the spaces at its beginning. */
  function Content(line: string): (c: string)
    ensures |c| <= |line|
  {
    if line != [] && line[0] == ' ' then Content(line[1..]) else line
  }

  predicate Opens(line: string) {
    line != [] && line[|line| - 1] in "[{"
  }

  predicate Closes(line: string) {
    line != [] && line[0] in "]}"
  }

  /** How many containers the lines leave open: they are opened at the end of a line and closed at
      the beginning of one. */
  function StillOpen(lines: seq<string>): int {
    if lines == [] then 0
    else
      var l := lines[|lines| - 1];
      StillOpen(lines[..|lines| - 1]) + (if Opens(l) then 1 else 0) - (if Closes(Content(l)) then 1 else 0)
  }

  /** Every line starts with exactly three spaces for each container that is open around it. */
  ghost predicate WellIndented(text: string) {
    var ls := SplitLines(text);
    forall k :: 0 <= k < |ls| ==>
      |ls[k]| - |Content(ls[k])| == 3 * (StillOpen(ls[..k]) - (if Closes(Content(ls[k])) then 1 else 0))
  }

  lemma {:induction false} SplitMore(a: string, b: string)
    requires NoLineEnd(b)
    ensures SplitLines(a + "\n" + b) == SplitLines(a) + [b]
  {
    var t := a + "\n" + b;
    if b == [] {
      assert t[..|t| - 1] == a;
    } else {
      var n := |b| - 1;
      assert t[..|t| - 1] == a + "\n" + b[..n];
      SplitMore(a, b[..n]);
      assert b == b[..n] + [b[n]];
    }
  }

  lemma {:induction false} SplitNone(t: string)
    requires NoLineEnd(t)
    ensures SplitLines(t) == [t]
  {
    if t != [] {
      SplitNone(t[..|t| - 1]);
      assert t == t[..|t| - 1] + [t[|t| - 1]];
    }
  }

  function Rendered(l: Line): string {
    Blanks(3 * l.depth) + l.text
  }

  function RenderedAll(lines: seq<Line>): (r: seq<string>)
    ensures |r| == |lines| && forall k :: 0 <= k < |lines| ==> r[k] == Rendered(lines[k])
  {
    seq(|lines|, k requires 0 <= k < |lines| => Rendered(lines[k]))
  }

  lemma RenderedLine(l: Line)
    requires Tidy(l.text)
    ensures NoLineEnd(Rendered(l)) && Content(Rendered(l)) == l.text && |Rendered(l)| == 3 * l.depth + |l.text|
    ensures Opens(Rendered(l)) == Opens(l.text)
  {
    SkipBlanks(3 * l.depth, l.text);
  }

  lemma {:induction false} SkipBlanks(n: nat, text: string)
    requires text != [] && text[0] != ' '
    ensures Content(Blanks(n) + text) == text
  {
    if n == 0 {
      assert Blanks(0) + text == text;
    } else {
      assert (Blanks(n) + text)[1..] == Blanks(n - 1) + text;
      SkipBlanks(n - 1, text);
    }
  }

  /** The text has exactly these lines. */
  lemma {:induction false} SplitRender(first: Line, lines: seq<Line>)
    requires Tidy(first.text) && AllTidy(lines)
    ensures SplitLines(Rendered(first) + Below(lines)) == RenderedAll([first] + lines)
  {
    hide Tidy, SplitLines, Rendered;
    var all := [first] + lines;
    if lines == [] {
      RenderedLine(first);
      SplitNone(Rendered(first));
      assert Rendered(first) + Below(lines) == Rendered(first);
      assert RenderedAll(all) == [Rendered(first)];
    } else {
      var n := |lines| - 1;
      SplitRender(first, lines[..n]);
      RenderedLine(lines[n]);
      var a := Rendered(first) + Below(lines[..n]);
      SplitMore(a, Rendered(lines[n]));
      LastBelow(Rendered(first), lines);
      assert RenderedAll(all) == RenderedAll([first] + lines[..n]) + [Rendered(lines[n])];
    }
  }

  lemma LastBelow(t: string, lines: seq<Line>)
    requires lines != []
    ensures var n := |lines| - 1; t + Below(lines) == t + Below(lines[..n]) + "\n" + Rendered(lines[n])
  {
    hide Blanks;
    var n := |lines| - 1;
    FiveParts(t, Below(lines[..n]), "\n", Blanks(3 * lines[n].depth), lines[n].text);
  }

  lemma FiveParts(a: string, b: string, c: string, d: string, e: string)
    ensures a + (b + (c + d + e)) == a + b + c + (d + e)
  {
  }

  // Depths.

  function Surplus(lines: seq<Line>): int {
    if lines == [] then 0
    else
      var l := lines[|lines| - 1];
      Surplus(lines[..|lines| - 1]) + (if Opens(l.text) then 1 else 0) - (if Closes(l.text) then 1 else 0)
  }

  /** The depths follow the brackets, from depth `d` on. */
  ghost predicate Nested(lines: seq<Line>, d: int) {
    lines == [] ||
    (var n := |lines| - 1;
     Nested(lines[..n], d) && lines[n].depth == d + Surplus(lines[..n]) - (if Closes(lines[n].text) then 1 else 0))
  }

  lemma {:induction false} NestedSum(a: seq<Line>, b: seq<Line>, d: int)
    requires Nested(a, d) && Nested(b, d + Surplus(a))
    ensures Nested(a + b, d) && Surplus(a + b) == Surplus(a) + Surplus(b)
    decreases |b|
  {
    if b == [] {
      assert a + b == a;
    } else {
      var n := |b| - 1;
      assert (a + b)[..|a + b| - 1] == a + b[..n];
      NestedSum(a, b[..n], d);
    }
  }

  lemma NestedOne(l: Line, d: int)
    requires l.depth == d - (if Closes(l.text) then 1 else 0)
    ensures Nested([l], d)
    ensures Surplus([l]) == (if Opens(l.text) then 1 else 0) - (if Closes(l.text) then 1 else 0)
  {
    hide Opens, Closes;
    var none := [l][..0];
    assert none == [] && Surplus(none) == 0 && Nested(none, d);
  }

  /** The lines of whole values: they leave nothing open. */
  ghost predicate Balanced(lines: seq<Line>, d: int) {
    && Nested(lines, d) && Surplus(lines) == 0
    && (lines != [] ==> !Closes(lines[0].text) && !Opens(lines[|lines| - 1].text))
  }

  lemma BalancedSum(a: seq<Line>, b: seq<Line>, d: int)
    requires Balanced(a, d) && Balanced(b, d)
    ensures Balanced(a + b, d)
  {
    hide Nested, Surplus, Opens, Closes;
    NestedSum(a, b, d);
    if a == [] { assert a + b == b; }
    if b == [] { assert a + b == a; }
  }

  lemma CommaBalanced(lines: seq<Line>, d: int)
    requires Balanced(lines, d) && AllTidy(lines)
    ensures Balanced(WithComma(lines), d)
  {
    if lines != [] {
      var n := |lines| - 1;
      assert Tidy(lines[n].text);
      assert WithComma(lines)[..n] == lines[..n];
    }
  }

  lemma NameBalanced(name: string, lines: seq<Line>, d: int)
    requires Balanced(lines, d) && lines != [] && AllTidy(lines)
    ensures Balanced(WithName(name, lines), d)
  {
    hide Quoted, Nested, Surplus, Opens, Closes, Tidy, IsSpace;
    var first, rest := lines[0], lines[1..];
    var named := Line(first.depth, Quoted(name) + " : " + first.text);
    assert Tidy(first.text);
    TidyText(first.text);
    assert lines == [first] + rest;
    assert WithName(name, lines) == [named] + rest;
    NameOpens(name, first.text);
    FirstOf(first, rest, d);
    NestedOne(first, d);
    NestedOne(named, d);
    NestedSum([first], rest, d);
    NestedSum([named], rest, d);
  }

  lemma TidyText(t: string)
    requires Tidy(t)
    ensures t != []
  {
  }

  lemma NameOpens(name: string, text: string)
    requires text != []
    ensures var t := Quoted(name) + " : " + text; Opens(t) == Opens(text) && !Closes(t)
  {
    hide Escaped;
  }

  lemma {:induction false} FirstOf(first: Line, rest: seq<Line>, d: int)
    requires Nested([first] + rest, d)
    ensures first.depth == d - (if Closes(first.text) then 1 else 0)
    ensures Nested(rest, d + Surplus([first]))
  {
    if rest == [] {
      assert [first] + rest == [first];
    } else {
      var n := |rest| - 1;
      assert ([first] + rest)[..n + 1] == [first] + rest[..n];
      FirstOf(first, rest[..n], d);
      NestedOne(first, d);
      NestedSum([first], rest[..n], d);
    }
  }

  lemma BracketsBalanced(open: string, inside: seq<Line>, close: string, depth: nat)
    requires open in {"[", "{"} && close in {"]", "}"} && Balanced(inside, depth + 1)
    ensures Balanced([Line(depth, open)] + inside + [Line(depth, close)], depth)
  {
    hide Nested, Surplus;
    var a, z := [Line(depth, open)], [Line(depth, close)];
    NestedOne(Line(depth, open), depth);
    NestedOne(Line(depth, close), depth + 1);
    NestedSum(a, inside, depth);
    NestedSum(a + inside, z, depth);
  }

  lemma FlatMarks(v: Value)
    requires Writable(v) && IsFlat(v)
    ensures !Opens(FlatText(v)) && !Closes(FlatText(v))
  {
    hide Compact, Escaped, Decimal, Shortened;
    FlatTidy(v);
    if v.Int? { IntChars(v.whole); }
    if v.UInt? { IntChars(v.natural); }
    if v.Real? { assert IsPrinted(Shortened(v.text)); }
    if v.Array? { assert FastText(v, false) == "[]"; }
    if v.Object? { assert FastText(v, false) == "{}"; }
  }

  lemma {:induction false} LinesBalanced(v: Value, depth: nat)
    requires Writable(v)
    ensures Balanced(Lines(v, depth), depth)
    decreases v, 1, 0
  {
    hide Writable, FlatText, Row, ItemLines, MemberLines, Tidy, Nested, Surplus;
    if IsFlat(v) {
      FlatMarks(v);
      NestedOne(Line(depth, FlatText(v)), depth);
    } else if v.Object? {
      MembersBalanced(v, |v.members|, depth + 1);
      BracketsBalanced("{", MemberLines(v, |v.members|, depth + 1), "}", depth);
    } else if OnOneLine(v) {
      NestedOne(Line(depth, "[ " + Row(v, |v.items|) + " ]"), depth);
    } else {
      ItemsBalanced(v, |v.items|, depth + 1);
      BracketsBalanced("[", ItemLines(v, |v.items|, depth + 1), "]", depth);
    }
  }

  lemma NoneBalanced(depth: nat)
    ensures Balanced([], depth)
  {
  }

  lemma {:induction false} ItemsBalanced(v: Value, n: nat, depth: nat)
    requires v.Array? && Writable(v) && n <= |v.items|
    ensures Balanced(ItemLines(v, n, depth), depth)
    decreases v, 0, n
  {
    hide Writable, Lines, Tidy, Balanced, WithComma;
    if n == 0 {
      NoneBalanced(depth);
    } else {
      ItemWritable(v, n - 1);
      ItemsBalanced(v, n - 1, depth);
      ItemLinesTidy(v, n - 1, depth);
      CommaBalanced(ItemLines(v, n - 1, depth), depth);
      LinesBalanced(v.items[n - 1], depth);
      BalancedSum(WithComma(ItemLines(v, n - 1, depth)), Lines(v.items[n - 1], depth), depth);
    }
  }

  lemma {:induction false} MembersBalanced(v: Value, n: nat, depth: nat)
    requires v.Object? && Writable(v) && n <= |v.members|
    ensures Balanced(MemberLines(v, n, depth), depth)
    decreases v, 0, n
  {
    hide Writable, Lines, Tidy, Balanced, WithComma, WithName, Quoted;
    if n == 0 {
      NoneBalanced(depth);
    } else {
      MemberWritable(v, n - 1);
      MembersBalanced(v, n - 1, depth);
      MemberLinesTidy(v, n - 1, depth);
      CommaBalanced(MemberLines(v, n - 1, depth), depth);
      var m := v.members[n - 1];
      LinesTidy(m.value, depth);
      LinesBalanced(m.value, depth);
      NameBalanced(m.name, Lines(m.value, depth), depth);
      BalancedSum(WithComma(MemberLines(v, n - 1, depth)), WithName(m.name, Lines(m.value, depth)), depth);
    }
  }

  lemma {:induction false} SurplusIs(lines: seq<Line>)
    requires AllTidy(lines)
    ensures StillOpen(RenderedAll(lines)) == Surplus(lines)
  {
    hide Tidy, Rendered, Opens, Closes, Content;
    if lines != [] {
      var n := |lines| - 1;
      SurplusIs(lines[..n]);
      RenderedLine(lines[n]);
      assert RenderedAll(lines)[..n] == RenderedAll(lines[..n]);
    }
  }

  lemma {:induction false} NestedAt(lines: seq<Line>, d: int, k: nat)
    requires Nested(lines, d) && k < |lines|
    ensures lines[k].depth == d + Surplus(lines[..k]) - (if Closes(lines[k].text) then 1 else 0)
    decreases |lines|
  {
    var n := |lines| - 1;
    if k < n {
      NestedAt(lines[..n], d, k);
      assert lines[..n][..k] == lines[..k];
    }
  }

  /** The styled text is indented by the containers around each line. */
  lemma StyledIndentation(v: Value)
    requires Writable(v)
    ensures WellIndented(Styled("", v, ""))
  {
    hide Writable, Styled, Lines, Tidy, Nested, Opens, Closes, Rendered, SplitLines, Content, StillOpen, Surplus;
    StyledDocument(v);
    LinesTidy(v, 0);
    LinesBalanced(v, 0);
    var lines := Lines(v, 0);
    assert lines == [lines[0]] + lines[1..];
    assert AllTidy(lines[1..]);
    SplitRender(lines[0], lines[1..]);
    RenderIs(lines);
    var ls := RenderedAll(lines);
    forall k | 0 <= k < |ls|
      ensures |ls[k]| - |Content(ls[k])| == 3 * (StillOpen(ls[..k]) - (if Closes(Content(ls[k])) then 1 else 0))
    {
      RenderedLine(lines[k]);
      NestedAt(lines, 0, k);
      SurplusIs(lines[..k]);
      assert ls[..k] == RenderedAll(lines[..k]);
    }
  }

  lemma RenderIs(lines: seq<Line>)
    requires lines != []
    ensures Render(lines) == Rendered(lines[0]) + Below(lines[1..])
  {
  }

  /** The printer: the lines of the value, well indented, and a line end. */
  method WriteStyled(root: Value) returns (text: string)
    requires Writable(root)
    ensures text == Render(Lines(root, 0)) + "\n"
    ensures WellIndented(text[..|text| - 1])
  {
    hide Writable, Styled, Lines, Render, WellIndented;
    var writer := new StyledWriter();
    text := writer.Write(root);
    StyledDocument(root);
    StyledIndentation(root);
    assert text[..|text| - 1] == Styled("", root, "");
  }
}
