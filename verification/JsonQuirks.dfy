/** Texts outside RFC 8259 that the reader accepts. */
module JsonQuirks {
  import opened Wrappers
  import opened JsonText
  import opened JsonValue
  import opened JsonGrammar
  import opened JsonWriter

  /** An object may end behind a comma iff the name of its last member is empty. */
  lemma BraceBehindComma(doc: string, p: nat, ms: seq<Member>, name: string, f: Features)
    requires p <= |doc| && LexPastComments(doc, p).kind == ObjectEnd
    ensures ParseMembers(doc, p, ms, name, f) == if name == "" then Reads(Object(ms), LexPastComments(doc, p).end)
      else Fails
  {
    hide LexPastComments, ParseMember;
  }

  /** Behind a value and a comment, every token but the closing brace counts as the separator. */
  lemma SeparatorBehindComment(doc: string, p: nat, ms: seq<Member>, name: string, f: Features)
    requires p <= |doc| && Lex(doc, p).kind == MemberSeparator
    requires ParseValue(doc, Lex(doc, p).end, f).Reads?
      && Lex(doc, ParseValue(doc, Lex(doc, p).end, f).end).kind == Comment
    ensures var r := ParseValue(doc, Lex(doc, p).end, f);
      var t := LexPastComments(doc, r.end);
      var ms' := Put(ms, UpToNul(name), r.value);
      ParseMember(doc, p, ms, name, f)
      == if t.kind == ObjectEnd then Reads(Object(ms'), t.end) else ParseMembers(doc, t.end, ms', name, f)
  {
    hide Lex, LexPastComments, ParseValue, ParseMembers, Put;
  }

  /** The number 1 in front of something that does not go on with it. */
  lemma ReadsOne(doc: string, p: nat, f: Features)
    requires p < |doc| && doc[p] == '1' && (p + 1 < |doc| ==> !IsNumeric(doc[p + 1]))
    ensures Lex(doc, p) == Token(Numeral, p, p + 1) && ParseValue(doc, p, f) == Reads(Int(1), p + 1)
  {
    assert NumberEnd(doc, p + 1) == p + 1;
    assert Lex(doc, p) == Token(Numeral, p, p + 1);
    assert doc[p..p + 1] == "1";
    assert "1"[..0] == "" && Number("1") == 1;
    assert DecodeNumber("1", f) == Some(Int(1));
  }

  /** A document that starts with a member with an empty name and the value 1. */
  lemma FirstMember(doc: string, f: Features)
    requires |doc| > 5 && doc[..5] == "{\"\":1" && !IsNumeric(doc[5])
    ensures Lex(doc, 3) == Token(MemberSeparator, 3, 4) && ParseValue(doc, 4, f) == Reads(Int(1), 5)
    ensures ParseValue(doc, 0, f) == ParseMember(doc, 3, [], "", f)
    ensures Put([], "", Int(1)) == [Member("", Int(1))]
  {
    assert forall i :: 0 <= i < 5 ==> doc[i] == doc[..5][i];
    assert Lex(doc, 0) == Token(ObjectBegin, 0, 1);
    assert StringEnd(doc, 2) == Some(3);
    assert Lex(doc, 1) == Token(Text, 1, 3);
    assert doc[2..2] == "" && Decode("") == Some("");
    assert Lex(doc, 3) == Token(MemberSeparator, 3, 4);
    ReadsOne(doc, 4, f);
  }

  lemma EmptyNameAndComma(f: Features)
    ensures ParseDocument("{\"\":1,}", f) == Some(Object([Member("", Int(1))]))
  {
    hide ParseValue, ParseMembers, Put, Lex;
    var doc := "{\"\":1,}";
    FirstMember(doc, f);
    MarkAt(doc, 5);
    MarkAt(doc, 6);
    BraceBehindComma(doc, 6, [Member("", Int(1))], "", f);
  }

  /** A mark is a token of its own. */
  lemma MarkAt(doc: string, p: nat)
    requires p < |doc| && doc[p] in "},:"
    ensures Lex(doc, p)
         == Token(if doc[p] == '}' then ObjectEnd else if doc[p] == ',' then ArraySeparator
           else MemberSeparator, p, p + 1)
  {
  }

  lemma ColonBehindComment(f: Features)
    ensures ParseDocument("{\"\":1/**/:}", f) == Some(Object([Member("", Int(1))]))
  {
    hide ParseValue, ParseMembers, ParseMember, Put, Lex;
    var doc := "{\"\":1/**/:}";
    FirstMember(doc, f);
    CommentAt(doc, 5);
    MarkAt(doc, 9);
    MarkAt(doc, 10);
    SeparatorBehindComment(doc, 3, [], "", f);
    BraceBehindComma(doc, 10, [Member("", Int(1))], "", f);
  }

  lemma CommentAt(doc: string, p: nat)
    requires p + 4 <= |doc| && doc[p] == '/' && doc[p + 1] == '*' && doc[p + 2] == '*' && doc[p + 3] == '/'
    ensures Lex(doc, p) == Token(Comment, p, p + 4)
  {
    assert BlockEnd(doc, p + 2) == Some(p + 4);
  }

  /** What follows the value is not looked at. */
  lemma TextBehindValue(f: Features)
    requires !f.strictRoot
    ensures ParseDocument("1 x", f) == Some(Int(1))
  {
    ReadsOne("1 x", 0, f);
  }

  /** What the printers write for a real number that is not finite is no number for the reader, and
      negative infinity at the root is even read as zero. */
  lemma NotFinite(f: Features)
    requires !f.strictRoot
    ensures ParseDocument(FastText(Real("inf"), false) + "\n", f) == None
    ensures ParseDocument(FastText(Real("nan"), false) + "\n", f) == None
    ensures ParseDocument(FastText(Real("-inf"), false) + "\n", f) == Some(Int(0))
  {
    assert FastText(Real("inf"), false) + "\n" == "inf\n";
    assert FastText(Real("nan"), false) + "\n" == "nan\n";
    assert FastText(Real("-inf"), false) + "\n" == "-inf\n";
    WordIsNoValue("inf\n", f);
    WordIsNoValue("nan\n", f);
    SignIsZero("-inf\n", f);
  }

  lemma WordIsNoValue(doc: string, f: Features)
    requires |doc| == 4 && (doc[0] == 'i' || (doc[0] == 'n' && doc[1] != 'u'))
    ensures ParseDocument(doc, f) == None
  {
    if doc[0] == 'n' { assert doc[1..4][0] == doc[1] && "ull"[0] == 'u'; }
    assert Lex(doc, 0).kind == Error;
  }

  /** A sign without digits denotes zero. */
  lemma SignIsZero(doc: string, f: Features)
    requires |doc| > 1 && doc[0] == '-' && !IsNumeric(doc[1]) && !f.strictRoot
    ensures ParseDocument(doc, f) == Some(Int(0))
  {
    assert NumberEnd(doc, 1) == 1;
    assert Lex(doc, 0) == Token(Numeral, 0, 1);
    assert doc[0..1] == "-" && "-"[1..] == "" && Number("") == 0;
    assert DecodeNumber("-", f) == Some(Int(0));
  }
}
