/** Which texts the reader accepts, and the value they denote.

    The grammar is that of RFC 8259 with the reader's liberties: comments between tokens, a
    number is any run of its characters that can be converted, and so on.  Positions count
    from the beginning of the document; its length stands for the end. */
module JsonGrammar {
  import opened Wrappers
  import opened JsonText
  import opened JsonValue

  datatype Kind =
    | ObjectBegin | ObjectEnd | ArrayBegin | ArrayEnd | Text | Numeral | True | False | NullWord
    | ArraySeparator | MemberSeparator | Comment | EndOfStream | Error

  datatype Token = Token(kind: Kind, start: nat, end: nat)

  /** The character at `p`; the terminator of the buffer at the end. */
  function At(doc: string, p: nat): char {
    if p < |doc| then doc[p] else '\0'
  }

  // Tokens.

  function SkipSpaces(doc: string, p: nat): (q: nat)
    requires p <= |doc|
    ensures p <= q <= |doc|
    decreases |doc| - p
  {
    if p < |doc| && IsSpace(doc[p]) then SkipSpaces(doc, p + 1) else p
  }

  /** The end of a number that goes on at `p`. */
  function NumberEnd(doc: string, p: nat): (q: nat)
    requires p <= |doc|
    ensures p <= q <= |doc|
    decreases |doc| - p
  {
    if p < |doc| && IsNumeric(doc[p]) then NumberEnd(doc, p + 1) else p
  }

  /** The end of a string that goes on at `p`: behind the first quote that is not escaped. */
  function StringEnd(doc: string, p: nat): (r: Option<nat>)
    requires p <= |doc|
    ensures r.Some? ==> p < r.value <= |doc|
    decreases |doc| - p
  {
    if p == |doc| then None
    else if doc[p] == '\\' then (if p + 1 == |doc| then None else StringEnd(doc, p + 2))
    else if doc[p] == '\"' then Some(p + 1)
    else StringEnd(doc, p + 1)
  }

  /** The end of a comment that was opened by a slash and a star before `p`. */
  function BlockEnd(doc: string, p: nat): (r: Option<nat>)
    requires p <= |doc|
    ensures r.Some? ==> p < r.value <= |doc|
    decreases |doc| - p
  {
    if p == |doc| then None
    else if doc[p] == '*' && At(doc, p + 1) == '/' then Some(p + 2)
    else BlockEnd(doc, p + 1)
  }

  /** The end of a comment that was opened by two slashes before `p`. */
  function LineEnd(doc: string, p: nat): (q: nat)
    requires p <= |doc|
    ensures p <= q <= |doc|
    decreases |doc| - p
  {
    if p == |doc| then p else if doc[p] == '\r' || doc[p] == '\n' then p + 1 else LineEnd(doc, p + 1)
  }

  predicate HasWord(doc: string, p: nat, word: string) {
    p + |word| <= |doc| && doc[p..p + |word|] == word
  }

  /** A word whose first character stands before `p`. */
  function Word(doc: string, p: nat, rest: string, kind: Kind): Token
    requires 0 < p <= |doc|
  {
    if HasWord(doc, p, rest) then Token(kind, p - 1, p + |rest|) else Token(Error, p - 1, p)
  }

  /** The comment whose slash stands before `p`. */
  function CommentToken(doc: string, p: nat): Token
    requires 0 < p <= |doc|
  {
    if At(doc, p) == '*' && p < |doc| then
      match BlockEnd(doc, p + 1)
      case Some(q) => Token(Comment, p - 1, q)
      case None => Token(Error, p - 1, |doc|)
    else if At(doc, p) == '/' && p < |doc| then Token(Comment, p - 1, LineEnd(doc, p + 1))
    else Token(Error, p - 1, if p < |doc| then p + 1 else p)
  }

  function StringToken(doc: string, p: nat): Token
    requires 0 < p <= |doc|
  {
    match StringEnd(doc, p)
    case Some(q) => Token(Text, p - 1, q)
    case None => Token(Error, p - 1, |doc|)
  }

  /** The token at or behind `p`. */
  function Lex(doc: string, p: nat): (t: Token)
    requires p <= |doc|
    ensures p <= t.start <= t.end <= |doc|
    ensures t.kind != EndOfStream ==> p < t.end
    ensures t.kind == Text ==> t.start + 2 <= t.end
    ensures t.kind == Numeral ==> t.start < t.end
    ensures t.end == p ==> p == |doc|
  {
    var s := SkipSpaces(doc, p);
    if s == |doc| then Token(EndOfStream, s, s)
    else
      var c := doc[s];
      if c == '{' then Token(ObjectBegin, s, s + 1)
      else if c == '}' then Token(ObjectEnd, s, s + 1)
      else if c == '[' then Token(ArrayBegin, s, s + 1)
      else if c == ']' then Token(ArrayEnd, s, s + 1)
      else if c == '\"' then StringToken(doc, s + 1)
      else if c == '/' then CommentToken(doc, s + 1)
      else if IsDigit(c) || c == '-' then Token(Numeral, s, NumberEnd(doc, s + 1))
      else if c == 't' then Word(doc, s + 1, "rue", True)
      else if c == 'f' then Word(doc, s + 1, "alse", False)
      else if c == 'n' then Word(doc, s + 1, "ull", NullWord)
      else if c == ',' then Token(ArraySeparator, s, s + 1)
      else if c == ':' then Token(MemberSeparator, s, s + 1)
      else if c == '\0' then Token(EndOfStream, s, s + 1)
      else Token(Error, s, s + 1)
  }

  /** The next token that is no comment. */
  function LexPastComments(doc: string, p: nat): (t: Token)
    requires p <= |doc|
    ensures p <= t.start <= t.end <= |doc| && t.kind != Comment
    ensures t.kind != EndOfStream ==> p < t.end
    ensures t.kind == Text ==> t.start + 2 <= t.end
    ensures t.kind == Numeral ==> t.start < t.end
    decreases |doc| - p
  {
    var t := Lex(doc, p);
    if t.kind == Comment then LexPastComments(doc, t.end) else t
  }

  /** Behind the first token of the kind `until` at or behind `p`, or behind the last token. */
  function SkipTo(doc: string, p: nat, until: Kind): (q: nat)
    requires p <= |doc|
    ensures p <= q <= |doc|
    decreases |doc| - p
  {
    var t := Lex(doc, p);
    if t.kind == until || t.kind == EndOfStream then t.end else SkipTo(doc, t.end, until)
  }

  // Scalars.

  function HexValue(c: char): (r: Option<nat>)
    ensures r.Some? ==> r.value < 16
  {
    if '0' <= c <= '9' then Some(c as int - '0' as int)
    else if 'a' <= c <= 'f' then Some(c as int - 'a' as int + 10)
    else if 'A' <= c <= 'F' then Some(c as int - 'A' as int + 10)
    else None
  }

  function Pow16(n: nat): nat {
    if n == 0 then 1 else 16 * Pow16(n - 1)
  }

  /** The number that the first `n` hexadecimal digits denote. */
  function HexDigits(s: string, n: nat): (r: Option<nat>)
    requires n <= |s|
    ensures r.Some? ==> r.value < Pow16(n)
  {
    if n == 0 then Some(0)
    else
      match (HexDigits(s, n - 1), HexValue(s[n - 1]))
      case (Some(a), Some(b)) => Some(a * 16 + b)
      case _ => None
  }

  /** Four hexadecimal digits. */
  function Hex4(s: string): (r: Option<nat>)
    ensures r.Some? ==> |s| >= 4 && r.value < 0x1_0000
  {
    if |s| < 4 then None
    else
      assert Pow16(2) == 0x100 && Pow16(4) == 0x1_0000;
      HexDigits(s, 4)
  }

  /** The code point after `\u`, and the rest: a high surrogate takes a second escape. */
  function CodePoint(s: string): (r: Option<(nat, string)>)
    ensures r.Some? ==> |r.value.1| + 4 <= |s| && r.value.0 <= 0x10FFFF
  {
    match Hex4(s)
    case None => None
    case Some(u) =>
      var rest := s[4..];
      if 0xD800 <= u <= 0xDBFF then
        if |rest| < 6 || rest[0] != '\\' || rest[1] != 'u' then None
        else
          match Hex4(rest[2..])
          case None => None
          case Some(l) => Some((0x1_0000 + u % 0x400 * 0x400 + l % 0x400, rest[6..]))
      else Some((u, rest))
  }

  function Unescaped(c: char): Option<char> {
    if c == '\"' then Some('\"')
    else if c == '/' then Some('/')
    else if c == '\\' then Some('\\')
    else if c == 'b' then Some(8 as char)
    else if c == 'f' then Some(12 as char)
    else if c == 'n' then Some('\n')
    else if c == 'r' then Some('\r')
    else if c == 't' then Some('\t')
    else None
  }

  function Prepend(t: string, r: Option<string>): Option<string> {
    match r
    case None => None
    case Some(s) => Some(t + s)
  }

  /** What the inside of a string token denotes. */
  function Decode(s: string): Option<string>
    decreases |s|
  {
    if s == [] || s[0] == '\"' then Some([])
    else if s[0] != '\\' then Prepend([s[0]], Decode(s[1..]))
    else if |s| == 1 then None
    else if s[1] == 'u' then
      match CodePoint(s[2..])
      case None => None
      case Some((cp, rest)) => Prepend(CodePointToUtf8(cp), Decode(rest))
    else
      match Unescaped(s[1])
      case None => None
      case Some(c) => Prepend([c], Decode(s[2..]))
  }

  const MAX_UINT64: nat := 0xFFFF_FFFF_FFFF_FFFF
  const MAX_INT32: nat := 0x7FFF_FFFF

  /** The characters of `t` are digits, but for a sign in front. */
  predicate IsWhole(t: string) {
    forall i :: 0 <= i < |t| ==> IsDigit(t[i]) || (t[i] == '-' && i == 0)
  }

  /** Whole numbers are stored exactly if they fit into 64 bits: negative ones as signed
      numbers, and the others as signed ones if they fit into 32 bits. */
  function WholeValue(negative: bool, n: int): Option<Value>
    requires n >= 0
  {
    if negative then (if n <= 0x8000_0000_0000_0000 then Some(Int(0 - n)) else None)
    else if n <= MAX_INT32 then Some(Int(n)) else if n <= MAX_UINT64 then Some(UInt(n)) else None
  }

  function WholeNumber(t: string): Option<Value>
    requires IsWhole(t)
  {
    var negative := t != [] && t[0] == '-';
    WholeValue(negative, Number(if negative then t[1..] else t))
  }

  function RealNumber(t: string, f: Features): Option<Value> {
    match f.scan(t)
    case None => None
    case Some(d) => Some(Real(d))
  }

  /** What a number token denotes. */
  function DecodeNumber(t: string, f: Features): Option<Value> {
    if IsWhole(t) && WholeNumber(t).Some? then WholeNumber(t) else RealNumber(t, f)
  }

  // Values.

  datatype Parsed = Fails | Reads(value: Value, end: nat)

  function LexValue(doc: string, p: nat, f: Features): (t: Token)
    requires p <= |doc|
    ensures p <= t.start <= t.end <= |doc|
    ensures t.kind != EndOfStream ==> p < t.end
    ensures t.kind == Text ==> t.start + 2 <= t.end
    ensures t.kind == Numeral ==> t.start < t.end
  {
    if f.allowComments then LexPastComments(doc, p) else Lex(doc, p)
  }

  function Scalar(v: Option<Value>, end: nat): Parsed {
    match v
    case None => Fails
    case Some(w) => Reads(w, end)
  }

  /** The string that a token denotes. */
  function TokenString(doc: string, t: Token): Option<string>
    requires t.start + 2 <= t.end <= |doc|
  {
    Decode(doc[t.start + 1..t.end - 1])
  }

  function TextValue(s: Option<string>): Option<Value> {
    match s
    case None => None
    case Some(t) => Some(Str(UpToNul(t)))
  }

  /** A value at or behind `p`. */
  function ParseValue(doc: string, p: nat, f: Features): (r: Parsed)
    requires p <= |doc|
    ensures r.Reads? ==> p < r.end <= |doc|
    decreases |doc| - p, 1
  {
    var t := LexValue(doc, p, f);
    match t.kind
    case ObjectBegin => ParseMembers(doc, t.end, [], "", f)
    case ArrayBegin => ParseArray(doc, t.end, f)
    case Numeral => Scalar(DecodeNumber(doc[t.start..t.end], f), t.end)
    case Text => Scalar(TextValue(TokenString(doc, t)), t.end)
    case True => Reads(Bool(true), t.end)
    case False => Reads(Bool(false), t.end)
    case NullWord => Reads(Null, t.end)
    case _ => Fails
  }

  /** An array behind its opening bracket; it is empty if only spaces separate the brackets. */
  function ParseArray(doc: string, p: nat, f: Features): (r: Parsed)
    requires p <= |doc|
    ensures r.Reads? ==> p < r.end <= |doc|
    decreases |doc| - p, 3
  {
    var s := SkipSpaces(doc, p);
    if At(doc, s) == ']' then Reads(Array([]), s + 1) else ParseElements(doc, s, [], f)
  }

  /** The elements of an array from `p` on; `xs` are those before. */
  function ParseElements(doc: string, p: nat, xs: seq<Value>, f: Features): (r: Parsed)
    requires p <= |doc|
    ensures r.Reads? ==> p < r.end <= |doc|
    decreases |doc| - p, 2
  {
    match ParseValue(doc, p, f)
    case Fails => Fails
    case Reads(v, q) =>
      var t := LexPastComments(doc, q);
      if t.kind == ArrayEnd then Reads(Array(xs + [v]), t.end)
      else if t.kind == ArraySeparator then ParseElements(doc, t.end, xs + [v], f)
      else Fails
  }

  /** The members of an object from `p` on; `ms` are those before and `name` is the last name. */
  function ParseMembers(doc: string, p: nat, ms: seq<Member>, name: string, f: Features): (r: Parsed)
    requires p <= |doc|
    ensures r.Reads? ==> p < r.end <= |doc|
    decreases |doc| - p, 2
  {
    var t := LexPastComments(doc, p);
    if t.kind == ObjectEnd && name == "" then Reads(Object(ms), t.end)
    else if t.kind != Text then Fails
    else
      match TokenString(doc, t)
      case None => Fails
      case Some(name') => ParseMember(doc, t.end, ms, name', f)
  }

  /** The rest of a member behind its name. */
  function ParseMember(doc: string, p: nat, ms: seq<Member>, name: string, f: Features): (r: Parsed)
    requires p <= |doc|
    ensures r.Reads? ==> p < r.end <= |doc|
    decreases |doc| - p, 1
  {
    var colon := Lex(doc, p);
    if colon.kind != MemberSeparator then Fails
    else
      match ParseValue(doc, colon.end, f)
      case Fails => Fails
      case Reads(v, q) =>
        var comma := Lex(doc, q);
        if comma.kind !in {ObjectEnd, ArraySeparator, Comment} then Fails
        else
          var last := LexPastComments(doc, q);
          var ms' := Put(ms, UpToNul(name), v);
          if last.kind == ObjectEnd then Reads(Object(ms'), last.end) else ParseMembers(doc, last.end, ms', name, f)
  }

  /** A whole document: what follows the value does not matter. */
  function ParseDocument(doc: string, f: Features): Option<Value> {
    match ParseValue(doc, 0, f)
    case Fails => None
    case Reads(v, _) => if f.strictRoot && !v.Array? && !v.Object? then None else Some(v)
  }
}
