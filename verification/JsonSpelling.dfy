/** Which texts the reader accepts and what they mean, without reference to how it reads them.

    A spelled value says how each token is written: strings as a list of plain and escaped
    characters, numbers as their text, objects with their members in any order.  `Legal` values are
    those of RFC 8259 (strings in section 7, numbers in section 6, objects in section 4); `Accepted`
    ones may also hold control characters, lone low surrogates, and any run of number characters that
    can be converted.  `Spans` says which texts spell a value: spaces and comments in front of its
    tokens, and the liberties around the members of objects. */
module JsonSpelling {
  import opened Wrappers
  import opened JsonText
  import opened JsonValue

  datatype Char = Plain(c: char) | Short(c: char) | Hex(digits: string) | Pair(high: string, low: string)

  datatype Spelled =
    | NullText
    | BoolText(flag: bool)
    | NumberText(text: string)
    | StringText(chars: seq<Char>)
    | ItemsText(items: seq<Spelled>)
    | EntriesText(entries: seq<Entry>)

  datatype Entry = Entry(name: seq<Char>, value: Spelled)

  // Characters.

  const LOWER_DIGITS: string := "0123456789abcdef"
  const UPPER_DIGITS: string := "0123456789ABCDEF"

  /** The place of a character, or the length if it is not there. */
  function IndexIn(s: string, c: char): (i: nat)
    ensures i <= |s| && (i < |s| ==> s[i] == c) && forall j :: 0 <= j < i ==> s[j] != c
  {
    if s == [] || s[0] == c then 0 else 1 + IndexIn(s[1..], c)
  }

  function DigitAt(c: char): nat {
    if c in LOWER_DIGITS then IndexIn(LOWER_DIGITS, c) else IndexIn(UPPER_DIGITS, c)
  }

  predicate IsHexDigit(c: char) {
    c in LOWER_DIGITS || c in UPPER_DIGITS
  }

  /** Four hexadecimal digits in either case. */
  predicate IsHex(d: string) {
    |d| == 4 && forall i :: 0 <= i < 4 ==> IsHexDigit(d[i])
  }

  function HexNumber(d: string): nat
    requires IsHex(d)
  {
    0x1000 * DigitAt(d[0]) + 0x100 * DigitAt(d[1]) + 0x10 * DigitAt(d[2]) + DigitAt(d[3])
  }

  predicate IsHigh(n: nat) {
    0xD800 <= n < 0xDC00
  }

  predicate IsLow(n: nat) {
    0xDC00 <= n < 0xE000
  }

  /** Section 7: plain characters are no quote, no backslash and no control character; the halves of
      a pair are a high and a low surrogate, and a single escape is neither. */
  predicate LegalChar(ch: Char) {
    match ch
    case Plain(c) => c != '\"' && c != '\\' && c >= ' '
    case Short(c) => c in "\"\\/bfnrt"
    case Hex(d) => IsHex(d) && !IsHigh(HexNumber(d)) && !IsLow(HexNumber(d))
    case Pair(h, l) => IsHex(h) && IsHex(l) && IsHigh(HexNumber(h)) && IsLow(HexNumber(l))
  }

  /** The reader also takes control characters, low surrogates on their own, and any escape for the
      second half of a pair. */
  predicate AcceptedChar(ch: Char) {
    match ch
    case Plain(c) => c != '\"' && c != '\\'
    case Short(c) => c in "\"\\/bfnrt"
    case Hex(d) => IsHex(d) && !IsHigh(HexNumber(d))
    case Pair(h, l) => IsHex(h) && IsHex(l) && IsHigh(HexNumber(h))
  }

  function CharText(ch: Char): string {
    match ch
    case Plain(c) => [c]
    case Short(c) => ['\\', c]
    case Hex(d) => "\\u" + d
    case Pair(h, l) => "\\u" + h + "\\u" + l
  }

  /** The character that a backslash and `c` stand for. */
  function ShortMeaning(c: char): char {
    match c
    case 'b' => 8 as char
    case 't' => 9 as char
    case 'n' => 10 as char
    case 'f' => 12 as char
    case 'r' => 13 as char
    case _ => c
  }

  /** The bytes of a character. */
  function CharMeaning(ch: Char): string
    requires AcceptedChar(ch)
  {
    match ch
    case Plain(c) => [c]
    case Short(c) => [ShortMeaning(c)]
    case Hex(d) => CodePointToUtf8(HexNumber(d))
    case Pair(h, l) => CodePointToUtf8(0x1_0000 + 0x400 * (HexNumber(h) - 0xD800) + HexNumber(l) % 0x400)
  }

  predicate LegalChars(cs: seq<Char>) {
    forall i :: 0 <= i < |cs| ==> LegalChar(cs[i])
  }

  predicate AcceptedChars(cs: seq<Char>) {
    forall i :: 0 <= i < |cs| ==> AcceptedChar(cs[i])
  }

  function CharsText(cs: seq<Char>): string {
    if cs == [] then [] else CharText(cs[0]) + CharsText(cs[1..])
  }

  function CharsMeaning(cs: seq<Char>): string
    requires AcceptedChars(cs)
  {
    if cs == [] then [] else CharMeaning(cs[0]) + CharsMeaning(cs[1..])
  }

  function Quote(cs: seq<Char>): string {
    "\"" + CharsText(cs) + "\""
  }

  // Numbers.

  predicate AllDigits(d: string) {
    forall i :: 0 <= i < |d| ==> IsDigit(d[i])
  }

  predicate IsInt(s: string) {
    s == "0" || (s != [] && '1' <= s[0] <= '9' && AllDigits(s))
  }

  predicate IsFraction(s: string) {
    s == "" || (|s| > 1 && s[0] == '.' && AllDigits(s[1..]))
  }

  predicate IsExponent(s: string) {
    s == "" ||
    (|s| > 1 && s[0] in "eE" && (AllDigits(s[1..]) || (|s| > 2 && s[1] in "+-" && AllDigits(s[2..]))))
  }

  ghost predicate Splits(u: string, i: nat, j: nat) {
    i <= j <= |u| && IsInt(u[..i]) && IsFraction(u[i..j]) && IsExponent(u[j..])
  }

  function Unsigned(t: string): string {
    if t != [] && t[0] == '-' then t[1..] else t
  }

  ghost predicate IsNumber(t: string) {
    exists i: nat, j: nat :: Splits(Unsigned(t), i, j)
  }

  lemma NumberChars(t: string)
    requires IsNumber(t)
    ensures t != [] && (IsDigit(t[0]) || t[0] == '-') && forall k :: 0 <= k < |t| ==> IsNumeric(t[k])
  {
    var minus := t != [] && t[0] == '-';
    var u := Unsigned(t);
    var i: nat, j: nat :| Splits(u, i, j);
    UnsignedChars(u, i, j);
    forall k | 0 <= k < |t| ensures IsNumeric(t[k]) {
      if !minus || k > 0 { assert t[k] == u[if minus then k - 1 else k]; }
    }
  }

  lemma UnsignedChars(u: string, i: nat, j: nat)
    requires Splits(u, i, j)
    ensures u != [] && IsDigit(u[0]) && forall k :: 0 <= k < |u| ==> IsNumeric(u[k])
  {
    var a, b, c := u[..i], u[i..j], u[j..];
    forall k | 0 <= k < |u| ensures IsNumeric(u[k]) {
      if k < i {
        assert u[k] == a[k];
      } else if k < j {
        assert u[k] == b[k - i] && (k > i ==> b[k - i] == b[1..][k - i - 1]);
      } else {
        assert u[k] == c[k - j] && (k > j ==> c[k - j] == c[1..][k - j - 1])
          && (k > j + 1 ==> c[k - j] == c[2..][k - j - 2]);
      }
    }
    assert u[0] == a[0];
  }

  // What a number text means.

  const DIGITS: string := "0123456789"

  predicate IsNumberChar(c: char) {
    c in DIGITS || c in ".eE+-"
  }

  /** Any run of number characters that starts with a digit or a minus sign. */
  predicate IsRun(t: string) {
    t != [] && (t[0] in DIGITS || t[0] == '-') && forall i :: 0 <= i < |t| ==> IsNumberChar(t[i])
  }

  predicate Digits(t: string) {
    forall i :: 0 <= i < |t| ==> t[i] in DIGITS
  }

  function Amount(t: string): nat
    requires Digits(t)
  {
    if t == [] then 0 else 10 * Amount(t[..|t| - 1]) + IndexIn(DIGITS, t[|t| - 1])
  }

  /** Whole numbers of 64 bits are exact; those up to 2^31 - 1 are signed, larger ones are not.  All
      others are what the library makes of them, if it makes anything of them. */
  function NumberMeaning(t: string, f: Features): Option<Value> {
    if Digits(t) && Amount(t) <= 0x7FFF_FFFF then Some(Int(Amount(t)))
    else if Digits(t) && Amount(t) <= 0xFFFF_FFFF_FFFF_FFFF then Some(UInt(Amount(t)))
    else if t != [] && t[0] == '-' && Digits(t[1..]) && Amount(t[1..]) <= 0x8000_0000_0000_0000
    then Some(Int(0 - Amount(t[1..])))
    else
      match f.scan(t)
      case None => None
      case Some(d) => Some(Real(d))
  }

  // Values.

  ghost predicate Legal(sp: Spelled, f: Features)
    decreases sp
  {
    match sp
    case NumberText(t) => IsNumber(t) && NumberMeaning(t, f).Some?
    case StringText(cs) => LegalChars(cs)
    case ItemsText(xs) => forall i :: 0 <= i < |xs| ==> Legal(xs[i], f)
    case EntriesText(es) => forall i :: 0 <= i < |es| ==> LegalChars(es[i].name) && Legal(es[i].value, f)
    case _ => true
  }

  ghost predicate Accepted(sp: Spelled, f: Features)
    decreases sp
  {
    match sp
    case NumberText(t) => IsRun(t) && NumberMeaning(t, f).Some?
    case StringText(cs) => AcceptedChars(cs)
    case ItemsText(xs) => forall i :: 0 <= i < |xs| ==> Accepted(xs[i], f)
    case EntriesText(es) => forall i :: 0 <= i < |es| ==> AcceptedChars(es[i].name) && Accepted(es[i].value, f)
    case _ => true
  }

  /** Strings and names end at the first NUL, as in the source; a repeated name keeps its last value. */
  ghost function Meaning(sp: Spelled, f: Features): Value
    requires Accepted(sp, f)
    decreases sp, 1, 0
  {
    match sp
    case NullText => Null
    case BoolText(b) => Bool(b)
    case NumberText(t) => NumberMeaning(t, f).value
    case StringText(cs) => Str(UpToNul(CharsMeaning(cs)))
    case ItemsText(xs) => Array(ItemsMeaning(sp, |xs|, f))
    case EntriesText(es) => Object(EntriesMeaning(sp, |es|, f))
  }

  /** The first `n` elements. */
  ghost function ItemsMeaning(sp: Spelled, n: nat, f: Features): (r: seq<Value>)
    requires sp.ItemsText? && Accepted(sp, f) && n <= |sp.items|
    ensures |r| == n
    decreases sp, 0, n
  {
    if n == 0 then [] else ItemsMeaning(sp, n - 1, f) + [Meaning(sp.items[n - 1], f)]
  }

  ghost function EntriesMeaning(sp: Spelled, n: nat, f: Features): seq<Member>
    requires sp.EntriesText? && Accepted(sp, f) && n <= |sp.entries|
    decreases sp, 0, n
  {
    if n == 0 then []
    else
      var e := sp.entries[n - 1];
      Put(EntriesMeaning(sp, n - 1, f), UpToNul(CharsMeaning(e.name)), Meaning(e.value, f))
  }

  // Tokens in a text.

  predicate IsBlank(c: char) {
    c as int == 0x20 || c as int == 0x09 || c as int == 0x0A || c as int == 0x0D
  }

  ghost predicate Blanks(doc: string, p: nat, q: nat) {
    p <= q <= |doc| && forall i :: p <= i < q ==> IsBlank(doc[i])
  }

  predicate Stands(doc: string, p: nat, word: string) {
    p + |word| <= |doc| && doc[p..p + |word|] == word
  }

  /** From a slash and a star to the first star and slash behind them. */
  ghost predicate BlockComment(doc: string, p: nat, q: nat) {
    && p + 4 <= q <= |doc| && Stands(doc, p, "/*") && Stands(doc, q - 2, "*/")
    && forall i :: p + 2 <= i < q - 2 ==> !(doc[i] == '*' && doc[i + 1] == '/')
  }

  /** From two slashes to the line end, which belongs to it, or to the end of the text. */
  ghost predicate LineComment(doc: string, p: nat, q: nat) {
    && p + 2 <= q <= |doc| && Stands(doc, p, "//")
    && (forall i :: p + 2 <= i < q - 1 ==> doc[i] !in "\r\n")
    && (q == |doc| || (q > p + 2 && doc[q - 1] in "\r\n"))
  }

  ghost predicate IsComment(doc: string, p: nat, q: nat) {
    BlockComment(doc, p, q) || LineComment(doc, p, q)
  }

  /** Spaces and comments. */
  ghost predicate Gap(doc: string, p: nat, q: nat)
    decreases q - p
  {
    || Blanks(doc, p, q)
    || exists a: nat, b: nat :: p <= a < b <= q && Blanks(doc, p, a) && IsComment(doc, a, b) && Gap(doc, b, q)
  }

  /** A number goes on as long as it can. */
  ghost predicate Ends(doc: string, q: nat) {
    q <= |doc| && (q < |doc| ==> !IsNumberChar(doc[q]))
  }

  /** What is taken for a separator behind a comment: any token but a closing brace, and any two
      characters that start none. */
  ghost predicate AnyToken(doc: string, p: nat, q: nat) {
    && p < q <= |doc| && !IsBlank(doc[p]) && doc[p] != '}' && !(exists r: nat :: IsComment(doc, p, r))
    && if doc[p] == '\"' then AnyString(doc, p, q)
       else if doc[p] in DIGITS || doc[p] == '-' then Ends(doc, q) && forall i :: p < i < q ==> IsNumberChar(doc[i])
       else if doc[p] == '/' then q == (if Stands(doc, p, "/*") then |doc| else if p + 1 < |doc| then p + 2 else p + 1)
       else if Stands(doc, p, "true") || Stands(doc, p, "null") then q == p + 4
       else if Stands(doc, p, "false") then q == p + 5
       else q == p + 1
  }

  /** The string that is opened at `p` ends in front of `q`. */
  ghost predicate ClosedAt(doc: string, p: nat, q: nat) {
    p + 2 <= q <= |doc| && doc[q - 1] == '\"' && IsInside(doc[p + 1..q - 1])
  }

  /** A string, or the rest of the text if it does not end. */
  ghost predicate AnyString(doc: string, p: nat, q: nat) {
    ClosedAt(doc, p, q) || (q == |doc| && forall r: nat :: !ClosedAt(doc, p, r))
  }

  /** No quote but behind a backslash, and no lone backslash. */
  predicate IsInside(t: string) {
    t == [] || (t[0] == '\\' && |t| > 1 && IsInside(t[2..])) || (t[0] != '\\' && t[0] != '\"' && IsInside(t[1..]))
  }

  // Values in a text.

  /** From `p` to `q` the text spells the value, with what may stand in front of it. */
  ghost predicate Spans(doc: string, p: nat, q: nat, sp: Spelled, f: Features)
    decreases sp, 2, 0
  {
    exists s: nat :: p <= s < q <= |doc| && InFront(doc, p, s, f) && Spells(doc, s, q, sp, f)
  }

  /** Comments stand in front of a value only if they are allowed. */
  ghost predicate InFront(doc: string, p: nat, s: nat, f: Features) {
    if f.allowComments then Gap(doc, p, s) else Blanks(doc, p, s)
  }

  ghost predicate Spells(doc: string, s: nat, q: nat, sp: Spelled, f: Features)
    requires s < q <= |doc|
    decreases sp, 1, 0
  {
    match sp
    case NullText => Stands(doc, s, "null") && q == s + 4
    case BoolText(b) => if b then Stands(doc, s, "true") && q == s + 4 else Stands(doc, s, "false") && q == s + 5
    case NumberText(t) => Stands(doc, s, t) && q == s + |t| && Ends(doc, q)
    case StringText(cs) => Stands(doc, s, Quote(cs)) && q == s + |Quote(cs)|
    case ItemsText(xs) =>
      doc[s] == '[' && if xs == [] then doc[q - 1] == ']' && s + 2 <= q && Blanks(doc, s + 1, q - 1)
                       else SpansItems(doc, s + 1, q, sp, 0, f)
    case EntriesText(_) => doc[s] == '{' && SpansEntries(doc, s + 1, q, sp, 0, "", f)
  }

  /** The elements from the `i`-th on, and the closing bracket. */
  ghost predicate SpansItems(doc: string, p: nat, q: nat, sp: Spelled, i: nat, f: Features)
    requires q <= |doc| && sp.ItemsText? && i < |sp.items|
    decreases sp, 0, |sp.items| - i
  {
    exists m: nat, x: nat ::
      && Spans(doc, p, m, sp.items[i], f) && Gap(doc, m, x) && x < q
      && if i + 1 == |sp.items| then doc[x] == ']' && q == x + 1
         else doc[x] == ',' && SpansItems(doc, x + 1, q, sp, i + 1, f)
  }

  /** The members from the `i`-th on, and the closing brace.  Behind a separator the brace may stand
      only if the last name, `last`, is empty. */
  ghost predicate SpansEntries(doc: string, p: nat, q: nat, sp: Spelled, i: nat, last: string, f: Features)
    requires q <= |doc| && sp.EntriesText? && i <= |sp.entries|
    decreases sp, 0, |sp.entries| - i
  {
    if i == |sp.entries| then last == "" && exists x: nat :: Gap(doc, p, x) && x + 1 == q && doc[x] == '}'
    else
      var e := sp.entries[i];
      AcceptedChars(e.name) &&
      exists c: nat, m: nat, x: nat ::
        && SpansName(doc, p, c, e.name) && Spans(doc, c, m, e.value, f) && Gap(doc, m, x) && x < q
        && ((i + 1 == |sp.entries| && doc[x] == '}' && q == x + 1)
            || exists y: nat :: y <= q && Separates(doc, m, x, y)
                                && SpansEntries(doc, y, q, sp, i + 1, CharsMeaning(e.name), f))
  }

  /** A name and its colon; no comment stands in front of the colon. */
  ghost predicate SpansName(doc: string, p: nat, q: nat, name: seq<Char>) {
    exists a: nat ::
      && Gap(doc, p, a) && Stands(doc, a, Quote(name))
      && a + |Quote(name)| < q <= |doc| && Blanks(doc, a + |Quote(name)|, q - 1) && doc[q - 1] == ':'
  }

  /** A comma, or any token if there is a comment in front of it. */
  ghost predicate Separates(doc: string, m: nat, x: nat, y: nat)
    requires x < |doc|
  {
    (doc[x] == ',' && y == x + 1) || (!Blanks(doc, m, x) && AnyToken(doc, x, y))
  }

  /** What the reader takes for a document: a value, and anything behind it. */
  ghost predicate IsText(doc: string, sp: Spelled, f: Features) {
    && Accepted(sp, f) && (f.strictRoot ==> sp.ItemsText? || sp.EntriesText?)
    && exists q: nat :: Spans(doc, 0, q, sp, f)
  }

  // The tokens of a value, for texts without liberties.

  function Tokens(sp: Spelled): (r: seq<string>)
    ensures r != []
    decreases sp, 1, 0
  {
    match sp
    case NullText => ["null"]
    case BoolText(b) => [if b then "true" else "false"]
    case NumberText(t) => [t]
    case StringText(cs) => [Quote(cs)]
    case ItemsText(_) => ["["] + (Inside(sp) + ["]"])
    case EntriesText(_) => ["{"] + (Inside(sp) + ["}"])
  }

  /** The tokens of a container between its brackets. */
  function Inside(sp: Spelled): seq<string>
    requires sp.ItemsText? || sp.EntriesText?
    decreases sp, 0, if sp.ItemsText? then |sp.items| + 1 else |sp.entries| + 1
  {
    if sp.ItemsText? then (if sp.items == [] then [] else ItemTokens(sp, 0))
    else (if sp.entries == [] then [] else EntryTokens(sp, 0))
  }

  /** The elements from the `i`-th on, separated by commas. */
  function ItemTokens(sp: Spelled, i: nat): seq<string>
    requires sp.ItemsText? && i < |sp.items|
    decreases sp, 0, |sp.items| - i
  {
    Tokens(sp.items[i]) + (if i + 1 == |sp.items| then [] else [","] + ItemTokens(sp, i + 1))
  }

  function EntryTokens(sp: Spelled, i: nat): seq<string>
    requires sp.EntriesText? && i < |sp.entries|
    decreases sp, 0, |sp.entries| - i
  {
    [Quote(sp.entries[i].name), ":"] + Tokens(sp.entries[i].value)
    + (if i + 1 == |sp.entries| then [] else [","] + EntryTokens(sp, i + 1))
  }
}
