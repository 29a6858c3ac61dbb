/** The tokens of a value, and texts that lay them out with spaces in between. */
module JsonPieces {
  import opened Wrappers
  import opened JsonText
  import opened JsonReal
  import opened JsonValue
  import opened JsonGrammar

  /** The tokens of a value that can be written, as texts. */
  function Pieces(v: Value): (r: seq<string>)
    requires Writable(v)
    ensures r != []
    decreases v, 1, 0
  {
    match v
    case Null => ["null"]
    case Bool(b) => [if b then "true" else "false"]
    case Int(i) => [IntText(i)]
    case UInt(n) => [IntText(n)]
    case Real(d) => [Shortened(d)]
    case Str(s) => [Quoted(s)]
    case Array(xs) => ["["] + (if xs == [] then [] else ItemPieces(v, 0)) + ["]"]
    case Object(ms) => ["{"] + (if ms == [] then [] else MemberPieces(v, 0)) + ["}"]
  }

  /** The elements from the `i`-th on, separated by commas. */
  function ItemPieces(v: Value, i: nat): seq<string>
    requires v.Array? && Writable(v) && i < |v.items|
    decreases v, 0, |v.items| - i
  {
    Pieces(v.items[i]) + (if i + 1 == |v.items| then [] else [","] + ItemPieces(v, i + 1))
  }

  function MemberPieces(v: Value, i: nat): seq<string>
    requires v.Object? && Writable(v) && i < |v.members|
    decreases v, 0, |v.members| - i
  {
    [Quoted(v.members[i].name), ":"] + Pieces(v.members[i].value)
    + (if i + 1 == |v.members| then [] else [","] + MemberPieces(v, i + 1))
  }

  /** The tokens of the first `n` elements. */
  function FirstItems(v: Value, n: nat): seq<string>
    requires v.Array? && Writable(v) && n <= |v.items|
  {
    if n == 0 then [] else FirstItems(v, n - 1) + (if n > 1 then [","] else []) + Pieces(v.items[n - 1])
  }

  function FirstMembers(v: Value, n: nat): seq<string>
    requires v.Object? && Writable(v) && n <= |v.members|
  {
    if n == 0 then []
    else FirstMembers(v, n - 1) + (if n > 1 then [","]
      else []) + ([Quoted(v.members[n - 1].name), ":"] + Pieces(v.members[n - 1].value))
  }

  lemma {:induction false} AllItems(v: Value, n: nat)
    requires v.Array? && Writable(v) && 0 < n <= |v.items|
    ensures ItemPieces(v, 0) == FirstItems(v, n) + (if n == |v.items| then [] else [","] + ItemPieces(v, n))
  {
    hide Pieces, Writable;
    if n == 1 {
      ItemWritable(v, 0);
      assert FirstItems(v, 1) == Pieces(v.items[0]);
    } else {
      AllItems(v, n - 1);
    }
  }

  lemma {:induction false} AllMembers(v: Value, n: nat)
    requires v.Object? && Writable(v) && 0 < n <= |v.members|
    ensures MemberPieces(v, 0) == FirstMembers(v, n) + (if n == |v.members| then [] else [","] + MemberPieces(v, n))
  {
    hide Pieces, Writable, Quoted;
    if n == 1 {
      MemberWritable(v, 0);
      assert FirstMembers(v, 1) == [Quoted(v.members[0].name), ":"] + Pieces(v.members[0].value);
    } else {
      AllMembers(v, n - 1);
    }
  }

  lemma NoMorePieces(a: seq<string>)
    ensures a + [] == a
  {
  }

  /** The pieces one after the other; a colon may be followed by a space. */
  function Compact(pieces: seq<string>, yaml: bool): string {
    if pieces == [] then ""
    else (if pieces[0] == ":" && yaml then ": " else pieces[0]) + Compact(pieces[1..], yaml)
  }

  lemma {:induction false} CompactSum(a: seq<string>, b: seq<string>, yaml: bool)
    ensures Compact(a + b, yaml) == Compact(a, yaml) + Compact(b, yaml)
  {
    if a == [] {
      assert a + b == b;
    } else {
      assert (a + b)[0] == a[0] && (a + b)[1..] == a[1..] + b;
      CompactSum(a[1..], b, yaml);
    }
  }

  /** Where the pieces end if they stand at or behind `p`, each after any number of spaces. */
  function Lay(doc: string, p: nat, pieces: seq<string>): (r: Option<nat>)
    requires p <= |doc|
    ensures r.Some? ==> p <= r.value <= |doc|
    decreases pieces
  {
    if pieces == [] then Some(p)
    else
      var s := SkipSpaces(doc, p);
      if HasWord(doc, s, pieces[0]) then Lay(doc, s + |pieces[0]|, pieces[1..]) else None
  }

  lemma {:induction false} LaySum(doc: string, p: nat, a: seq<string>, b: seq<string>)
    requires p <= |doc| && Lay(doc, p, a + b).Some?
    ensures Lay(doc, p, a).Some? && Lay(doc, Lay(doc, p, a).value, b) == Lay(doc, p, a + b)
    decreases a
  {
    if a == [] {
      assert a + b == b;
    } else {
      assert (a + b)[0] == a[0] && (a + b)[1..] == a[1..] + b;
      var s := SkipSpaces(doc, p);
      LaySum(doc, s + |a[0]|, a[1..], b);
    }
  }

  lemma LayFirst(doc: string, p: nat, piece: string, rest: seq<string>)
    requires p <= |doc| && Lay(doc, p, [piece] + rest).Some?
    ensures var s := SkipSpaces(doc, p);
      HasWord(doc, s, piece)
      && Lay(doc, s + |piece|, rest) == Lay(doc, p, [piece] + rest)
  {
    assert ([piece] + rest)[0] == piece && ([piece] + rest)[1..] == rest;
  }

  lemma {:induction false} SpacesStop(doc: string, p: nat)
    requires p <= |doc|
    ensures var s := SkipSpaces(doc, p);
      SkipSpaces(doc, s) == s && (s < |doc| ==> !IsSpace(doc[s])) && (s > p ==> IsSpace(doc[p]))
    decreases |doc| - p
  {
    if p < |doc| && IsSpace(doc[p]) { SpacesStop(doc, p + 1); }
  }

  /** A value is followed by a space or by the next mark, so that numbers end there. */
  lemma EndsHere(doc: string, p: nat, mark: char, rest: seq<string>)
    requires p <= |doc| && mark in ",]}" && Lay(doc, p, [[mark]] + rest).Some?
    ensures p < |doc| && !IsNumeric(doc[p])
  {
    LayFirst(doc, p, [mark], rest);
    SpacesStop(doc, p);
    var s := SkipSpaces(doc, p);
    assert doc[s..s + 1][0] == mark;
  }

  // Numbers.

  lemma IntChars(i: int)
    ensures var t := IntText(i); t != [] && (IsDigit(t[0]) || t[0] == '-') && IsWhole(t)
    ensures (i < 0 <==> IntText(i)[0] == '-')
  {
    hide Decimal;
  }

  lemma IntDecodes(i: int, f: Features)
    requires -0x8000_0000_0000_0000 <= i <= MAX_UINT64
    ensures DecodeNumber(IntText(i), f) == WholeValue(i < 0, if i < 0 then -i else i)
  {
    hide Decimal, Number;
    IntChars(i);
    if i < 0 {
      DecimalReadsBack(-i);
      assert IntText(i)[1..] == Decimal(-i);
    } else {
      DecimalReadsBack(i);
    }
  }
}
