/** The searches over a finished double array.

    A search starts at a slot that is linked to a node of the trie; for the whole dictionary
    that is slot 0. */
module DartsSearch {
  import opened Bits
  import opened DartsUnit
  import opened Language
  import opened Layout

  /** What a lookup answers. */
  ghost function Lookup(lang: Lang, k: Key): int {
    if k in lang then lang[k] else -1
  }

  /** What a traversal answers: -2 off the trie, -1 inside it, otherwise a value. */
  ghost function Traversed(lang: Lang, k: Key): int {
    if !IsPrefix(lang, k) then -2 else Lookup(lang, k)
  }

  /** The stored keys that are nonempty prefixes of `k[..n]`, shortest first. */
  ghost function PrefixMatches(lang: Lang, k: Key, n: nat): (r: seq<Match>)
    requires n <= |k|
  {
    if n == 0 then []
    else PrefixMatches(lang, k, n - 1) + (if k[..n] in lang then [Match(lang[k[..n]], n)] else [])
  }

  /** Once a prefix of the text leaves the trie, nothing longer matches. */
  lemma {:induction false} NoMoreMatches(lang: Lang, k: Key, i: nat, n: nat)
    requires i < n <= |k| && !IsPrefix(lang, k[..i + 1])
    ensures PrefixMatches(lang, k, n) == PrefixMatches(lang, k, i)
    decreases n
  {
    assert k[..i + 1] + k[i + 1..n] == k[..n];
    assert k[..n] !in lang;
    if n > i + 1 { NoMoreMatches(lang, k, i, n - 1); }
  }

  ghost predicate IsMatch(lang: Lang, k: Key, m: Match) {
    0 < m.length <= |k| && k[..m.length] in lang && lang[k[..m.length]] == m.value
  }

  /** The matches are exactly the stored nonempty prefixes, and their lengths increase. */
  lemma {:induction false} MatchesAreThePrefixes(lang: Lang, k: Key, n: nat)
    requires n <= |k|
    ensures var r := PrefixMatches(lang, k, n);
      && (forall m: Match :: m in r <==> IsMatch(lang, k, m) && m.length <= n)
      && (forall i, j :: 0 <= i < j < |r| ==> r[i].length < r[j].length)
  {
    if n > 0 {
      MatchesAreThePrefixes(lang, k, n - 1);
      var s, r := PrefixMatches(lang, k, n - 1), PrefixMatches(lang, k, n);
      forall i, j | 0 <= i < j < |r| ensures r[i].length < r[j].length {
        if j == |s| {
          assert s[i] in s;
        }
      }
    }
  }

  /** Going on from where a traversal ended is one traversal of the longer key. */
  lemma TraversalsCompose(lang: Lang, k1: Key, k2: Key)
    ensures Traversed(AfterAll(lang, k1), k2) == Traversed(lang, k1 + k2)
  {
    hide IsPrefix;
    PrefixAfter(lang, k1, k2);
    assert k2 in AfterAll(lang, k1) <==> k1 + k2 in lang;
  }

  /** Where following the bytes of a text leads: the last slot, and how many bytes matched. */
  ghost function Walk(units: seq<Word>, p: nat, text: Key): (nat, nat)
    decreases |text|
  {
    if text == [] || p >= |units| then (p, 0)
    else
      var q := Xor(p, Xor(Offset(units[p]), text[0]));
      if q >= |units| || Label(units[q]) != text[0] then (p, 0)
      else
        var rest := Walk(units, q, text[1..]);
        (rest.0, rest.1 + 1)
  }

  /** A walk along `a` and then `b`: it stops inside `a`, or goes on along `b` from its end. */
  lemma {:induction false} WalksCompose(units: seq<Word>, p: nat, a: Key, b: Key)
    ensures var first := Walk(units, p, a);
      && first.1 <= |a|
      && (first.1 == |a| ==> Walk(units, p, a + b) == (Walk(units, first.0, b).0, |a| + Walk(units, first.0, b).1))
      && (first.1 < |a| ==> Walk(units, p, a + b) == first)
    decreases |a|
  {
    hide Xor, Offset, Label;
    if a == [] {
      assert a + b == b;
    } else if p < |units| {
      assert (a + b)[0] == a[0] && (a + b)[1..] == a[1..] + b;
      var q := Xor(p, Xor(Offset(units[p]), a[0]));
      if q < |units| { WalksCompose(units, q, a[1..], b); }
    }
  }

  /** One more byte of a walk. */
  lemma WalkOn(units: seq<Word>, p: nat, text: Key, i: nat)
    requires i < |text| && p < |units|
    ensures var q := Xor(p, Xor(Offset(units[p]), text[i]));
      Walk(units, p, text[i..]) ==
      if q < |units| && Label(units[q]) == text[i]
      then (Walk(units, q, text[i + 1..]).0, Walk(units, q, text[i + 1..]).1 + 1) else (p, 0)
  {
    hide Xor, Offset, Label;
    assert text[i..][0] == text[i] && text[i..][1..] == text[i + 1..];
  }

  /** The array of an empty dictionary: the root, and fillers for its base 1. */
  ghost predicate EmptyUnits(units: seq<Word>) {
    && |units| == 256
    && (forall q: nat :: q < 256 ==> !HasLeaf(units[q]) && Offset(units[q]) == (if q == 0 then 1 else 0))
    && (forall q: nat :: q < 256 ==> Label(units[q]) == if q == 0 then 0 else Xor(q, 1))
  }

  /** What traversing the empty dictionary answers: base 1 is the root's and also the one the
      fillers lead to, so that one byte other than 1 is taken for an edge. */
  function EmptyTraversed(text: Key): int {
    if text == [] then -1
    else if text[0] == 0 then EmptyTraversed(text[1..])
    else if text[0] != 1 && |text| == 1 then -1
    else -2
  }

  /** Zero bytes, followed by at most one byte other than 1. */
  predicate AlmostEmpty(text: Key) {
    (forall i :: 0 <= i < |text| - 1 ==> text[i] == 0) && (text == [] || text[|text| - 1] != 1)
  }

  /** Traversing the empty dictionary is right for exactly the texts that are not almost empty. */
  lemma {:induction false} EmptyDictionaryTraversal(text: Key)
    ensures EmptyTraversed(text) == if AlmostEmpty(text) then -1 else -2
    ensures EmptyTraversed(text) == Traversed(imap[], text) <==> !AlmostEmpty(text)
  {
    if text != [] && text[0] == 0 {
      EmptyDictionaryTraversal(text[1..]);
      assert forall i :: 0 <= i < |text[1..]| ==> text[1..][i] == text[i + 1];
      assert AlmostEmpty(text[1..]) <==> AlmostEmpty(text) by {
        if AlmostEmpty(text[1..]) {
          forall i | 0 <= i < |text| - 1 ensures text[i] == 0 {
            if i > 0 { assert text[1..][i - 1] == text[i]; }
          }
        }
      }
    } else if |text| > 1 {
      assert text[0] != 0;
    }
  }

  lemma EmptyStep(units: seq<Word>, p: nat, c: nat)
    requires EmptyUnits(units) && p < 256 && c < 256
    ensures var q := Xor(p, Xor(Offset(units[p]), c));
      && q < 256
      && (p < 2 ==> (Label(units[q]) == c <==> c != 1) && (q < 2 <==> c < 2) && (c == 0 ==> q == 1))
      && (p >= 2 ==> Label(units[q]) != c)
  {
    hide Xor, HasLeaf, Offset, Label;
    var q := Xor(p, Xor(Offset(units[p]), c));
    XorBlock(Offset(units[p]), c);
    XorBlock(p, Xor(Offset(units[p]), c));
    if p < 2 {
      BaseOne(p, c);
      XorFromOne(c);
    } else {
      XorZero(c);
      XorFromOther(p, c);
    }
  }

  lemma BaseOne(p: nat, c: nat)
    requires p < 2
    ensures Xor(p, Xor(if p == 0 then 1 else 0, c)) == Xor(1, c)
  {
    hide Xor;
    XorZero(Xor(1, c));
    XorZero(c);
  }

  class DoubleArray {
    var units: seq<Word>
    ghost var plan: Plan

    constructor (units: seq<Word>, ghost plan: Plan)
      ensures this.units == units && this.plan == plan
    {
      this.units, this.plan := units, plan;
    }

    ghost predicate Valid()
      reads this
    {
      Complete(units, plan)
    }

    ghost predicate At(p: nat, lang: Lang)
      reads this
    {
      p < |units| && LinksTo(units, plan, p, lang)
    }

    ghost predicate Barren()
      reads this
    {
      EmptyUnits(units)
    }

    /** A search that started in the node `lang` has consumed `text` and stands in slot `p`. */
    ghost predicate Walking(p: nat, lang: Lang, text: Key)
      reads this
    {
      (Valid() && At(p, AfterAll(lang, text))) || (Barren() && p < |units| && lang == imap[])
    }

    method ExactMatchSearch(key: seq<nat>, length: nat, nodePos: nat, ghost lang: Lang)
      returns (value: int, matched: nat)
      requires Walking(nodePos, lang, []) && IsBuffer(key, length)
      ensures value == Lookup(lang, TextOf(key, length))
      ensures matched == if value == -1 then 0 else |TextOf(key, length)|
    {
      hide Complete, LinksTo, Xor, HasLeaf, Offset, Label, Value, IsNode, AfterAll, IsPrefix, Lookup, TextOf, More;
      ghost var text := TextOf(key, length);
      var pos: nat, unit, i := nodePos, units[nodePos], 0;
      assert text[..0] == [];
      MoreMeansInside(key, length, 0);
      while More(key, length, i)
        invariant 0 <= i <= |text| && Walking(pos, lang, text[..i]) && pos < |units| && unit == units[pos]
        invariant More(key, length, i) <==> i < |text|
        decreases |text| - i
      {
        MoreMeansInside(key, length, i);
        StepAlong(pos, lang, text, i);
        pos := Xor(pos, Xor(Offset(unit), key[i]));
        unit := units[pos];
        if Label(unit) != key[i] {
          MissingKey(lang, text);
          return -1, 0;
        }
        i := i + 1;
        MoreMeansInside(key, length, i);
      }
      assert text[..i] == text;
      Finish(pos, lang, text);
      if !HasLeaf(unit) {
        MissingKey(lang, text);
        return -1, 0;
      }
      FoundKey(lang, text);
      return Value(units[Xor(pos, Offset(unit))]), i;
    }

    method CommonPrefixSearch(key: seq<nat>, results: array<Match>, max: nat, length: nat, nodePos: nat,
                              ghost lang: Lang)
      returns (count: nat)
      requires Walking(nodePos, lang, []) && IsBuffer(key, length) && max <= results.Length
      modifies results
      ensures var text := TextOf(key, length);
        && count == |PrefixMatches(lang, text, |text|)|
        && (forall j :: 0 <= j < count && j < max ==> results[j] == PrefixMatches(lang, text, |text|)[j])
      ensures forall j :: (count <= j || max <= j) && j < results.Length ==> results[j] == old(results[j])
    {
      hide Complete, LinksTo, Xor, HasLeaf, Offset, Label, Value, IsNode, AfterAll, IsPrefix, TextOf, More;
      ghost var text := TextOf(key, length);
      ghost var slot: nat := nodePos;
      count := 0;
      var unit := units[nodePos];
      var pos: nat, i := Xor(nodePos, Offset(unit)), 0;
      assert text[..0] == [];
      MoreMeansInside(key, length, 0);
      while More(key, length, i)
        invariant 0 <= i <= |text| && Walking(slot, lang, text[..i]) && slot < |units|
        invariant pos == Xor(slot, Offset(units[slot]))
        invariant More(key, length, i) <==> i < |text|
        invariant count == |PrefixMatches(lang, text, i)|
        invariant forall j :: 0 <= j < count && j < max ==> results[j] == PrefixMatches(lang, text, i)[j]
        invariant forall j :: (count <= j || max <= j) && j < results.Length ==> results[j] == old(results[j])
        decreases |text| - i
      {
        MoreMeansInside(key, length, i);
        StepByte(slot, lang, text, i);
        pos := Xor(pos, key[i]);
        unit := units[pos];
        if Label(unit) != key[i] {
          NoMoreMatches(lang, text, i, |text|);
          return;
        }
        slot := pos;
        i := i + 1;
        assert text[..i] == text[..i][..i];
        Finish(slot, lang, text[..i]);
        pos := Xor(pos, Offset(unit));
        if HasLeaf(unit) {
          if count < max {
            results[count] := Match(Value(units[pos]), i);
          }
          count := count + 1;
        }
        MoreMeansInside(key, length, i);
      }
      assert i == |text|;
    }

    /** The same step, for a loop that adds the offset before the byte. */
    lemma StepByte(p: nat, lang: Lang, text: Key, i: nat)
      requires i < |text| && text[i] < 256 && Walking(p, lang, text[..i])
      ensures var q := Xor(Xor(p, Offset(units[p])), text[i]);
        && q < |units|
        && (Label(units[q]) == text[i] ==> Walking(q, lang, text[..i + 1]))
        && (Label(units[q]) != text[i] ==> !IsPrefix(lang, text[..i + 1]))
    {
      hide Xor, HasLeaf, Offset, Label, HasLabel, After, Complete, LinksTo, IsNode, IsPrefix, AfterAll;
      assert text[..i + 1][..i] == text[..i] && text[..i + 1][..i + 1] == text[..i + 1];
      StepAlong(p, lang, text[..i + 1], i);
      XorAssoc(p, Offset(units[p]), text[i]);
    }

    method Traverse(key: seq<nat>, nodePos: nat, keyPos: nat, length: nat, ghost lang: Lang)
      returns (value: int, nodePos': nat, keyPos': nat)
      requires (Valid() && At(nodePos, lang)) || (Barren() && nodePos == 0)
      requires IsBuffer(key, length) && keyPos <= |TextOf(key, length)|
      ensures keyPos <= keyPos' <= |TextOf(key, length)|
      ensures Walk(units, nodePos, TextOf(key, length)[keyPos..]) == (nodePos', keyPos' - keyPos)
      ensures Valid() && At(nodePos, lang) ==>
        && value == Traversed(lang, TextOf(key, length)[keyPos..])
        && At(nodePos', AfterAll(lang, TextOf(key, length)[keyPos..keyPos']))
        && (value != -2 ==> keyPos' == |TextOf(key, length)|)
        && (value == -2 ==> keyPos' < |TextOf(key, length)|
                            && !IsPrefix(lang, TextOf(key, length)[keyPos..keyPos' + 1]))
      ensures Barren() && nodePos == 0 ==> value == EmptyTraversed(TextOf(key, length)[keyPos..])
    {
      hide Complete, LinksTo, Xor, HasLeaf, Offset, Label, Value, IsNode, AfterAll, IsPrefix, TextOf, More, Traversed,
        EmptyUnits, EmptyTraversed, Walk;
      ghost var text := TextOf(key, length)[keyPos..];
      NothingWalked(nodePos, text);
      ghost var inTrie, empty := Valid() && At(nodePos, lang), Barren() && nodePos == 0;
      var id: nat := nodePos;
      nodePos', keyPos' := nodePos, keyPos;
      Entered(lang, nodePos, text);
      var unit := units[nodePos];
      MoreMeansInside(key, length, keyPos');
      while More(key, length, keyPos')
        invariant keyPos <= keyPos' <= |TextOf(key, length)|
        invariant inTrie ==> At(id, AfterAll(lang, text[..keyPos' - keyPos]))
        invariant empty ==> Astray(id, text, keyPos' - keyPos)
        invariant id < |units| && nodePos' == id && unit == units[id]
        invariant var w := Walk(units, id, text[keyPos' - keyPos..]);
          Walk(units, nodePos, text) == (w.0, keyPos' - keyPos + w.1)
        invariant More(key, length, keyPos') <==> keyPos' < |TextOf(key, length)|
        decreases |TextOf(key, length)| - keyPos'
      {
        MoreMeansInside(key, length, keyPos');
        ghost var i := keyPos' - keyPos;
        assert text[i] == key[keyPos'];
        StepTraverse(id, lang, text, i, inTrie, empty);
        WalkOn(units, id, text, i);
        id := Xor(id, Xor(Offset(unit), key[keyPos']));
        unit := units[id];
        if Label(unit) != key[keyPos'] {
          assert text[..i] == TextOf(key, length)[keyPos..keyPos'];
          assert text[..i + 1] == TextOf(key, length)[keyPos..keyPos' + 1];
          return -2, nodePos', keyPos';
        }
        nodePos' := id;
        keyPos' := keyPos' + 1;
        MoreMeansInside(key, length, keyPos');
      }
      assert text[..keyPos' - keyPos] == text && text[keyPos' - keyPos..] == [];
      WalkEnds(id);
      assert text == TextOf(key, length)[keyPos..keyPos'];
      Arrived(id, lang, text, inTrie, empty);
      if !HasLeaf(unit) {
        return -1, nodePos', keyPos';
      }
      value := Value(units[Xor(id, Offset(unit))]);
    }

    lemma NothingWalked(p: nat, text: Key)
      ensures text[0..] == text
    {
    }

    lemma WalkEnds(p: nat)
      ensures Walk(units, p, []) == (p, 0)
    {
    }

    /** Traversing up to one length and going on to another: unless the first traversal left the
        trie, the second ends where one traversal would, with the same answer. */
    method TraverseInParts(key: seq<nat>, nodePos: nat, keyPos: nat, length: nat, more: nat, ghost lang: Lang)
      returns (first: int, value: int, nodePos': nat, keyPos': nat, whole: int, nodeEnd: nat, keyEnd: nat)
      requires Valid() && At(nodePos, lang) && IsBuffer(key, more) && keyPos <= length <= more && 0 < length
      ensures value == whole && nodePos' == nodeEnd && keyPos' == keyEnd
    {
      hide Complete, LinksTo, AfterAll, IsPrefix, TextOf, Traversed, Walk;
      ghost var all := key[keyPos..more];
      SlicesOf(key, keyPos, length, more);
      first, nodePos', keyPos' := Traverse(key, nodePos, keyPos, length, lang);
      whole, nodeEnd, keyEnd := Traverse(key, nodePos, keyPos, more, lang);
      WalksCompose(units, nodePos, key[keyPos..length], key[length..more]);
      value := first;
      Slice(key, keyPos, keyPos', length);
      if first != -2 {
        TraversalsCompose(lang, key[keyPos..length], key[length..more]);
        value, nodePos', keyPos' := Traverse(key, nodePos', keyPos', more, AfterAll(lang, key[keyPos..length]));
      } else {
        Slice(key, keyPos, keyPos' + 1, length);
        LeftTrie(lang, all, key[keyPos..length], keyPos' - keyPos);
      }
    }

    lemma SlicesOf(key: seq<nat>, keyPos: nat, length: nat, more: nat)
      requires IsBuffer(key, more) && keyPos <= length <= more && 0 < length
      ensures IsBuffer(key, length) && TextOf(key, length) == key[..length] && TextOf(key, more) == key[..more]
      ensures key[..length][keyPos..] == key[keyPos..length] && key[..more][keyPos..] == key[keyPos..more]
      ensures key[..more][length..] == key[length..more]
      ensures key[keyPos..more] == key[keyPos..length] + key[length..more]
    {
    }

    lemma Slice(key: seq<nat>, from: nat, to: nat, length: nat)
      requires from <= to <= length <= |key|
      ensures key[..length][from..to] == key[from..length][..to - from]
      ensures to == length ==> key[..length][from..to] == key[from..length]
    {
    }

    lemma LeftTrie(lang: Lang, all: Key, part: Key, n: nat)
      requires n < |part| <= |all| && all[..|part|] == part && !IsPrefix(lang, part[..n + 1])
      ensures Traversed(lang, all) == -2
    {
      assert all[..n + 1] == part[..n + 1];
      OffTrie(lang, all, n + 1);
    }

    /** A traversal of the empty dictionary stands on base 1, or has gone astray. */
    ghost predicate Astray(p: nat, text: Key, i: nat) {
      && p < 256 && i <= |text|
      && EmptyTraversed(text) == if p < 2 then EmptyTraversed(text[i..]) else if i < |text| then -2 else -1
    }

    lemma Entered(lang: Lang, p: nat, text: Key)
      requires (Valid() && At(p, lang)) || (Barren() && p == 0)
      ensures p < |units|
      ensures Valid() && At(p, lang) ==> At(p, AfterAll(lang, text[..0]))
      ensures p == 0 ==> Astray(0, text, 0)
    {
      hide Complete, LinksTo, AfterAll, EmptyTraversed;
      AfterNone(lang);
      assert text[..0] == [] && text[0..] == text;
    }

    lemma StepTraverse(p: nat, lang: Lang, text: Key, i: nat, inTrie: bool, empty: bool)
      requires i < |text| && text[i] < 256 && p < |units| && (inTrie || empty)
      requires inTrie ==> Valid() && At(p, AfterAll(lang, text[..i]))
      requires empty ==> Barren() && Astray(p, text, i)
      ensures var q := Xor(p, Xor(Offset(units[p]), text[i]));
        && q < |units|
        && (Label(units[q]) == text[i] && inTrie ==> At(q, AfterAll(lang, text[..i + 1])))
        && (Label(units[q]) == text[i] && empty ==> Astray(q, text, i + 1))
        && (Label(units[q]) != text[i] && inTrie ==> Traversed(lang, text) == -2 && !IsPrefix(lang, text[..i + 1]))
        && (Label(units[q]) != text[i] && empty ==> EmptyTraversed(text) == -2)
    {
      hide Xor, HasLeaf, Offset, Label, Complete, LinksTo, IsPrefix, AfterAll, Traversed, EmptyUnits;
      if inTrie {
        assert text[..i + 1][..i] == text[..i] && text[..i + 1][..i + 1] == text[..i + 1];
        StepInside(p, lang, text[..i + 1], i);
        if !IsPrefix(lang, text[..i + 1]) { OffTrie(lang, text, i + 1); }
      }
      if empty {
        EmptyStep(units, p, text[i]);
        assert text[i..][1..] == text[i + 1..];
        EmptySize();
      }
    }

    lemma EmptySize()
      requires Barren()
      ensures |units| == 256
    {
    }

    lemma Arrived(p: nat, lang: Lang, text: Key, inTrie: bool, empty: bool)
      requires p < |units| && (inTrie || empty)
      requires inTrie ==> Valid() && At(p, AfterAll(lang, text))
      requires empty ==> Barren() && Astray(p, text, |text|)
      ensures !HasLeaf(units[p]) ==> (inTrie ==> Traversed(lang, text) == -1) && (empty ==> EmptyTraversed(text) == -1)
      ensures HasLeaf(units[p]) ==> var q := Xor(p, Offset(units[p]));
        q < |units| && !empty && (inTrie ==> Traversed(lang, text) == Value(units[q]))
    {
      hide Xor, Offset, Label, HasLeaf, Value, Complete, LinksTo, IsPrefix, AfterAll, Traversed;
      if inTrie {
        Finish(p, lang, text);
        OnTrie(lang, text);
      }
      if empty {
        assert text[|text|..] == [];
      }
    }

    lemma OffTrie(lang: Lang, text: Key, i: nat)
      requires i <= |text| && !IsPrefix(lang, text[..i])
      ensures Traversed(lang, text) == -2
    {
      forall k: Key ensures text + k !in lang {
        assert text[..i] + (text[i..] + k) == text + k;
      }
    }

    lemma OnTrie(lang: Lang, text: Key)
      requires IsPrefix(lang, text)
      ensures Traversed(lang, text) == if text in lang then lang[text] else -1
    {
    }

    lemma MissingKey(lang: Lang, text: Key)
      requires text !in lang
      ensures Lookup(lang, text) == -1
    {
    }

    lemma FoundKey(lang: Lang, text: Key)
      requires text in lang
      ensures Lookup(lang, text) == lang[text]
    {
    }

    /** One iteration of a search loop that has consumed `text[..i]`. */
    lemma StepInside(p: nat, lang: Lang, text: Key, i: nat)
      requires Valid() && i < |text| && text[i] < 256 && At(p, AfterAll(lang, text[..i]))
      ensures var q := Xor(p, Xor(Offset(units[p]), text[i]));
        && q < |units|
        && (Label(units[q]) == text[i] ==> At(q, AfterAll(lang, text[..i + 1])))
        && (Label(units[q]) != text[i] ==> !IsPrefix(lang, text) && text !in lang)
    {
      hide Xor, HasLeaf, Offset, Label, HasLabel, After, Complete, LinksTo, IsNode, IsPrefix, AfterAll;
      var here := AfterAll(lang, text[..i]);
      Step(units, plan, p, here, text[i]);
      assert text[..i + 1] == text[..i] + [text[i]];
      AfterOneMore(lang, text[..i], text[i]);
      if text[i] == 0 || !HasLabel(here, text[i]) {
        PrefixStep(lang, text[..i], text[i..], text[i]);
        assert text[..i] + text[i..] == text;
      }
    }

    lemma StepAlong(p: nat, lang: Lang, text: Key, i: nat)
      requires i < |text| && text[i] < 256 && Walking(p, lang, text[..i])
      ensures var q := Xor(p, Xor(Offset(units[p]), text[i]));
        && q < |units|
        && (Label(units[q]) == text[i] ==> Walking(q, lang, text[..i + 1]))
        && (Label(units[q]) != text[i] ==> !IsPrefix(lang, text) && text !in lang)
    {
      hide Xor, HasLeaf, Offset, Label, HasLabel, After, Complete, LinksTo, IsNode, AfterAll;
      if Valid() && At(p, AfterAll(lang, text[..i])) {
        StepInside(p, lang, text, i);
      } else {
        XorBlock(Offset(units[p]), text[i]);
        XorBlock(p, Xor(Offset(units[p]), text[i]));
      }
    }

    /** The end of the text: the leaf bit and the value unit. */
    lemma Finish(p: nat, lang: Lang, text: Key)
      requires Walking(p, lang, text)
      ensures Xor(p, Offset(units[p])) < |units|
      ensures HasLeaf(units[p]) <==> text in lang
      ensures text in lang ==> Value(units[Xor(p, Offset(units[p]))]) == lang[text]
      ensures Valid() && At(p, AfterAll(lang, text)) ==> IsPrefix(lang, text)
    {
      hide Xor, HasLeaf, Offset, Label, HasLabel, After, Complete, IsNode, IsPrefix, AfterAll;
      if Valid() && At(p, AfterAll(lang, text)) {
        Step(units, plan, p, AfterAll(lang, text), 0);
        NodePrefix(lang, text);
        LeafValue(units, plan, p, AfterAll(lang, text));
      } else {
        XorBlock(p, Offset(units[p]));
      }
    }
  }
}
