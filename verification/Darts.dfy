/** The double-array dictionary: building it from sorted keys and asking it.

    Keys are sequences of bytes, the values are 32-bit numbers.  Keys that go through the word graph
    have less than 2^30 bytes together, so that the graph's identifiers fit into its words. */
module Darts {
  import opened Wrappers
  import opened DartsUnit
  import opened Language
  import opened Layout
  import opened DawgStore
  import opened DawgNodes
  import opened DawgTable
  import opened DawgReach
  import opened DartsBuilder
  import opened DartsSearch
  import opened DartsPlace
  import DB = DawgBuilder
  import FD = DartsFromDawg
  import FK = DartsFromKeyset

  datatype Result = Built | NegativeValue | ZeroLength | NulInKey | WrongOrder | TooLarge

  // What a dictionary is.

  ghost predicate Usable(keys: seq<Key>, values: seq<int>) {
    |keys| == |values| && forall i :: 0 <= i < |keys| ==> IsText(keys[i]) && 0 <= values[i] < TOP
  }

  /** Every key with the first value given for it. */
  ghost function Dictionary(keys: seq<Key>, values: seq<int>): Lang
    requires Usable(keys, values)
  {
    imap k: Key | k in keys :: values[First(keys, k)]
  }

  /** The values of keys that come without values: their positions. */
  function Positions(n: nat): (r: seq<int>)
    ensures |r| == n && forall i :: 0 <= i < n ==> r[i] == i
  {
    seq(n, i => i)
  }

  function TotalLength(keys: seq<Key>): nat {
    if keys == [] then 0 else TotalLength(keys[..|keys| - 1]) + |keys[|keys| - 1]| + 1
  }

  /** What `insert` says to the key at `i` when all keys before it were accepted.  A NUL inside a
      key is noticed if the part in front of it starts the key before. */
  function Check(keys: seq<Key>, values: seq<int>, i: nat): Result
    requires i < |keys| == |values|
  {
    if values[i] < 0 then NegativeValue
    else if keys[i] == [] then ZeroLength
    else if i > 0 && !IsText(keys[i]) && Cut(keys[i]) <= keys[i - 1] then NulInKey
    else if i > 0 && Less(keys[i], keys[i - 1]) then WrongOrder
    else Built
  }

  /** The first complaint. */
  function Verdict(keys: seq<Key>, values: seq<int>, n: nat): (r: Result)
    requires n <= |keys| == |values|
    ensures r != TooLarge
  {
    if n == 0 then Built
    else if Verdict(keys, values, n - 1) != Built then Verdict(keys, values, n - 1)
    else Check(keys, values, n - 1)
  }

  /** No key with a NUL inside is accepted. */
  ghost predicate NulsNoticed(keys: seq<Key>, values: seq<int>)
    requires |keys| == |values|
  {
    forall i: nat :: i < |keys| && Verdict(keys, values, i + 1) == Built ==> IsText(keys[i])
  }

  /** Keys are accepted iff they are nonempty texts and sorted and no value is negative. */
  lemma {:induction false} Accepted(keys: seq<Key>, values: seq<int>, n: nat)
    requires n <= |keys| == |values| && NulsNoticed(keys, values)
    ensures Verdict(keys, values, n) == Built
       <==> Sorted(keys[..n]) && forall i :: 0 <= i < n ==> values[i] >= 0 && keys[i] != [] && IsText(keys[i])
  {
    hide Less, IsText;
    if n > 0 {
      Accepted(keys, values, n - 1);
      SortedMore(keys, n - 1);
    }
  }

  /** The key before leads up to a NUL inside this one. */
  ghost predicate LeadsToNul(key: Key, before: Key) {
    exists z: nat :: z < |key| && key[z] == 0 && z <= |before| && key[..z] == before[..z]
  }

  /** Why the key at `i` is not accepted: the value, then the length, then a NUL, then the order. */
  ghost predicate Complains(keys: seq<Key>, values: seq<int>, i: nat, r: Result)
    requires |keys| == |values|
  {
    && i < |keys|
    && (r == NegativeValue <==> values[i] < 0)
    && (r == ZeroLength <==> values[i] >= 0 && |keys[i]| == 0)
    && (r == NulInKey <==> values[i] >= 0 && |keys[i]| > 0 && i > 0 && LeadsToNul(keys[i], keys[i - 1]))
    && (r !in {NegativeValue, ZeroLength, NulInKey} ==> r == WrongOrder && i > 0 && Less(keys[i], keys[i - 1]))
  }

  /** The verdict is the complaint about the first key that is not accepted. */
  lemma {:induction false} FirstComplaint(keys: seq<Key>, values: seq<int>, n: nat) returns (i: nat)
    requires n <= |keys| == |values| && Verdict(keys, values, n) != Built
    requires forall j: nat :: j < n ==> IsBytes(keys[j])
    requires forall j: nat :: j < n && Verdict(keys, values, j + 1) == Built ==> IsText(keys[j])
    ensures i < n && Complains(keys, values, i, Verdict(keys, values, n)) && Verdict(keys, values, i) == Built
  {
    hide Less, IsText, IsBytes, LeadsToNul;
    if Verdict(keys, values, n - 1) != Built {
      i := FirstComplaint(keys, values, n - 1);
    } else {
      i := n - 1;
      if i > 0 { NulIsReached(keys[i], keys[i - 1]); }
    }
  }

  lemma NulIsReached(key: Key, before: Key)
    requires IsBytes(key) && IsText(before)
    ensures LeadsToNul(key, before) <==> !IsText(key) && Cut(key) <= before
  {
    hide Cut;
    CutIsText(key);
    var t := Cut(key);
    if !IsText(key) && t <= before {
      assert |t| < |key| && key[|t|] == 0 && key[..|t|] == before[..|t|];
    }
    if LeadsToNul(key, before) {
      var z: nat :| z < |key| && key[z] == 0 && z <= |before| && key[..z] == before[..z];
      assert forall j :: 0 <= j < z ==> key[j] == key[..z][j] == before[j] != 0;
      assert |t| == z;
    }
  }

  /** A NUL inside a key is overlooked iff the part in front of it comes behind the key before. */
  lemma Overlooked(keys: seq<Key>, values: seq<int>, i: nat)
    requires i < |keys| == |values| && values[i] >= 0 && IsBytes(keys[i]) && !IsText(keys[i])
    requires i > 0 ==> IsText(keys[i - 1])
    ensures Check(keys, values, i) == Built <==> i == 0 || Less(keys[i - 1], Cut(keys[i]))
  {
    if i > 0 {
      var a, b := Cut(keys[i]), keys[i - 1];
      LessOrPrefix(a, b);
      CutIsText(keys[i]);
      CutIsText(b);
      if Less(a, b) { CutOrder(keys[i], b); }
      if Less(b, a) {
        CutOrder(b, keys[i]);
        LessAsymmetric(b, keys[i]);
      }
    }
  }

  /** What becomes of an overlooked NUL, for the key `a`, NUL, `b` with the value 7.  The nodes of the
      key are frozen from the last one on; the node for the NUL is read as the end of the key `a`,
      with the number of the state behind it as the value, and the whole key is lost. */
  lemma OverlookedKey()
    ensures Check([[97, 0, 98]], [7], 0) == Built
    ensures var cells := [Cell(0, 0), Frozen(Node(7, 0, 0, true, false)), Frozen(Node(1, 0, 98, true, false)),
                          Frozen(Node(2, 0, 0, true, false)), Frozen(Node(3, 0, 97, true, false))];
      LookupAt(cells, 4, [97]) == Some(2) && LookupAt(cells, 4, [97, 0, 98]) == None
  {
    var cells := [Cell(0, 0), Frozen(Node(7, 0, 0, true, false)), Frozen(Node(1, 0, 98, true, false)),
                  Frozen(Node(2, 0, 0, true, false)), Frozen(Node(3, 0, 97, true, false))];
    assert Group(cells, 4) == [cells[4]] && Group(cells, 3) == [cells[3]];
    assert Find([cells[4]], 97) == 0 && Find([cells[3]], 0) == 0;
    assert [97][1..] == [] && [97, 0, 98][1..] == [0, 98];
    assert LookupAt(cells, 3, []) == Some(2) && LookupAt(cells, 3, [0, 98]) == None;
  }

  /** Of two keys one comes first, unless they are the same; a prefix comes first. */
  lemma {:induction false} LessOrPrefix(a: Key, b: Key)
    ensures Less(a, b) || Less(b, a) || a == b
    ensures a <= b ==> !Less(b, a)
  {
    if a != [] && b != [] && a[0] == b[0] {
      LessOrPrefix(a[1..], b[1..]);
      assert a == [a[0]] + a[1..] && b == [b[0]] + b[1..];
    }
  }

  /** One more key: only a new one changes the dictionary. */
  lemma DictionaryGrows(keys: seq<Key>, values: seq<int>, i: nat)
    requires Usable(keys, values) && i < |keys|
    ensures Usable(keys[..i], values[..i]) && Usable(keys[..i + 1], values[..i + 1])
    ensures Dictionary(keys[..i + 1], values[..i + 1]) == Added(Dictionary(keys[..i], values[..i]), keys[i], values[i])
  {
    hide First, IsText;
    var now, before := keys[..i + 1], keys[..i];
    forall k: Key | k in before ensures k in now && First(now, k) == First(before, k) {
      FirstKept(keys, i, k);
    }
    forall k: Key | k in now && k !in before ensures k == keys[i] && First(now, k) == i {
      assert forall j :: 0 <= j < i ==> now[j] == before[j];
    }
    assert keys[i] in now by { assert now[i] == keys[i]; }
  }

  lemma FirstKept(keys: seq<Key>, i: nat, k: Key)
    requires i < |keys| && k in keys[..i]
    ensures k in keys[..i + 1] && First(keys[..i + 1], k) == First(keys[..i], k)
  {
    hide First;
    var now, before := keys[..i + 1], keys[..i];
    var f := First(before, k);
    assert now[f] == k;
    assert forall j :: 0 <= j < i ==> now[j] == before[j];
  }

  // Building.

  lemma LengthMore(keys: seq<Key>, i: nat)
    requires i < |keys|
    ensures TotalLength(keys[..i + 1]) == TotalLength(keys[..i]) + |keys[i]| + 1
  {
    assert keys[..i + 1][..i] == keys[..i];
  }

  lemma {:induction false} LengthGrows(keys: seq<Key>, i: nat)
    requires i <= |keys|
    ensures TotalLength(keys[..i]) <= TotalLength(keys)
    decreases |keys| - i
  {
    if i < |keys| {
      LengthMore(keys, i);
      LengthGrows(keys, i + 1);
    } else {
      assert keys[..i] == keys;
    }
  }

  ghost predicate AreKeys(keys: seq<Key>, values: seq<int>) {
    && |keys| == |values|
    && forall i :: 0 <= i < |keys| ==> IsBytes(keys[i]) && -0x8000_0000 <= values[i] < 0x8000_0000
  }

  /** Keys that the word graph can hold, or that are rejected. */
  ghost predicate GraphKeys(keys: seq<Key>, values: seq<int>) {
    AreKeys(keys, values) && TotalLength(keys) + 2 < DB.MAX_UNITS && NulsNoticed(keys, values)
  }

  lemma AcceptedAreUsable(keys: seq<Key>, values: seq<int>, n: nat)
    requires AreKeys(keys, values) && NulsNoticed(keys, values) && n <= |keys| && Verdict(keys, values, n) == Built
    ensures Usable(keys[..n], values[..n])
  {
    hide IsText;
    Accepted(keys, values, n);
  }

  /** `build_dawg` */
  method BuildDawg(keys: seq<Key>, values: seq<int>) returns (dawg: DB.DawgBuilder, result: Result)
    requires GraphKeys(keys, values)
    ensures result == Verdict(keys, values, |keys|)
    ensures result == Built ==> Usable(keys, values) && dawg.Finished() && Distinct(dawg.cells)
    ensures result == Built && keys == [] ==> dawg.cells[0].Child() == 0 && Stateless(dawg.cells)
    ensures result == Built && keys != [] ==> var root := dawg.cells[0].Child();
      IsStart(dawg.cells, root) && LangAt(dawg.cells, root) == Dictionary(keys, values) && UsedBelow(dawg.cells, root)
    ensures fresh(dawg) && fresh(dawg.isIntersections)
  {
    hide Usable, Dictionary, Verdict, Added, TotalLength, StoreOk, Distinct, IsStart, LangAt, Less, IsText, IsBytes,
      Cut, UsedBelow, Stateless, NulsNoticed, DB.DawgBuilder.Building;
    dawg := new DB.DawgBuilder();
    dawg.Init();
    NoKeys(keys, values);
    var i := 0;
    while i < |keys|
      invariant 0 <= i <= |keys| && fresh(dawg) && fresh(dawg.isIntersections)
      invariant dawg.Building() && Verdict(keys, values, i) == Built && Usable(keys[..i], values[..i])
      invariant dawg.lang == Dictionary(keys[..i], values[..i]) && dawg.spent == TotalLength(keys[..i])
      invariant if i == 0 then dawg.last == [] else dawg.last == keys[i - 1] != []
    {
      LengthMore(keys, i);
      LengthGrows(keys, i + 1);
      VerdictNext(keys, values, i);
      IsNoticed(keys, values, i);
      var inserted := dawg.Insert(keys[i], values[i]);
      if inserted != DB.Done {
        result := if inserted == DB.NegativeValue then NegativeValue
                  else if inserted == DB.ZeroLength then ZeroLength
                  else if inserted == DB.NulInKey then NulInKey else WrongOrder;
        VerdictStays(keys, values, i + 1, |keys|);
        return;
      }
      AcceptedAreUsable(keys, values, i + 1);
      OneMoreKey(keys, values, i);
      i := i + 1;
    }
    assert keys[..i] == keys && values[..i] == values;
    dawg.Finish();
    result := Built;
  }

  lemma NoKeys(keys: seq<Key>, values: seq<int>)
    requires |keys| == |values|
    ensures Usable(keys[..0], values[..0]) && Dictionary(keys[..0], values[..0]) == imap[]
    ensures Verdict(keys, values, 0) == Built && TotalLength(keys[..0]) == 0
  {
  }

  lemma VerdictNext(keys: seq<Key>, values: seq<int>, i: nat)
    requires i < |keys| == |values| && Verdict(keys, values, i) == Built
    ensures Verdict(keys, values, i + 1) == Check(keys, values, i)
  {
  }

  lemma IsNoticed(keys: seq<Key>, values: seq<int>, i: nat)
    requires GraphKeys(keys, values) && i < |keys| && Verdict(keys, values, i) == Built
      && Usable(keys[..i], values[..i])
    ensures values[i] < 0 || IsText(keys[i]) || (i > 0 && !Less(keys[i - 1], Cut(keys[i])))
  {
    hide IsText, IsBytes, Cut, Less, Verdict, Check, TotalLength;
    VerdictNext(keys, values, i);
    if i > 0 { assert IsText(keys[..i][i - 1]); }
    if values[i] >= 0 && !IsText(keys[i]) { Overlooked(keys, values, i); }
  }

  lemma {:induction false} VerdictStays(keys: seq<Key>, values: seq<int>, i: nat, n: nat)
    requires i <= n <= |keys| == |values| && Verdict(keys, values, i) != Built
    ensures Verdict(keys, values, n) == Verdict(keys, values, i)
  {
    if i < n { VerdictStays(keys, values, i, n - 1); }
  }

  lemma OneMoreKey(keys: seq<Key>, values: seq<int>, i: nat)
    requires AreKeys(keys, values) && i < |keys| && Usable(keys[..i], values[..i])
      && Usable(keys[..i + 1], values[..i + 1])
    ensures values[i] >= 0
    ensures Dictionary(keys[..i + 1], values[..i + 1]) == Added(Dictionary(keys[..i], values[..i]), keys[i], values[i])
  {
    hide IsText, Dictionary, Added;
    var ks, vs := keys[..i + 1], values[..i + 1];
    assert vs[i] == values[i] && ks[..i] == keys[..i] && vs[..i] == values[..i];
    DictionaryGrows(ks, vs, i);
    assert ks[..i + 1] == ks && vs[..i + 1] == vs;
  }

  lemma SameRoot(p: Plan, q: Plan)
    requires Extends(p, q)
    ensures q.root == p.root
  {
  }

  lemma {:induction false} LengthBound(keys: seq<Key>, i: nat)
    requires i < |keys|
    ensures |keys[i]| <= TotalLength(keys)
  {
    if i < |keys| - 1 { LengthBound(keys[..|keys| - 1], i); }
  }

  /** All keys from their first byte on. */
  lemma WholeRange(keys: seq<Key>)
    requires FK.AreTexts(keys)
    ensures FK.AtLeast(keys, 0, |keys|, 0) && Usable(keys, Positions(|keys|))
    ensures FK.RangeLang(keys, 0, |keys|, 0) == Dictionary(keys, Positions(|keys|))
    ensures FK.Ordered(keys, 0, |keys|, 0) <==> Sorted(keys)
  {
    hide First, FK.FirstWith, IsText, Less;
    var n := |keys|;
    assert forall i :: 0 <= i < n ==> keys[i][0..] == keys[i];
    forall k: Key ensures FK.FirstWith(keys, 0, n, 0, k) == if k in keys then First(keys, k) else n {
    }
  }

  function CutAll(keys: seq<Key>): (r: seq<Key>)
    ensures |r| == |keys| && forall i :: 0 <= i < |keys| ==> r[i] == Cut(keys[i])
  {
    seq(|keys|, i requires 0 <= i < |keys| => Cut(keys[i]))
  }

  /** The keys up to their NULs: they are texts, the same ones iff no key has a NUL, and in order if
      the keys are. */
  lemma CutKeys(keys: seq<Key>)
    requires |keys| <= TOP && forall i :: 0 <= i < |keys| ==> IsBytes(keys[i])
    ensures FK.Cuts(keys, CutAll(keys)) && FK.AreTexts(CutAll(keys))
    ensures FK.NoNul(keys, CutAll(keys), 0, |keys|) <==> AllText(keys)
    ensures AllText(keys) ==> CutAll(keys) == keys
    ensures Sorted(keys) ==> Sorted(CutAll(keys))
  {
    hide IsText, Less, IsBytes, Cut;
    forall i | 0 <= i < |keys| ensures IsText(CutAll(keys)[i]) && (IsText(keys[i]) <==> Cut(keys[i]) == keys[i]) {
      CutIsText(keys[i]);
    }
    if Sorted(keys) {
      forall i, j | 0 <= i < j < |keys| ensures !Less(CutAll(keys)[j], CutAll(keys)[i]) {
        if Less(CutAll(keys)[j], CutAll(keys)[i]) { CutOrder(keys[j], keys[i]); }
      }
    }
  }

  ghost predicate AllText(keys: seq<Key>) {
    forall i :: 0 <= i < |keys| ==> IsText(keys[i])
  }

  /** `build_from_keyset`: it succeeds only for sorted keys without NUL. */
  method BuildFromKeyset(b: DoubleArrayBuilder, keyset: seq<Key>) returns (result: Result)
    requires |keyset| <= TOP && forall i :: 0 <= i < |keyset| ==> IsBytes(keyset[i])
    modifies b
    ensures result == Built ==> AllText(keyset) && Sorted(keyset) && Usable(keyset, Positions(|keyset|))
    ensures result == Built ==> Answers(b.units, b.plan, Dictionary(keyset, Positions(|keyset|)))
    ensures result == NulInKey ==> !AllText(keyset)
    ensures result == WrongOrder ==> !Sorted(keyset)
    ensures result == TooLarge ==> |b.units| + 256 > MAX_OFFSET
    ensures result in {Built, NulInKey, WrongOrder, TooLarge}
  {
    hide Answers, Ready, Waits, FK.RangeLang, Extends, IsText, IsBytes, IsNode, FK.Cuts, FK.NoNul, Usable, Dictionary,
      Sorted, AllText;
    ghost var keys := CutAll(keyset);
    CutKeys(keyset);
    if |keyset| == 0 {
      NoKeyAtAll();
      BuildEmpty(b);
      return Built;
    }
    FK.RangeIsNode(keys, 0, |keys|, 0);
    WholeRange(keys);
    forall i | 0 <= i < |keys| ensures |keys[i]| <= TotalLength(keys) {
      LengthBound(keys, i);
    }
    StartBuild(b, FK.RangeLang(keys, 0, |keys|, 0));
    ghost var plan0 := b.plan;
    var outcome := FK.BuildRange(b, keyset, keys, 0, |keyset|, 0, 0, TotalLength(keys));
    match outcome {
      case Built =>
        SameRoot(plan0, b.plan);
        FinishBuild(b);
        return Built;
      case NulInKey => return NulInKey;
      case WrongOrder => return WrongOrder;
      case TooLarge => return TooLarge;
    }
  }

  lemma NoKeyAtAll()
    ensures Usable([], Positions(0)) && Dictionary([], Positions(0)) == imap[] && Sorted([]) && AllText([])
  {
  }

  /** `build`: through the word graph if there are values, and straight from the keys otherwise. */
  method Build(keys: seq<Key>, values: seq<int>, hasValues: bool) returns (trie: DoubleArray, result: Result)
    requires AreKeys(keys, values) && |keys| <= TOP && (hasValues ==> GraphKeys(keys, values))
    requires !hasValues ==> values == Positions(|keys|)
    ensures fresh(trie)
    ensures result == Built ==> Usable(keys, values) && trie.Walking(0, Dictionary(keys, values), [])
    ensures result == TooLarge ==> |trie.units| + 256 > MAX_OFFSET
    ensures hasValues && result != TooLarge ==> result == Verdict(keys, values, |keys|)
    ensures hasValues && result == TooLarge ==> Verdict(keys, values, |keys|) == Built
    ensures hasValues && result !in {Built, TooLarge} ==>
      exists i: nat :: Complains(keys, values, i, result) && Verdict(keys, values, i) == Built
    ensures !hasValues && result != TooLarge ==> (result == Built <==> Sorted(keys) && AllText(keys))
    ensures !hasValues ==> (result == WrongOrder ==> !Sorted(keys)) && (result == NulInKey ==> !AllText(keys))
    ensures !hasValues ==> result in {Built, NulInKey, WrongOrder, TooLarge}
  {
    hide Answers, Usable, Dictionary, Verdict, Sorted, AllText, StoreOk, Distinct, IsStart, LangAt, Positions, IsBytes,
      TotalLength, Complains;
    var b := new DoubleArrayBuilder();
    if hasValues {
      var dawg;
      dawg, result := BuildDawg(keys, values);
      if result == Built {
        EmptyOrNot(keys, values);
        GraphRoot(dawg);
        var ok := FD.BuildFromDawg(b, dawg, Dictionary(keys, values));
        result := if ok then Built else TooLarge;
      } else {
        ghost var i := FirstComplaint(keys, values, |keys|);
      }
    } else {
      result := BuildFromKeyset(b, keys);
    }
    trie := new DoubleArray(b.units, b.plan);
    if result == Built {
      AnswersWalk(trie, Dictionary(keys, values));
    }
  }

  lemma EmptyOrNot(keys: seq<Key>, values: seq<int>)
    requires Usable(keys, values)
    ensures keys == [] <==> Dictionary(keys, values) == imap[]
  {
    hide First, IsText;
    if keys != [] { assert keys[0] in Dictionary(keys, values); }
  }

  lemma GraphRoot(dawg: DB.DawgBuilder)
    requires dawg.Finished()
    ensures |dawg.cells| > 0 && !IsStart(dawg.cells, 0)
  {
  }

  lemma AnswersWalk(trie: DoubleArray, lang: Lang)
    requires Answers(trie.units, trie.plan, lang)
    ensures trie.Walking(0, lang, [])
  {
    hide Complete, LinksTo, EmptyUnits;
    AfterNone(lang);
    if EmptyUnits(trie.units) { EmptySize(trie.units); }
  }

  lemma EmptySize(units: seq<Word>)
    requires EmptyUnits(units)
    ensures |units| == 256
  {
  }

  /** The first value given for `text`, or -1. */
  ghost predicate IsAnswer(keys: seq<Key>, values: seq<int>, text: Key, value: int)
    requires |keys| == |values|
  {
    if text in keys
    then exists i: nat ::
      i < |keys| && keys[i] == text && (forall j :: 0 <= j < i ==> keys[j] != text)
      && value == values[i]
    else value == -1
  }

  lemma FirstIsAnswer(keys: seq<Key>, values: seq<int>, text: Key)
    requires |keys| == |values|
    ensures IsAnswer(keys, values, text, if text in keys then values[First(keys, text)] else -1)
  {
    if text in keys {
      var i := First(keys, text);
      assert keys[i] == text;
    }
  }

  /** Building and asking: the answer to the text that the buffer queries. */
  method BuildAndFind(keys: seq<Key>, values: seq<int>, hasValues: bool, query: seq<nat>, length: nat)
    returns (result: Result, value: int)
    requires AreKeys(keys, values) && |keys| <= TOP && IsBuffer(query, length)
      && (hasValues ==> GraphKeys(keys, values))
    requires !hasValues ==> values == Positions(|keys|)
    ensures result == Built ==> forall t: Key :: Queries(query, length, t) ==> IsAnswer(keys, values, t, value)
  {
    hide AreKeys, GraphKeys, Positions, TextOf, Complete, LinksTo, EmptyUnits, First, Verdict, Sorted, IsAnswer,
      Queries;
    var trie;
    trie, result := Build(keys, values, hasValues);
    value := -1;
    if result == Built {
      ghost var matched;
      value, matched := trie.ExactMatchSearch(query, length, 0, Dictionary(keys, values));
      FirstIsAnswer(keys, values, TextOf(query, length));
      forall t: Key | Queries(query, length, t) ensures t == TextOf(query, length) {
        QueriedText(query, length, t);
      }
    }
  }

  /** Asking for a text by the text and a NUL behind it, without a length. */
  method BuildAndFindText(keys: seq<Key>, values: seq<int>, hasValues: bool, text: Key)
    returns (result: Result, value: int)
    requires AreKeys(keys, values) && |keys| <= TOP && IsText(text) && (hasValues ==> GraphKeys(keys, values))
    requires !hasValues ==> values == Positions(|keys|)
    ensures result == Built ==> IsAnswer(keys, values, text, value)
  {
    hide AreKeys, GraphKeys, Positions, Complete, IsAnswer;
    result, value := BuildAndFind(keys, values, hasValues, text + [0], 0);
    assert Queries(text + [0], 0, text);
  }

  /** Some key starts with `text`. */
  ghost predicate Starts(keys: seq<Key>, text: Key) {
    exists i :: 0 <= i < |keys| && text <= keys[i]
  }

  lemma DictionaryPrefix(keys: seq<Key>, values: seq<int>, text: Key)
    requires Usable(keys, values)
    ensures IsPrefix(Dictionary(keys, values), text) <==> Starts(keys, text)
  {
    hide First, IsText;
    var lang := Dictionary(keys, values);
    if IsPrefix(lang, text) {
      var k: Key :| text + k in lang;
      var i :| 0 <= i < |keys| && keys[i] == text + k;
      assert text <= keys[i];
    }
    if Starts(keys, text) {
      var i :| 0 <= i < |keys| && text <= keys[i];
      assert text + keys[i][|text|..] == keys[i];
      assert text + keys[i][|text|..] in lang;
    }
  }

  lemma DictionaryAnswers(keys: seq<Key>, values: seq<int>, text: Key)
    requires Usable(keys, values)
    ensures text in Dictionary(keys, values) <==> text in keys
    ensures IsAnswer(keys, values, text, Lookup(Dictionary(keys, values), text))
  {
    hide First, IsText;
    FirstIsAnswer(keys, values, text);
  }

  /** The root stands in a trie iff there are keys. */
  lemma RootOf(trie: DoubleArray, keys: seq<Key>, values: seq<int>)
    requires Usable(keys, values) && trie.Walking(0, Dictionary(keys, values), [])
    ensures if keys == [] then trie.Barren() && Dictionary(keys, values) == imap[]
            else trie.Valid() && trie.At(0, Dictionary(keys, values))
  {
    hide Usable, Dictionary, Complete, EmptyUnits, LinksTo, IsNode, AfterAll;
    var lang := Dictionary(keys, values);
    AfterNone(lang);
    EmptyOrNot(keys, values);
    EmptyIsNoNode();
    if keys == [] && trie.Valid() && trie.At(0, lang) {
      LinkedNode(trie.units, trie.plan, 0, lang);
    }
  }

  lemma EmptyIsNoNode()
    ensures !IsNode(imap[])
  {
  }

  /** Building and traversing from the root: the first value of the text, -1 if it only starts a key,
      and -2 otherwise; without keys the almost empty texts are taken for the start of one. */
  method BuildAndTraverse(keys: seq<Key>, values: seq<int>, hasValues: bool, query: seq<nat>, length: nat)
    returns (result: Result, value: int)
    requires AreKeys(keys, values) && |keys| <= TOP && IsBuffer(query, length)
      && (hasValues ==> GraphKeys(keys, values))
    requires !hasValues ==> values == Positions(|keys|)
    ensures result == Built ==> forall t: Key :: Queries(query, length, t) ==>
      if keys == [] then value == if AlmostEmpty(t) then -1 else -2
      else if !Starts(keys, t) then value == -2
      else IsAnswer(keys, values, t, value)
  {
    hide GraphKeys, Positions, TextOf, Complete, LinksTo, EmptyUnits, First, Verdict, Sorted, IsAnswer, Queries, Starts,
      Usable, Dictionary, IsPrefix, AlmostEmpty, EmptyTraversed, Lookup;
    var trie;
    trie, result := Build(keys, values, hasValues);
    value := -1;
    if result == Built {
      ghost var lang, text := Dictionary(keys, values), TextOf(query, length);
      var nodePos, keyPos;
      RootOf(trie, keys, values);
      value, nodePos, keyPos := trie.Traverse(query, 0, 0, length, lang);
      assert text[0..] == text;
      DictionaryPrefix(keys, values, text);
      DictionaryAnswers(keys, values, text);
      EmptyDictionaryTraversal(text);
      forall t: Key | Queries(query, length, t) ensures t == text {
        QueriedText(query, length, t);
      }
    }
  }

  /** The keys that are nonempty prefixes of the text, shortest first, with their first values. */
  ghost predicate ArePrefixes(keys: seq<Key>, values: seq<int>, text: Key, r: seq<Match>)
    requires |keys| == |values|
  {
    && (forall m: Match :: m in r <==>
         0 < m.length <= |text| && text[..m.length] in keys && IsAnswer(keys, values, text[..m.length], m.value))
    && (forall i, j :: 0 <= i < j < |r| ==> r[i].length < r[j].length)
  }

  lemma PrefixesAre(keys: seq<Key>, values: seq<int>, text: Key)
    requires |keys| == |values| && Usable(keys, values)
    ensures ArePrefixes(keys, values, text, PrefixMatches(Dictionary(keys, values), text, |text|))
  {
    hide Usable, Dictionary, PrefixMatches, IsAnswer;
    var lang := Dictionary(keys, values);
    MatchesAreThePrefixes(lang, text, |text|);
    forall m: Match
      ensures IsMatch(lang, text, m) <==>
        0 < m.length <= |text| && text[..m.length] in keys && IsAnswer(keys, values, text[..m.length], m.value)
    {
      if 0 < m.length <= |text| {
        DictionaryAnswers(keys, values, text[..m.length]);
        OneAnswer(keys, values, text[..m.length], m.value, Lookup(lang, text[..m.length]));
      }
    }
  }

  lemma OneAnswer(keys: seq<Key>, values: seq<int>, text: Key, v: int, w: int)
    requires |keys| == |values| && IsAnswer(keys, values, text, w)
    ensures IsAnswer(keys, values, text, v) <==> v == w
  {
    if IsAnswer(keys, values, text, v) && text in keys {
      var i: nat :| i < |keys| && keys[i] == text && (forall k :: 0 <= k < i ==> keys[k] != text) && v == values[i];
      var j: nat :| j < |keys| && keys[j] == text && (forall k :: 0 <= k < j ==> keys[k] != text) && w == values[j];
    }
  }

  /** Building and searching for prefixes: all are counted, and the first `max` are stored. */
  method BuildAndFindPrefixes(keys: seq<Key>, values: seq<int>, hasValues: bool, query: seq<nat>, length: nat,
                              results: array<Match>, max: nat)
    returns (result: Result, count: nat, ghost found: seq<Match>)
    requires AreKeys(keys, values) && |keys| <= TOP && IsBuffer(query, length)
      && (hasValues ==> GraphKeys(keys, values))
    requires !hasValues ==> values == Positions(|keys|)
    requires max <= results.Length
    modifies results
    ensures result == Built ==>
      && (forall t: Key :: Queries(query, length, t) ==> ArePrefixes(keys, values, t, found))
      && count == |found| && (forall j :: 0 <= j < count && j < max ==> results[j] == found[j])
      && (forall j :: (count <= j || max <= j) && j < results.Length ==> results[j] == old(results[j]))
  {
    hide GraphKeys, Positions, TextOf, Complete, LinksTo, EmptyUnits, First, Verdict, Sorted, IsAnswer, Queries,
      Usable, Dictionary, PrefixMatches, ArePrefixes;
    var trie;
    trie, result := Build(keys, values, hasValues);
    count, found := 0, [];
    if result == Built {
      ghost var lang, text := Dictionary(keys, values), TextOf(query, length);
      found := PrefixMatches(lang, text, |text|);
      count := trie.CommonPrefixSearch(query, results, max, length, 0, lang);
      PrefixesAre(keys, values, text);
      forall t: Key | Queries(query, length, t) ensures t == text {
        QueriedText(query, length, t);
      }
    }
  }
}
