/** The searches over the array with its tail. */
module CloneSearch {
  import opened Bits
  import opened Language
  import opened CloneUnit
  import opened CloneSlots
  import opened CloneTrie
  import opened CloneTail
  import opened CloneArray

  // Queries.

  /** A buffer that can be searched from `start`: with a length, or ending in NUL if it is 0. */
  ghost predicate IsQuery(key: seq<nat>, length: nat, start: nat) {
    && (forall i :: 0 <= i < |key| ==> key[i] < 256)
    && length <= |key| && start <= |key| && (if length == 0 then 0 in key[start..] else start <= length)
  }

  /** From `start` on the buffer asks for the text `t`: up to the first NUL, or to the length if one
      is given and no NUL comes before. */
  ghost predicate Asks(key: seq<nat>, length: nat, start: nat, t: Key) {
    && start + |t| <= |key| && t == key[start..start + |t|]
    && (forall i :: start <= i < start + |t| ==> key[i] != 0)
    && (length != 0 ==> start + |t| <= length <= |key|)
    && (start + |t| == length != 0 || (start + |t| < |key| && key[start + |t|] == 0))
  }

  /** There is one such text. */
  lemma AskedText(key: seq<nat>, length: nat, start: nat)
    requires IsQuery(key, length, start)
    ensures forall t: Key :: Asks(key, length, start, t) ==> t == QueryText(key, length, start)
  {
    hide QueryText, IsQuery;
    var u := QueryText(key, length, start);
    forall t: Key | Asks(key, length, start, t) ensures t == u {
      assert start + |t| < |key| && start + |t| != length ==> key[start + |t|] == 0;
      assert start + |u| < |key| && start + |u| != length ==> key[start + |u|] == 0;
    }
  }

  /** The text that a search from `start` sees: a NUL ends it even if the length goes further. */
  ghost function QueryText(key: seq<nat>, length: nat, start: nat): (t: Key)
    requires IsQuery(key, length, start)
    ensures Asks(key, length, start, t)
  {
    var w := if length == 0 then key[start..] else key[start..length];
    CutInside(key, start, w);
    Cut(w)
  }

  lemma CutInside(key: seq<nat>, start: nat, w: seq<nat>)
    requires start + |w| <= |key| && w == key[start..start + |w|]
    ensures var t := Cut(w);
      && t == key[start..start + |t|] && (forall i :: start <= i < start + |t| ==> key[i] != 0)
      && (|t| < |w| ==> key[start + |t|] == 0) && (0 in w ==> |t| < |w|)
  {
    hide Cut;
    var t := Cut(w);
    forall i | start <= i < start + |t| ensures key[i] == w[i - start] == t[i - start] != 0 {
    }
  }

  /** The byte a query stands on. */
  function QueryByte(key: seq<nat>, length: nat, i: nat): nat
    requires i < |key| || (length != 0 && i == length)
  {
    if length != 0 && i == length then 0 else key[i]
  }

  lemma QueryBytes(key: seq<nat>, length: nat, start: nat, i: nat)
    requires IsQuery(key, length, start) && i <= |QueryText(key, length, start)|
    ensures start + i < |key| || (length != 0 && start + i == length)
    ensures QueryByte(key, length, start + i) == ByteAt(QueryText(key, length, start), i)
    ensures IsText(QueryText(key, length, start))
  {
    hide Cut, IsText;
    var w := if length == 0 then key[start..] else key[start..length];
    CutIsText(w);
    assert forall j :: 0 <= j < |w| ==> w[j] == key[start + j];
  }

  // The dictionary.

  function ValueOf(keys: seq<Key>, values: seq<int>, k: Key): int
    requires k in keys && |values| == |keys|
  {
    values[First(keys, k)]
  }

  lemma OnlyIndex(keys: seq<Key>, values: seq<int>, i: nat)
    requires AreKeys(keys) && i < |keys| == |values|
    ensures keys[i] in keys && First(keys, keys[i]) == i && ValueOf(keys, values, keys[i]) == values[i]
  {
    var j := First(keys, keys[i]);
    if j != i {
      assert Less(keys[if i < j then i else j], keys[if i < j then j else i]);
      LessIrreflexive(keys[i]);
    }
  }

  /** Key `k` starts with `p` and goes on with `c`. */
  ghost predicate Goes(keys: seq<Key>, k: nat, p: Key, c: nat) {
    k < |keys| && p <= keys[k] && ByteAt(keys[k], |p|) == c
  }

  /** The search has consumed `p` and stands on the slot of an inner node. */
  ghost predicate AtNode(units: seq<Word>, keys: seq<Key>, sch: Scheme, x: nat, p: Key) {
    && x in sch.child && x in sch.owner && x != 1 && !sch.IsLeafSlot(x) && x < |units|
    && SpanOk(keys, sch.child[x]) && |p| == sch.child[x].depth && p <= keys[sch.child[x].begin]
  }

  /** Of the keys that start with `p` and go on with `c`, the leaf `u` knows the only one. */
  ghost predicate LeafHere(u: Word, tail: seq<nat>, ids: nat, keys: seq<Key>, values: seq<int>, p: Key, c: nat, i: nat,
                           rest: Key) {
    && i < |keys| == |values| && IsText(rest) && LinksRest(u, tail, ids, rest, values[i])
    && (ByteAt(rest, 0) == c ==> Goes(keys, i, p, c) && rest == keys[i][|p|..])
    && forall k: nat :: Goes(keys, k, p, c) ==> k == i && ByteAt(rest, 0) == c
  }

  lemma RootNode(units: seq<Word>, tail: seq<nat>, ids: nat, keys: seq<Key>, values: seq<int>, sch: Scheme)
    requires Whole(units, tail, ids, keys, values, sch)
    ensures AtNode(units, keys, sch, 0, [])
  {
    hide NodeOk, UnitOk, LeafStored, AreKeys, Filler, Offset;
    OneUnit(units, keys, sch, 1);
    assert SlotOwned(keys, sch, 0);
    RootSpan(keys);
  }

  /** The keys of a node are those that start with its bytes. */
  lemma NodeKeys(units: seq<Word>, keys: seq<Key>, sch: Scheme, x: nat, p: Key, c: nat, k: nat)
    requires AtNode(units, keys, sch, x, p)
    ensures var s := sch.child[x];
      Goes(keys, k, p, c) <==> s.begin <= k < s.end && s.depth <= |keys[k]| && ByteAt(keys[k], s.depth) == c
  {
    var s := sch.child[x];
    assert p == keys[s.begin][..s.depth];
    if k < |keys| {
      assert p <= keys[k] <==> Agree(keys[s.begin], keys[k], s.depth);
    }
  }

  /** One step of a search. */
  ghost predicate Stepped(units: seq<Word>, tail: seq<nat>, ids: nat, keys: seq<Key>, values: seq<int>, sch: Scheme,
                          p: Key, c: nat, q: nat) {
    && q < |units|
    && (IsLeaf(units[q]) ==> exists i: nat, rest: Key :: LeafHere(units[q], tail, ids, keys, values, p, c, i, rest))
    && (!IsLeaf(units[q]) && Label(units[q]) == c ==> c != 0 && AtNode(units, keys, sch, q, p + [c]))
    && (!IsLeaf(units[q]) && Label(units[q]) != c ==> forall k: nat :: !Goes(keys, k, p, c))
  }

  lemma Step(units: seq<Word>, tail: seq<nat>, ids: nat, keys: seq<Key>, values: seq<int>, sch: Scheme, x: nat, p: Key,
             c: nat)
    requires Whole(units, tail, ids, keys, values, sch) && AtNode(units, keys, sch, x, p) && c < 256
    ensures var b := Xor(x, Offset(units[x]));
      Xor(x, Xor(Offset(units[x]), c)) == Xor(b, c) && Stepped(units, tail, ids, keys, values, sch, p, c, Xor(b, c))
  {
    hide Whole, AtNode, Xor, Label, IsLeaf, Offset, Goes;
    NodeSlot(units, tail, ids, keys, values, sch, x, p);
    XorAssoc(x, Offset(units[x]), c);
    var b := Xor(x, Offset(units[x]));
    var q := Xor(b, c);
    SameBlock(b, c);
    BuiltSize(units, tail, ids, keys, values, sch);
    if q in sch.owner && sch.owner[q] == b {
      OwnEdge(units, tail, ids, keys, values, sch, x, p, c);
    } else {
      NoEdge(units, tail, ids, keys, values, sch, x, p, c);
      if q in sch.owner {
        ForeignEdge(units, tail, ids, keys, values, sch, b, p, c);
      } else {
        FillerEdge(units, tail, ids, keys, values, sch, b, c);
      }
    }
  }

  lemma BuiltSize(units: seq<Word>, tail: seq<nat>, ids: nat, keys: seq<Key>, values: seq<int>, sch: Scheme)
    requires Whole(units, tail, ids, keys, values, sch)
    ensures |units| % 256 == 0 && 1 < |units| < 0x2000_0000 && AreKeys(keys) && |values| == |keys|
  {
    hide UnitOk, NodeOk, SlotOwned, AreKeys, Filler, Offset, LeafStored;
    OneUnit(units, keys, sch, 1);
    OffsetBound(units[1]);
  }

  /** An inner node's unit leads to its base. */
  lemma NodeSlot(units: seq<Word>, tail: seq<nat>, ids: nat, keys: seq<Key>, values: seq<int>, sch: Scheme, x: nat,
                 p: Key)
    requires Whole(units, tail, ids, keys, values, sch) && AtNode(units, keys, sch, x, p)
    ensures x < |units| && x in sch.child
    ensures var b := Xor(x, Offset(units[x]));
      b in sch.node && sch.node[b] == sch.child[x] && NodeOk(keys, sch, b) && b < |units|
    ensures !IsLeaf(units[x]) && (IsEnd(units[x]) <==> Occurs(keys, sch.child[x], 0))
  {
    hide AreKeys, Filler, Offset, LeafStored, SpanOk, Xor, IsLeaf, IsEnd, Label, Occurs, SlotOwned;
    assert UnitOk(units, keys, sch, x);
    var b := Xor(x, Offset(units[x]));
    assert NodeOk(keys, sch, b);
    BaseBelow(units, tail, ids, keys, values, sch, b);
  }

  /** A base owns a slot of its block, and so lies in the array. */
  lemma BaseBelow(units: seq<Word>, tail: seq<nat>, ids: nat, keys: seq<Key>, values: seq<int>, sch: Scheme, b: nat)
    requires Whole(units, tail, ids, keys, values, sch) && b in sch.node
    ensures b < |units| && b != 0
  {
    hide Filler, Offset, LeafStored, Xor, IsLeaf, UnitOk, SlotOwned;
    assert NodeOk(keys, sch, b);
    var s := sch.node[b];
    ByteBound(keys, s, s.begin);
    var c := ByteAt(keys[s.begin], s.depth);
    assert Occurs(keys, s, c);
    SameBlock(b, c);
    assert Xor(b, c) < |units|;
  }

  /** A slot below a base is neither the root nor the slot of the size. */
  lemma BelowBase(units: seq<Word>, tail: seq<nat>, ids: nat, keys: seq<Key>, values: seq<int>, sch: Scheme, q: nat)
    requires Whole(units, tail, ids, keys, values, sch) && q in sch.owner
    ensures q < |units| && UnitOk(units, keys, sch, q) && SlotOwned(keys, sch, q)
    ensures q in sch.child <==> q != 1
    ensures sch.waiting == {} && AreKeys(keys) && |values| == |keys|
    ensures sch.IsLeafSlot(q) ==> LeafStored(units, tail, ids, keys, values, sch, q)
  {
    hide Filler, Offset, LeafStored, Xor, IsLeaf, UnitOk, SlotOwned, NodeOk, AreKeys;
    TrieParts(units, keys, sch, q);
    ChildKeys(units, keys, sch);
  }

  /** The slot belongs to the node: it leads on, or it is the leaf of the only key. */
  lemma OwnEdge(units: seq<Word>, tail: seq<nat>, ids: nat, keys: seq<Key>, values: seq<int>, sch: Scheme, x: nat,
                p: Key, c: nat)
    requires Whole(units, tail, ids, keys, values, sch) && AtNode(units, keys, sch, x, p) && c < 256
    requires var b := Xor(x, Offset(units[x])); Xor(b, c) in sch.owner && sch.owner[Xor(b, c)] == b
    ensures Stepped(units, tail, ids, keys, values, sch, p, c, Xor(Xor(x, Offset(units[x])), c))
  {
    hide Whole, AtNode, Xor, Label, IsLeaf, Offset, Goes, LeafHere, AreKeys, SpanOk, LeafStored, IsEnd, Occurs;
    NodeSlot(units, tail, ids, keys, values, sch, x, p);
    var b := Xor(x, Offset(units[x]));
    var q := Xor(b, c);
    XorCancel(b, c);
    BaseBelow(units, tail, ids, keys, values, sch, b);
    BelowBase(units, tail, ids, keys, values, sch, q);
    assert IsChild(keys, sch.node[b], c, sch.child[q]);
    if sch.IsLeafSlot(q) {
      OwnLeaf(units, tail, ids, keys, values, sch, x, p, c, q);
      assert IsLeaf(units[q]);
      var i := sch.child[q].begin;
      var rest := keys[i][|p|..];
      assert LeafHere(units[q], tail, ids, keys, values, p, c, i, rest);
      assert Stepped(units, tail, ids, keys, values, sch, p, c, q);
    } else {
      OwnNode(units, tail, ids, keys, values, sch, x, p, c, q);
    }
  }

  lemma OwnLeaf(units: seq<Word>, tail: seq<nat>, ids: nat, keys: seq<Key>, values: seq<int>, sch: Scheme, x: nat,
                p: Key, c: nat, q: nat)
    requires AtNode(units, keys, sch, x, p) && AreKeys(keys) && x in sch.child && q in sch.child
    requires IsChild(keys, sch.child[x], c, sch.child[q])
    requires sch.IsLeafSlot(q) && LeafStored(units, tail, ids, keys, values, sch, q)
    ensures q < |units| && var i := sch.child[q].begin;
      i < |keys| && |p| <= |keys[i]| && LeafHere(units[q], tail, ids, keys, values, p, c, i, keys[i][|p|..])
  {
    hide AtNode, LinksRest, AreKeys, SpanOk;
    var i := sch.child[q].begin;
    NodeDepth(units, keys, sch, x, p);
    NodeKeys(units, keys, sch, x, p, c, i);
    InSpan(keys, sch.child[x], i);
    RestIsText(keys, i, |p|);
    forall k: nat | Goes(keys, k, p, c) ensures k == i {
      NodeKeys(units, keys, sch, x, p, c, k);
    }
  }

  lemma NodeDepth(units: seq<Word>, keys: seq<Key>, sch: Scheme, x: nat, p: Key)
    requires AtNode(units, keys, sch, x, p)
    ensures x in sch.child && |p| == sch.child[x].depth && SpanOk(keys, sch.child[x]) && x < |units|
      && !sch.IsLeafSlot(x)
  {
  }

  lemma RestIsText(keys: seq<Key>, i: nat, d: nat)
    requires AreKeys(keys) && i < |keys| && d <= |keys[i]|
    ensures IsText(keys[i][d..])
  {
  }

  lemma OwnNode(units: seq<Word>, tail: seq<nat>, ids: nat, keys: seq<Key>, values: seq<int>, sch: Scheme, x: nat,
                p: Key, c: nat, q: nat)
    requires Whole(units, tail, ids, keys, values, sch) && AtNode(units, keys, sch, x, p)
    requires q in sch.owner && q in sch.child && q != 0 && q != 1 && !sch.IsLeafSlot(q) && sch.LabelOf(q) == c
    requires x in sch.child && IsChild(keys, sch.child[x], c, sch.child[q])
    ensures q < |units| && !IsLeaf(units[q]) && Label(units[q]) == c && c != 0 && AtNode(units, keys, sch, q, p + [c])
  {
    hide Whole, AtNode, Xor, Label, IsLeaf, Offset, AreKeys, SpanOk, LeafStored, IsEnd, Occurs;
    BelowBase(units, tail, ids, keys, values, sch, q);
    NodeDepth(units, keys, sch, x, p);
    var t := sch.child[q];
    if c == 0 { TerminatorIsSingle(keys, sch.child[x], t); }
    NodeGoesOn(units, keys, sch, x, p, c, q);
  }

  lemma NodeGoesOn(units: seq<Word>, keys: seq<Key>, sch: Scheme, x: nat, p: Key, c: nat, q: nat)
    requires AtNode(units, keys, sch, x, p) && c != 0 && x in sch.child && q in sch.child
    requires IsChild(keys, sch.child[x], c, sch.child[q]) && q in sch.owner && q != 1 && !sch.IsLeafSlot(q)
    requires q < |units| && SpanOk(keys, sch.child[q])
    ensures AtNode(units, keys, sch, q, p + [c])
  {
    var s, t := sch.child[x], sch.child[q];
    InSpan(keys, s, t.begin);
    InSpan(keys, t, t.begin);
    var key := keys[t.begin];
    assert key[..|p|] == p by { assert keys[s.begin][..s.depth] == p; }
    assert key[..|p| + 1] == key[..|p|] + [key[|p|]];
  }

  /** If the slot belongs to another base, no key goes on with `c`. */
  lemma NoEdge(units: seq<Word>, tail: seq<nat>, ids: nat, keys: seq<Key>, values: seq<int>, sch: Scheme, x: nat,
               p: Key, c: nat)
    requires Whole(units, tail, ids, keys, values, sch) && AtNode(units, keys, sch, x, p) && c < 256
    requires var b := Xor(x, Offset(units[x])); !(Xor(b, c) in sch.owner && sch.owner[Xor(b, c)] == b)
    ensures forall k: nat :: !Goes(keys, k, p, c)
  {
    hide Whole, AtNode, Xor, Label, IsLeaf, Offset, Goes, AreKeys, SpanOk, IsEnd;
    NodeSlot(units, tail, ids, keys, values, sch, x, p);
    NodeDepth(units, keys, sch, x, p);
    forall k: nat ensures !Goes(keys, k, p, c) {
      NodeKeys(units, keys, sch, x, p, c, k);
      var occurs := Occurs(keys, sch.child[x], c);
    }
  }

  /** The slot belongs to another base: its label, or the first byte behind its leaf, differs. */
  lemma ForeignEdge(units: seq<Word>, tail: seq<nat>, ids: nat, keys: seq<Key>, values: seq<int>, sch: Scheme, b: nat,
                    p: Key, c: nat)
    requires Whole(units, tail, ids, keys, values, sch) && b in sch.node && c < 256
    requires Xor(b, c) in sch.owner && sch.owner[Xor(b, c)] != b && forall k: nat :: !Goes(keys, k, p, c)
    ensures Stepped(units, tail, ids, keys, values, sch, p, c, Xor(b, c))
  {
    hide Whole, Xor, Label, IsLeaf, Offset, Goes, AreKeys, SpanOk, LeafStored, LinksTo, AtNode;
    var q := Xor(b, c);
    BaseBelow(units, tail, ids, keys, values, sch, b);
    BelowBase(units, tail, ids, keys, values, sch, q);
    XorCancel(b, c);
    XorComm(sch.owner[q], q);
    XorComm(b, q);
    if sch.LabelOf(q) == c { XorInjective(q, sch.owner[q], b); }
    if sch.IsLeafSlot(q) {
      ForeignLeaf(units, tail, ids, keys, values, sch, p, c, q);
    } else if q == 1 {
      XorZero(1);
    }
  }

  lemma ForeignLeaf(units: seq<Word>, tail: seq<nat>, ids: nat, keys: seq<Key>, values: seq<int>, sch: Scheme, p: Key,
                    c: nat, q: nat)
    requires sch.IsLeafSlot(q) && LeafStored(units, tail, ids, keys, values, sch, q) && AreKeys(keys)
    requires q in sch.owner && q != 1 && SlotOwned(keys, sch, q) && sch.LabelOf(q) != c
      && forall k: nat :: !Goes(keys, k, p, c)
    ensures q < |units| && var i, d := sch.child[q].begin, sch.child[q].depth;
      i < |keys| && 0 < d <= |keys[i]| + 1 && LeafHere(units[q], tail, ids, keys, values, p, c, i, keys[i][d - 1..])
  {
    hide LinksRest, AreKeys, Goes, Xor, SpanOk;
    var i, d := sch.child[q].begin, sch.child[q].depth;
    RestIsText(keys, i, d - 1);
    assert ByteAt(keys[i], d - 1) == sch.LabelOf(q);
  }

  lemma FillerEdge(units: seq<Word>, tail: seq<nat>, ids: nat, keys: seq<Key>, values: seq<int>, sch: Scheme, b: nat,
                   c: nat)
    requires Whole(units, tail, ids, keys, values, sch) && b in sch.node && Xor(b, c) !in sch.owner
      && Xor(b, c) < |units|
    ensures !IsLeaf(units[Xor(b, c)]) && Label(units[Xor(b, c)]) != c
  {
    hide Xor, Label, IsLeaf, Offset, AreKeys, LeafStored, TrieOk;
    XorCancel(b, c);
    assert Filler(units, sch.node.Keys + {0}, Xor(b, c));
  }

  // The end of a search.

  /** The leaf decides whether the rest of the text ends a key. */
  lemma LeafDecides(u: Word, tail: seq<nat>, ids: nat, keys: seq<Key>, values: seq<int>, p: Key, t: Key, i: nat,
                    rest: Key)
    requires AreKeys(keys) && LeafHere(u, tail, ids, keys, values, p, ByteAt(t, 0), i, rest)
    ensures p + t in keys <==> rest == t
    ensures rest == t ==> ValueOf(keys, values, p + t) == values[i]
  {
    hide AreKeys, LinksRest, IsText;
    OnlyIndex(keys, values, i);
    if rest == t {
      assert keys[i] == p + t;
    }
    if p + t in keys {
      var k := First(keys, p + t);
      assert keys[k] == p + t && Goes(keys, k, p, ByteAt(t, 0));
      assert t == keys[k][|p|..];
    }
  }

  lemma NoKey(keys: seq<Key>, p: Key, t: Key)
    requires forall k: nat :: !Goes(keys, k, p, ByteAt(t, 0))
    ensures p + t !in keys
  {
    forall k: nat | k < |keys| ensures keys[k] != p + t {
      var goes := Goes(keys, k, p, ByteAt(t, 0));
    }
  }

  /** Only the key at `i` starts with `p`. */
  ghost predicate OnlyKey(keys: seq<Key>, p: Key, i: nat) {
    i < |keys| && p <= keys[i] && forall k: nat :: k < |keys| && p <= keys[k] ==> k == i
  }

  lemma OnlyKeyLeaf(u: Word, tail: seq<nat>, ids: nat, keys: seq<Key>, values: seq<int>, p: Key, c: nat, i: nat)
    requires AreKeys(keys) && OnlyKey(keys, p, i) && |values| == |keys|
      && LinksRest(u, tail, ids, keys[i][|p|..], values[i])
    ensures LeafHere(u, tail, ids, keys, values, p, c, i, keys[i][|p|..])
  {
    hide AreKeys, LinksRest, IsText;
    RestIsText(keys, i, |p|);
  }

  lemma EmptyUnit(units: seq<Word>, x: nat)
    requires EmptyArray(units) && x < 256
    ensures |units| == 256 && !IsLeaf(units[x]) && !IsEnd(units[x])
      && Label(units[x]) == (if x < 2 then x else Xor(x, 1))
    ensures x != 1 ==> Offset(units[x]) == if x == 0 then 1 else 0
  {
    hide IsLeaf, IsEnd, Label, Offset, WithLabel, WithOffset, Xor;
    ZeroUnit();
    if x == 0 {
      OffsetRoundTrip(0, 1);
      LabelRoundTrip(WithOffset(0, 1), 0);
    } else if x == 1 {
      LabelRoundTrip(0, 1);
      OffsetRoundTrip(WithLabel(0, 1), 256);
    } else {
      XorBlock(x, 1);
      assert FillerLabel(x, 1) == Xor(x, 1);
      LabelRoundTrip(0, Xor(x, 1));
    }
  }

  /** In the array of no keys only the root has children, and they have none. */
  lemma EmptyStep(units: seq<Word>, x: nat, c: nat)
    requires EmptyArray(units) && x < 256 && x != 1 && c < 256
    ensures var q := Xor(x, Xor(Offset(units[x]), c));
      q < 256 && !IsLeaf(units[q]) && (Label(units[q]) == c <==> x == 0 && c >= 2) && (x == 0 && c >= 2 ==> q >= 2)
  {
    hide IsLeaf, IsEnd, Label, Offset, Xor, EmptyArray;
    EmptyUnit(units, x);
    XorZero(c);
    XorZero(Xor(1, c));
    var q := Xor(x, Xor(Offset(units[x]), c));
    if x == 0 {
      assert q == Xor(1, c);
      XorBlock(1, c);
      XorFromOne(c);
    } else {
      assert q == Xor(x, c);
      XorBlock(x, c);
      XorFromOther(x, c);
    }
    EmptyUnit(units, q);
  }

  // Prefixes of keys.

  ghost predicate PrefixOf(keys: seq<Key>, p: Key) {
    exists k :: 0 <= k < |keys| && p <= keys[k]
  }

  /** What a traversal should answer: the value of a key, -1 for a proper prefix of one, else -2. */
  ghost function Answer(keys: seq<Key>, values: seq<int>, p: Key): int
    requires |values| == |keys|
  {
    if p in keys then ValueOf(keys, values, p) else if PrefixOf(keys, p) then -1 else -2
  }

  /** Of the text behind `p`, so much is still the beginning of a key. */
  ghost predicate Furthest(keys: seq<Key>, p: Key, text: Key, j: nat) {
    j <= |text| && PrefixOf(keys, p + text[..j]) && (j < |text| ==> !PrefixOf(keys, p + text[..j + 1]))
  }

  /** How far an agent that has consumed `p` goes when there are no keys. */
  function EmptySteps(p: Key, text: Key): (n: nat)
    ensures n <= |text|
  {
    if p == [] && text != [] && text[0] >= 2 then 1 else 0
  }

  /** What it answers when there are no keys. */
  function EmptyAnswer(p: Key, text: Key): int {
    if |text| == EmptySteps(p, text) then -1 else -2
  }

  /** Without keys the answer is wrong for exactly the empty text and, from the root, the single
      bytes from 2 on. */
  lemma EmptyIsWrong(p: Key, text: Key)
    ensures EmptyAnswer(p, text) == Answer([], [], p + text)
      <==> text != [] && !(p == [] && |text| == 1 && text[0] >= 2)
  {
  }

  lemma NoPrefix(keys: seq<Key>, p: Key, text: Key, i: nat)
    requires i < |text| && forall k: nat :: !Goes(keys, k, p + text[..i], ByteAt(text, i))
    requires text[i] != 0
    ensures !PrefixOf(keys, p + text)
  {
    var p', t := p + text[..i], text[i..];
    assert p' + t == p + text;
    forall k: nat | k < |keys| ensures !(p' + t <= keys[k]) {
      var goes := Goes(keys, k, p', ByteAt(text, i));
      if p' + t <= keys[k] {
        PrefixParts(keys[k], p', t, 0);
      }
    }
  }

  /** The rest of the only key was compared with the text, and agrees with it for `n` bytes. */
  ghost predicate Compared(t: Key, rest: Key, n: nat) {
    && n <= |rest| && n <= |t| && rest[..n] == t[..n]
    && (ByteAt(rest, n) != ByteAt(t, n) || n == |rest| == |t|)
  }

  ghost predicate InLeaf(u: Word, tail: seq<nat>, ids: nat, keys: seq<Key>, values: seq<int>, p: Key, t: Key, k: nat,
                         rest: Key) {
    && k < |keys| == |values| && IsText(rest) && LinksRest(u, tail, ids, rest, values[k])
    && ((OnlyKey(keys, p, k) && rest == keys[k][|p|..])
       || (t != [] && LeafHere(u, tail, ids, keys, values, p, t[0], k, rest)))
  }

  /** The whole text was found in the rest: it leads to the same key. */
  lemma TextFound(u: Word, tail: seq<nat>, ids: nat, keys: seq<Key>, values: seq<int>, p: Key, t: Key, k: nat,
                  rest: Key, n: nat)
    requires InLeaf(u, tail, ids, keys, values, p, t, k, rest) && Compared(t, rest, n) && n == |t|
    ensures OnlyKey(keys, p + t, k) && keys[k][|p + t|..] == rest[n..]
  {
    hide LinksRest, IsText;
    if t != [] { assert ByteAt(rest, 0) == t[..n][0]; }
    assert p <= keys[k] && rest == keys[k][|p|..];
    assert keys[k] == p + rest && rest == t + rest[n..];
    assert keys[k] == (p + t) + rest[n..];
    forall m: nat | m < |keys| && p + t <= keys[m] ensures m == k {
      assert p <= keys[m] by { assert (p + t)[..|p|] == p && keys[m][..|p|] == (p + t)[..|p|]; }
      if t != [] {
        assert keys[m][|p|] == (p + t)[|p|] == t[0];
        assert Goes(keys, m, p, t[0]);
      }
    }
  }

  /** The text differs from the rest: it leads nowhere. */
  lemma TextMissing(u: Word, tail: seq<nat>, ids: nat, keys: seq<Key>, values: seq<int>, p: Key, t: Key, k: nat,
                    rest: Key, n: nat)
    requires InLeaf(u, tail, ids, keys, values, p, t, k, rest) && Compared(t, rest, n) && n < |t| && t[n] != 0
    ensures !PrefixOf(keys, p + t)
  {
    hide LinksRest, IsText;
    forall m: nat | m < |keys| ensures !(p + t <= keys[m]) {
      var goes := Goes(keys, m, p, t[0]);
      if p + t <= keys[m] {
        PrefixParts(keys[m], p, t, n);
      }
    }
  }

  lemma PrefixParts(key: Key, p: Key, t: Key, n: nat)
    requires p + t <= key && n < |t|
    ensures p <= key && key[|p|] == t[0] && t <= key[|p|..] && ByteAt(key[|p|..], n) == t[n]
  {
    assert key[..|p|] == (p + t)[..|p|] == p;
    assert key[|p|..][..|t|] == key[..|p| + |t|][|p|..] == (p + t)[|p|..] == t;
    assert key[|p|] == key[|p|..][..|t|][0] && key[|p|..][n] == key[|p|..][..|t|][n];
  }

  /** Moving the link along the rest. */
  lemma Relinked(u: Word, tail: seq<nat>, ids: nat, rest: Key, value: int, n: nat)
    requires IsIds(ids) && LinksRest(u, tail, ids, rest, value) && n <= |rest| && Link(u, ids) + n < LinkMax(ids)
    ensures var w := WithLink(u, ids, Link(u, ids) + n);
      IsLeaf(w) && LinksRest(w, tail, ids, rest[n..], value) && ValueId(w, ids) == ValueId(u, ids)
  {
    hide IsLeaf, Link, ValueId, WithLink, LinkMax, ReadValue;
    LinkRoundTrip(u, ids, Link(u, ids) + n);
    var l := Link(u, ids);
    assert tail[l + n..l + |rest|] == tail[l..l + |rest|][n..];
  }

  // Common prefixes.

  /** The keys that `p` and fewer than `n` bytes of the text form, shortest first. */
  ghost function Matches(keys: seq<Key>, values: seq<int>, p: Key, text: Key, n: nat): seq<Match>
    requires |values| == |keys| && n <= |text| + 1
  {
    if n == 0 then []
    else
      var k := p + text[..n - 1];
      Matches(keys, values, p, text, n - 1) + (if k in keys then [Match(ValueOf(keys, values, k), n - 1)] else [])
  }

  ghost predicate IsMatch(keys: seq<Key>, values: seq<int>, p: Key, text: Key, m: Match)
    requires |values| == |keys|
  {
    m.length <= |text| && p + text[..m.length] in keys && ValueOf(keys, values, p + text[..m.length]) == m.value
  }

  /** They are exactly the stored prefixes, and their lengths increase. */
  lemma {:induction false} MatchesAreThePrefixes(keys: seq<Key>, values: seq<int>, p: Key, text: Key, n: nat)
    requires |values| == |keys| && n <= |text| + 1
    ensures var r := Matches(keys, values, p, text, n);
      && (forall m: Match :: m in r <==> IsMatch(keys, values, p, text, m) && m.length < n)
      && (forall i, j :: 0 <= i < j < |r| ==> r[i].length < r[j].length)
  {
    hide ValueOf;
    if n > 0 {
      MatchesAreThePrefixes(keys, values, p, text, n - 1);
      var s, r := Matches(keys, values, p, text, n - 1), Matches(keys, values, p, text, n);
      forall i, j | 0 <= i < j < |r| ensures r[i].length < r[j].length {
        if j == |s| { assert s[i] in s; }
      }
    }
  }

  /** Lengths at which no key ends add nothing. */
  lemma {:induction false} NoMatches(keys: seq<Key>, values: seq<int>, p: Key, text: Key, from: nat, n: nat)
    requires |values| == |keys| && from <= n <= |text| + 1
    requires forall l: nat :: from <= l < n ==> p + text[..l] !in keys
    ensures Matches(keys, values, p, text, n) == Matches(keys, values, p, text, from)
    decreases n
  {
    hide ValueOf;
    if n > from { NoMatches(keys, values, p, text, from, n - 1); }
  }

  /** Below a leaf there is at most one more match. */
  lemma LeafMatches(u: Word, tail: seq<nat>, ids: nat, keys: seq<Key>, values: seq<int>, p: Key, text: Key, i: nat,
                    k: nat, rest: Key)
    requires AreKeys(keys) && i <= |text| && IsText(text)
    requires LeafHere(u, tail, ids, keys, values, p + text[..i], ByteAt(text, i), k, rest)
    ensures k < |values| == |keys|
    ensures var from := if i < |text| then i + 1 else i;
      var hit := rest <= text[i..] && ByteAt(rest, 0) == ByteAt(text, i);
      var m := Matches(keys, values, p, text, from);
      Matches(keys, values, p, text, |text| + 1) == if hit then m + [Match(values[k], i + |rest|)] else m
  {
    hide AreKeys, ValueOf, LinksRest, Goes;
    var from := if i < |text| then i + 1 else i;
    var hit := rest <= text[i..] && ByteAt(rest, 0) == ByteAt(text, i);
    forall l: nat | from <= l <= |text|
      ensures p + text[..l] in keys <==> hit && l == i + |rest|
      ensures hit && l == i + |rest| ==> p + text[..l] in keys && ValueOf(keys, values, p + text[..l]) == values[k]
    {
      MatchAt(u, tail, ids, keys, values, p, text, i, k, rest, l);
    }
    if hit {
      var l := i + |rest|;
      NoMatches(keys, values, p, text, from, l);
      NoMatches(keys, values, p, text, l + 1, |text| + 1);
    } else {
      NoMatches(keys, values, p, text, from, |text| + 1);
    }
  }

  lemma MatchAt(u: Word, tail: seq<nat>, ids: nat, keys: seq<Key>, values: seq<int>, p: Key, text: Key, i: nat, k: nat,
                rest: Key, l: nat)
    requires AreKeys(keys) && IsText(text) && i <= l <= |text| && (l == i ==> i == |text|)
    requires LeafHere(u, tail, ids, keys, values, p + text[..i], ByteAt(text, i), k, rest)
    ensures k < |values| == |keys|
    ensures var hit := rest <= text[i..] && ByteAt(rest, 0) == ByteAt(text, i);
      p + text[..l] in keys <==> hit && l == i + |rest|
    ensures p + text[..l] in keys ==> ValueOf(keys, values, p + text[..l]) == values[k]
  {
    hide AreKeys, ValueOf, LinksRest, Goes;
    var t := text[i..l];
    assert ByteAt(t, 0) == ByteAt(text, i);
    LeafDecides(u, tail, ids, keys, values, p + text[..i], t, k, rest);
    assert p + text[..i] + t == p + text[..l];
    assert t == text[i..][..l - i];
  }

  /** The results so far: the first `max` matches, the rest of the buffer as it was. */
  ghost predicate Recorded(now: seq<Match>, before: seq<Match>, m: seq<Match>, max: nat) {
    |now| == |before| && forall j :: 0 <= j < |now| ==> now[j] == if j < |m| && j < max then m[j] else before[j]
  }

  class TailedArray {
    const units: seq<Word>
    const tail: seq<nat>
    const ids: nat
    ghost const keys: seq<Key>
    ghost const values: seq<int>
    ghost const sch: Scheme

    constructor (units: seq<Word>, tail: seq<nat>, ids: nat, ghost keys: seq<Key>, ghost values: seq<int>,
                 ghost sch: Scheme)
      ensures this.units == units && this.tail == tail && this.ids == ids
      ensures this.keys == keys && this.values == values && this.sch == sch
    {
      this.units, this.tail, this.ids := units, tail, ids;
      this.keys, this.values, this.sch := keys, values, sch;
    }

    ghost predicate Valid() {
      && IsIds(ids) && |keys| == |values| && AreKeys(keys)
      && if keys != [] then Whole(units, tail, ids, keys, values, sch) else EmptyArray(units)
    }

    /** A search has consumed `p` and stands on slot `x`. */
    ghost predicate Standing(x: nat, p: Key)
      requires Valid()
    {
      if keys != [] then AtNode(units, keys, sch, x, p)
      else x < 256 && x != 1 && (x == 0 <==> p == [])
    }

    /** An agent stands on an inner node, or in the rest of the only key that is left. */
    ghost predicate AgentOk(agent: Word, p: Key)
      requires Valid()
    {
      if IsLeaf(agent) then exists i: nat ::
        OnlyKey(keys, p, i)
        && LinksRest(agent, tail, ids, keys[i][|p|..], values[i])
      else Standing(Index(agent), p)
    }

    /** Searches of the whole dictionary start with the agent 0. */
    lemma FirstAgent()
      requires Valid()
      ensures AgentOk(0, [])
    {
      hide AtNode, Whole, AreKeys, EmptyArray;
      if keys != [] { RootNode(units, tail, ids, keys, values, sch); }
    }

    lemma Aligned()
      requires Valid()
      ensures |keys| == |values|
    {
    }

    lemma SizeUnit()
      requires Valid()
      ensures 1 < |units| < 0x2000_0000 && Offset(units[1]) == |units|
    {
      hide Offset, TrieOk, AreKeys;
      if keys != [] {
        BuiltSize(units, tail, ids, keys, values, sch);
      } else {
        OffsetRoundTrip(WithLabel(0, 1), 256);
      }
    }

    lemma StandingBelow(x: nat, p: Key)
      requires Valid() && Standing(x, p)
      ensures x < |units| < 0x8000_0000
    {
      hide Whole, AreKeys;
      if keys != [] { BuiltSize(units, tail, ids, keys, values, sch); }
    }

    /** One step: to the leaf of the only key that goes on with `c`, to a node, or nowhere. */
    lemma StepFrom(x: nat, p: Key, c: nat)
      requires Valid() && Standing(x, p) && x < |units| && c < 256
      ensures var q := Xor(x, Xor(Offset(units[x]), c));
        && q < |units|
        && (IsLeaf(units[q]) ==> exists i: nat, rest: Key :: LeafHere(units[q], tail, ids, keys, values, p, c, i, rest))
        && (!IsLeaf(units[q]) && Label(units[q]) == c ==> c != 0 && Standing(q, p + [c]))
        && (!IsLeaf(units[q]) && Label(units[q]) != c ==> forall k: nat :: !Goes(keys, k, p, c))
        && (keys == [] ==> !IsLeaf(units[q]) && (Label(units[q]) == c <==> x == 0 && c >= 2))
    {
      hide Whole, AreKeys, Xor, AtNode, IsLeaf, Label, Offset, LeafHere;
      if keys != [] {
        Step(units, tail, ids, keys, values, sch, x, p, c);
      } else {
        EmptyStep(units, x, c);
      }
    }

    /** The bytes of the rest and the text are compared up to the NUL or the first difference. */
    method CompareRest(link: nat, key: seq<nat>, length: nat, start: nat, i: nat, ghost rest: Key)
      returns (found: bool, pos: nat, j: nat)
      requires IsQuery(key, length, start) && i <= |QueryText(key, length, start)|
      requires IsText(rest) && StoredAt(tail, link, rest)
      ensures var t := QueryText(key, length, start)[i..];
        var n := pos - link;
        && link <= pos < |tail| && n == j - (start + i) && n <= |rest| && n <= |t| && rest[..n] == t[..n]
        && (found <==> rest == t) && (found ==> n == |rest|) && (!found ==> ByteAt(rest, n) != ByteAt(t, n))
    {
      hide QueryText, IsQuery;
      ghost var text := QueryText(key, length, start);
      ghost var t := text[i..];
      pos, j := link, start + i;
      QueryBytes(key, length, start, i);
      RestByte(link, rest, 0);
      while tail[pos] == QueryByte(key, length, j)
        invariant link <= pos && pos - link == j - (start + i) && pos - link <= |rest| && pos - link <= |t|
        invariant rest[..pos - link] == t[..pos - link]
        invariant pos < |tail| && (j < |key| || (length != 0 && j == length))
        invariant tail[pos] == ByteAt(rest, pos - link) && QueryByte(key, length, j) == ByteAt(t, pos - link)
        decreases |rest| - (pos - link)
      {
        RestText(key, length, start, i);
        if tail[pos] == 0 {
          return true, pos, j;
        }
        pos, j := pos + 1, j + 1;
        QueryBytes(key, length, start, j - start);
        RestByte(link, rest, pos - link);
      }
      found := false;
    }

    lemma RestByte(link: nat, rest: Key, n: nat)
      requires StoredAt(tail, link, rest) && n <= |rest|
      ensures link + n < |tail| && tail[link + n] == ByteAt(rest, n)
    {
      if n < |rest| {
        assert tail[link + n] == tail[link..link + |rest|][n];
      }
    }

    lemma RestText(key: seq<nat>, length: nat, start: nat, i: nat)
      requires IsQuery(key, length, start) && i <= |QueryText(key, length, start)|
      ensures IsText(QueryText(key, length, start)[i..])
    {
      hide QueryText, IsQuery;
      QueryBytes(key, length, start, i);
    }

    /** The value behind the rest. */
    method GetValue(u: Word, pos: nat, ghost rest: Key, ghost value: int) returns (v: int)
      requires LinksRest(u, tail, ids, rest, value) && pos == Link(u, ids) + |rest|
      ensures v == value
    {
      v := ReadValue(tail, pos + 4 * ValueId(u, ids) + 1);
    }

    lemma ByteIsSmall(text: Key, i: nat)
      requires IsText(text) && i <= |text|
      ensures ByteAt(text, i) < 256
    {
    }

    lemma Along(p: Key, text: Key, i: nat)
      requires i < |text|
      ensures p + text[..i] + [text[i]] == p + text[..i + 1]
    {
    }

    lemma NoKeyFrom(p: Key, text: Key, i: nat)
      requires i <= |text| && forall k: nat :: !Goes(keys, k, p + text[..i], ByteAt(text, i))
      ensures p + text !in keys
    {
      assert ByteAt(text[i..], 0) == ByteAt(text, i);
      NoKey(keys, p + text[..i], text[i..]);
      assert p + text[..i] + text[i..] == p + text;
    }

    lemma AgentLeaf(agent: Word, p: Key, c: nat)
      requires Valid() && IsLeaf(agent) && AgentOk(agent, p)
      ensures exists k: nat, rest: Key :: LeafHere(agent, tail, ids, keys, values, p, c, k, rest)
    {
      hide Whole, AreKeys, LinksRest, EmptyArray, LeafHere;
      var i: nat :| OnlyKey(keys, p, i) && LinksRest(agent, tail, ids, keys[i][|p|..], values[i]);
      OnlyKeyLeaf(agent, tail, ids, keys, values, p, c, i);
    }

    lemma LeafParts(u: Word, p: Key, c: nat, k: nat, rest: Key)
      requires LeafHere(u, tail, ids, keys, values, p, c, k, rest)
      ensures k < |values| && IsText(rest) && LinksRest(u, tail, ids, rest, values[k])
        && StoredAt(tail, Link(u, ids), rest)
    {
      hide Goes, Link, IsLeaf;
    }

    lemma Decide(u: Word, p: Key, text: Key, i: nat, k: nat, rest: Key)
      requires AreKeys(keys) && i <= |text|
        && LeafHere(u, tail, ids, keys, values, p + text[..i], ByteAt(text, i), k, rest)
      ensures k < |values| == |keys|
      ensures p + text in keys <==> rest == text[i..]
      ensures rest == text[i..] ==> ValueOf(keys, values, p + text) == values[k]
    {
      hide AreKeys, Goes, LinksRest, IsText;
      LeafDecides(u, tail, ids, keys, values, p + text[..i], text[i..], k, rest);
      assert p + text[..i] + text[i..] == p + text;
    }

    lemma ValidParts()
      requires Valid()
      ensures |keys| == |values| && AreKeys(keys) && IsIds(ids)
    {
      hide Whole, AreKeys, EmptyArray;
    }

    /** `exactMatchSearch` */
    method ExactMatchSearch(key: seq<nat>, length: nat, agent: Word, ghost p: Key)
      returns (found: bool, value: int, matched: nat)
      requires Valid() && AgentOk(agent, p) && IsQuery(key, length, 0)
      ensures var text := QueryText(key, length, 0);
        && (found <==> p + text in keys)
        && (found ==> value == ValueOf(keys, values, p + text) && matched == |text|)
        && (!found ==> value == -1)
    {
      hide Valid, Standing, QueryText, IsQuery, Xor, Label, Offset, IsLeaf, LinksRest, Index, Link, OnlyKey, Goes,
        LeafHere, AreKeys, StoredAt, ValueOf, IsText, QueryByte;
      ghost var text := QueryText(key, length, 0);
      ValidParts();
      QueryBytes(key, length, 0, 0);
      value, matched := -1, 0;
      var leaf, i := agent, 0;
      assert p + text[..0] == p && text[0..] == text;
      if !IsLeaf(leaf) {
        var index: nat := Index(leaf);
        StandingBelow(index, p);
        while true
          invariant i <= |text| && index < |units| && Standing(index, p + text[..i])
          decreases |text| - i
        {
          QueryBytes(key, length, 0, i);
          ByteIsSmall(text, i);
          StepFrom(index, p + text[..i], ByteAt(text, i));
          index := Xor(index, Xor(Offset(units[index]), QueryByte(key, length, i)));
          if IsLeaf(units[index]) {
            leaf := units[index];
            break;
          } else if Label(units[index]) != QueryByte(key, length, i) {
            NoKeyFrom(p, text, i);
            found := false;
            return;
          }
          Along(p, text, i);
          i := i + 1;
        }
      } else {
        AgentLeaf(agent, p, ByteAt(text, 0));
      }
      ghost var k: nat, rest: Key :| LeafHere(leaf, tail, ids, keys, values, p + text[..i], ByteAt(text, i), k, rest);
      var pos: nat, j: nat;
      LeafParts(leaf, p + text[..i], ByteAt(text, i), k, rest);
      found, pos, j := CompareRest(Link(leaf, ids), key, length, 0, i, rest);
      Decide(leaf, p, text, i, k, rest);
      if found {
        value := GetValue(leaf, pos, rest, values[k]);
        matched := j;
      }
    }

    /** The end flag of a node, and the leaf behind the terminator's edge. */
    lemma NodeEnd(x: nat, p: Key)
      requires Valid() && Standing(x, p) && x < |units|
      ensures IsEnd(units[x]) <==> p in keys
      ensures IsEnd(units[x]) ==> var q := Xor(x, Offset(units[x]));
        q < |units| && p in keys && LinksRest(units[q], tail, ids, [], ValueOf(keys, values, p))
    {
      hide Whole, AreKeys, Xor, IsLeaf, IsEnd, Label, Offset, LinksRest, EmptyArray, AtNode, Goes, Occurs, ValueOf;
      if keys == [] {
        EmptyUnit(units, x);
      } else {
        NodeSlot(units, tail, ids, keys, values, sch, x, p);
        EndsHere(x, p);
        if p in keys { StrayLeaf(x, p); }
      }
    }

    lemma EndsHere(x: nat, p: Key)
      requires Valid() && keys != [] && AtNode(units, keys, sch, x, p)
      ensures x in sch.child && SpanOk(keys, sch.child[x])
      ensures Occurs(keys, sch.child[x], 0) <==> p in keys
      ensures forall k: nat :: Goes(keys, k, p, 0) ==> keys[k] == p
    {
      hide Whole, AtNode;
      NodeDepth(units, keys, sch, x, p);
      forall k: nat ensures Goes(keys, k, p, 0) ==> keys[k] == p {
        if Goes(keys, k, p, 0) { assert IsText(keys[k]); }
      }
      if Occurs(keys, sch.child[x], 0) {
        var i :| sch.child[x].begin <= i < sch.child[x].end && ByteAt(keys[i], sch.child[x].depth) == 0;
        InSpan(keys, sch.child[x], i);
        NodeKeys(units, keys, sch, x, p, 0, i);
        assert keys[i] == p;
      }
      if p in keys {
        var k := First(keys, p);
        NodeKeys(units, keys, sch, x, p, 0, k);
      }
    }

    lemma StrayLeaf(x: nat, p: Key)
      requires Valid() && keys != [] && AtNode(units, keys, sch, x, p) && p in keys && x < |units|
      ensures var q := Xor(x, Offset(units[x]));
        q < |units| && LinksRest(units[q], tail, ids, [], ValueOf(keys, values, p))
    {
      hide Whole, AreKeys, Xor, IsLeaf, Label, Offset, LinksRest, AtNode, Occurs, IsText;
      var b := Xor(x, Offset(units[x]));
      Step(units, tail, ids, keys, values, sch, x, p, 0);
      XorZero(b);
      EndsHere(x, p);
      var k := First(keys, p);
      OnlyIndex(keys, values, k);
      assert Goes(keys, k, p, 0);
      var i: nat, rest: Key :| LeafHere(units[b], tail, ids, keys, values, p, 0, i, rest);
    }

    lemma NodeIsPrefix(x: nat, p: Key)
      requires Valid() && Standing(x, p) && keys != []
      ensures PrefixOf(keys, p)
    {
      hide Whole, AreKeys;
    }

    lemma AgentInLeaf(agent: Word, p: Key, text: Key)
      requires Valid() && IsLeaf(agent) && AgentOk(agent, p)
      ensures text[0..] == text && p + text[..0] == p
      ensures exists k: nat, rest: Key :: InLeaf(agent, tail, ids, keys, values, p, text, k, rest)
      ensures keys != [] && PrefixOf(keys, p) && OnlyAgent(agent, p)
    {
      hide Whole, AreKeys, LinksRest, EmptyArray, LeafHere;
      var i: nat :| OnlyKey(keys, p, i) && LinksRest(agent, tail, ids, keys[i][|p|..], values[i]);
      RestIsText(keys, i, |p|);
      assert InLeaf(agent, tail, ids, keys, values, p, text, i, keys[i][|p|..]);
    }

    lemma StepIntoLeaf(u: Word, p: Key, text: Key, i: nat, k: nat, rest: Key)
      requires i < |text| && LeafHere(u, tail, ids, keys, values, p + text[..i], text[i], k, rest)
      ensures InLeaf(u, tail, ids, keys, values, p + text[..i], text[i..], k, rest) && keys != []
    {
      hide LinksRest, IsText, Goes, OnlyKey;
      assert text[i..][0] == text[i];
    }

    /** In the empty array only the root leads on. */
    lemma EmptyWalk(p: Key, text: Key, i: nat, x: nat)
      requires Valid() && keys == [] && i <= EmptySteps(p, text) && Standing(x, p + text[..i]) && x < |units|
      ensures i < |text| && x == 0 && text[i] >= 2 ==> i < EmptySteps(p, text)
      ensures i < |text| && !(x == 0 && text[i] >= 2) ==> i == EmptySteps(p, text)
    {
      hide AreKeys, EmptyArray, Whole;
    }

    lemma NodeAnswers(x: nat, p: Key)
      requires Valid() && Standing(x, p) && keys != [] && x < |units|
      ensures PrefixOf(keys, p)
      ensures |keys| == |values| && Answer(keys, values, p) == if p in keys then ValueOf(keys, values, p) else -1
    {
      hide Standing, PrefixOf, ValueOf;
      ValidParts();
      NodeIsPrefix(x, p);
    }

    lemma NoAnswer(p: Key, text: Key, i: nat)
      requires |keys| == |values| && i < |text| && IsText(text)
      requires forall k: nat :: !Goes(keys, k, p + text[..i], ByteAt(text, i))
      ensures Answer(keys, values, p + text) == -2
      ensures PrefixOf(keys, p + text[..i]) ==> Furthest(keys, p, text, i)
    {
      hide Goes, ValueOf, PrefixOf;
      NoPrefix(keys, p, text, i);
      KeyIsPrefix(p + text);
      var t := text[..i + 1];
      assert t[..i] == text[..i] && ByteAt(t, i) == ByteAt(text, i);
      NoPrefix(keys, p, t, i);
    }

    /** The loop of `traverse` over the nodes: it may decide, or arrive in a leaf. */
    method TraverseNodes(key: seq<nat>, agent: Word, keyIndex: nat, length: nat, ghost p: Key)
      returns (done: bool, value: int, agent': Word, i: nat)
      requires Valid() && AgentOk(agent, p) && IsQuery(key, length, keyIndex) && !IsLeaf(agent)
      ensures var text := QueryText(key, length, keyIndex);
        && i <= |text|
        && (done && keys != [] ==> value == Answer(keys, values, p + text) && Furthest(keys, p, text, i))
        && (done ==> AgentOk(agent', p + text[..i]))
        && (keys == [] ==> value == EmptyAnswer(p, text) && i == EmptySteps(p, text))
        && (!done ==> keys != [] && PrefixOf(keys, p + text[..i]) && exists k: nat, rest: Key ::
              InLeaf(agent', tail, ids, keys, values, p + text[..i], text[i..], k, rest))
    {
      hide Valid, Standing, QueryText, IsQuery, Xor, Label, Offset, IsLeaf, IsEnd, LinksRest, Index, Link, OnlyKey,
        Goes, LeafHere,
        AreKeys, StoredAt, ValueOf, IsText, QueryByte, WithIndex, PrefixOf, InLeaf, EmptySteps, Answer, Furthest;
      ghost var text := QueryText(key, length, keyIndex);
      ValidParts();
      QueryBytes(key, length, keyIndex, 0);
      assert p + text[..0] == p;
      agent', i := agent, 0;
      var index: nat := Index(agent);
      StandingBelow(index, p);
      while QueryByte(key, length, keyIndex + i) != 0
        invariant i <= |text| && index < |units| && Standing(index, p + text[..i])
        invariant keyIndex + i < |key| || (length != 0 && keyIndex + i == length)
        invariant QueryByte(key, length, keyIndex + i) == ByteAt(text, i)
        invariant !IsLeaf(agent') && Index(agent') == index
        invariant keys == [] ==> i <= EmptySteps(p, text)
        decreases |text| - i
      {
        ByteIsSmall(text, i);
        StepFrom(index, p + text[..i], ByteAt(text, i));
        if keys == [] { EmptyWalk(p, text, i, index); } else { NodeAnswers(index, p + text[..i]); }
        index := Xor(index, Xor(Offset(units[index]), QueryByte(key, length, keyIndex + i)));
        if IsLeaf(units[index]) {
          ghost var k: nat, rest: Key :|
            LeafHere(units[index], tail, ids, keys, values, p + text[..i], ByteAt(text, i), k, rest);
          StepIntoLeaf(units[index], p, text, i, k, rest);
          return false, 0, units[index], i;
        } else if Label(units[index]) != QueryByte(key, length, keyIndex + i) {
          NoAnswer(p, text, i);
          return true, -2, agent', i;
        }
        Along(p, text, i);
        i := i + 1;
        StandingBelow(index, p + text[..i]);
        IndexRoundTrip(agent', index);
        agent' := WithIndex(agent', index);
        QueryBytes(key, length, keyIndex, i);
      }
      NulIsEnd(text, i);
      assert p + text[..i] == p + text;
      if keys != [] {
        NodeAnswers(index, p + text);
        EndsFurthest(p, text);
      }
      NodeEnd(index, p + text);
      done := true;
      if !IsEnd(units[index]) {
        value := -1;
      } else {
        var stray := units[Xor(index, Offset(units[index]))];
        value := GetValue(stray, Link(stray, ids), [], ValueOf(keys, values, p + text));
      }
    }

    lemma EndsFurthest(p: Key, text: Key)
      requires PrefixOf(keys, p + text)
      ensures Furthest(keys, p, text, |text|)
    {
      assert text[..|text|] == text;
    }

    lemma NulIsEnd(text: Key, i: nat)
      requires IsText(text) && i <= |text|
      ensures ByteAt(text, i) == 0 <==> i == |text|
      ensures i == |text| ==> text[..i] == text
    {
    }

    /** The part of `traverse` behind a leaf. */
    method TraverseRest(key: seq<nat>, agent: Word, keyIndex: nat, length: nat, ghost p: Key, i: nat, ghost k: nat,
                        ghost rest: Key)
      returns (ok: bool, value: int, agent': Word, keyIndex': nat)
      requires Valid() && IsQuery(key, length, keyIndex) && i <= |QueryText(key, length, keyIndex)|
      requires var text := QueryText(key, length, keyIndex);
        InLeaf(agent, tail, ids, keys, values, p + text[..i], text[i..], k, rest) && PrefixOf(keys, p + text[..i])
      ensures !ok ==> |tail| > LinkMax(ids)
      ensures var text := QueryText(key, length, keyIndex);
        && keyIndex <= keyIndex' <= keyIndex + |text| && keys != []
        && (ok ==>
              && value == Answer(keys, values, p + text) && Furthest(keys, p, text, keyIndex' - keyIndex)
              && (AgentOk(agent', p + text[..keyIndex' - keyIndex])
                  || (!OnlyAgent(agent, p + text[..i]) && keyIndex' == keyIndex + i < keyIndex + |text|
                     && Strayed(agent', text[i]))))
    {
      hide Valid, QueryText, IsQuery, LinksRest, Link, OnlyKey, IsLeaf,
        AreKeys, StoredAt, ValueOf, IsText, QueryByte, WithLink, LinkMax, PrefixOf, InLeaf, Answer, AgentOk,
        Furthest, Strayed, OnlyAgent;
      ghost var text := QueryText(key, length, keyIndex);
      ghost var t := text[i..];
      ValidParts();
      QueryBytes(key, length, keyIndex, i);
      InLeafParts(agent, p + text[..i], t, k, rest);
      var found: bool, pos: nat, j: nat;
      found, pos, j := CompareRest(Link(agent, ids), key, length, keyIndex, i, rest);
      ghost var n := pos - Link(agent, ids);
      agent', keyIndex', value := agent, j, -1;
      ok := pos < LinkMax(ids);
      if !ok {
        return;
      }
      QueryBytes(key, length, keyIndex, j - keyIndex);
      NulIsEnd(text, j - keyIndex);
      RestText(key, length, keyIndex, i);
      agent' := WithLink(agent, ids, pos);
      assert p + text[..i] + t == p + text;
      RestAnswers(agent, p + text[..i], t, k, rest, n, found);
      RestStops(agent, p + text[..i], t, k, rest, n, found);
      Joined(p, text, i, n);
      if found {
        value := GetValue(agent', pos, rest[n..], values[k]);
      } else if QueryByte(key, length, j) == 0 {
        value := -1;
      } else {
        value := -2;
      }
    }

    /** `traverse`: goes on from an agent that has consumed `p`, and moves it along. */
    method Traverse(key: seq<nat>, agent: Word, keyIndex: nat, length: nat, ghost p: Key)
      returns (ok: bool, value: int, agent': Word, keyIndex': nat)
      requires Valid() && AgentOk(agent, p) && IsQuery(key, length, keyIndex)
      ensures !ok ==> |tail| > LinkMax(ids)
      ensures var text := QueryText(key, length, keyIndex);
        && keyIndex <= keyIndex' <= keyIndex + |text|
        && (ok && keys != [] ==>
           value == Answer(keys, values, p + text)
           && Furthest(keys, p, text, keyIndex' - keyIndex))
        && (keys == [] ==> ok && value == EmptyAnswer(p, text) && keyIndex' == keyIndex + EmptySteps(p, text))
        && (ok ==> AgentOk(agent', p + text[..keyIndex' - keyIndex])
                   || (!IsLeaf(agent) && keyIndex' < keyIndex + |text| && Strayed(agent', text[keyIndex' - keyIndex])))
    {
      hide Valid, Standing, QueryText, IsQuery, Xor, Label, Offset, IsLeaf, IsEnd, LinksRest, Index, Link, OnlyKey,
        Goes, LeafHere,
        AreKeys, StoredAt, ValueOf, IsText, QueryByte, WithIndex, WithLink, LinkMax, PrefixOf, InLeaf, Compared,
          EmptySteps, Answer, Furthest, Strayed, OnlyAgent;
      ghost var text := QueryText(key, length, keyIndex);
      ValidParts();
      QueryBytes(key, length, keyIndex, 0);
      agent' := agent;
      var i: nat := 0;
      var done: bool;
      if !IsLeaf(agent) {
        done, value, agent', i := TraverseNodes(key, agent, keyIndex, length, p);
        if done {
          return true, value, agent', keyIndex + i;
        }
      } else {
        AgentInLeaf(agent, p, text);
      }
      ghost var k: nat, rest: Key :| InLeaf(agent', tail, ids, keys, values, p + text[..i], text[i..], k, rest);
      ok, value, agent', keyIndex' := TraverseRest(key, agent', keyIndex, length, p, i, k, rest);
    }

    /** The agent stands in the rest of the only key that starts with `p`. */
    ghost predicate OnlyAgent(agent: Word, p: Key)
      requires Valid()
    {
      IsLeaf(agent) && AgentOk(agent, p)
    }

    /** The agent was led to the rest of a key that the text does not start, which does not go on
        with `c`. */
    ghost predicate Strayed(agent: Word, c: nat)
      requires Valid()
    {
      IsLeaf(agent) && exists k: nat, rest: Key ::
        k < |values| && LinksRest(agent, tail, ids, rest, values[k]) && ByteAt(rest, 0) != c
    }

    lemma Joined(p: Key, text: Key, i: nat, n: nat)
      requires i + n <= |text|
      ensures p + text[..i] + text[i..][..n] == p + text[..i + n]
      ensures Furthest(keys, p + text[..i], text[i..], n) ==> Furthest(keys, p, text, i + n)
      ensures n == 0 && i < |text| ==> text[i..][0] == text[i] && p + text[..i + n] == p + text[..i]
    {
      hide PrefixOf;
      if n < |text| - i { assert p + text[..i] + text[i..][..n + 1] == p + text[..i + n + 1]; }
    }

    /** How far the comparison of the rest has come, and where the agent stands then. */
    lemma RestStops(u: Word, p: Key, t: Key, k: nat, rest: Key, n: nat, found: bool)
      requires Valid() && InLeaf(u, tail, ids, keys, values, p, t, k, rest) && Link(u, ids) + n < LinkMax(ids)
      requires n <= |rest| && n <= |t| && rest[..n] == t[..n] && IsText(t) && PrefixOf(keys, p)
      requires (found <==> rest == t) && (found ==> n == |rest|) && (!found ==> ByteAt(rest, n) != ByteAt(t, n))
      ensures Furthest(keys, p, t, n)
      ensures var w := WithLink(u, ids, Link(u, ids) + n);
        AgentOk(w, p + t[..n]) || (!OnlyAgent(u, p) && n == 0 < |t| && Strayed(w, t[0]))
    {
      hide Valid, Whole, EmptyArray, LinksRest, Link, OnlyKey, LeafHere, AreKeys, ValueOf, IsText, WithLink,
        LinkMax, InLeaf, IsLeaf, PrefixOf, Standing;
      ValidParts();
      InLeafParts(u, p, t, k, rest);
      Relinked(u, tail, ids, rest, values[k], n);
      var w := WithLink(u, ids, Link(u, ids) + n);
      var s := t[..n];
      if n < |t| {
        NonzeroByte(t, n);
        ShorterText(u, p, t, k, rest, n + 1);
        TextMissing(u, tail, ids, keys, values, p, t[..n + 1], k, rest, n);
      }
      if n > 0 {
        ShorterText(u, p, t, k, rest, n);
        if n < |rest| { NonzeroByte(rest, n); }
        TextFound(u, tail, ids, keys, values, p, s, k, rest, n);
        OnlyKeyAnswers(p + s, k);
      } else {
        assert p + s == p && rest[n..] == rest;
        if OnlyAgent(u, p) {
          SameAgent(u, p);
        } else {
          NotOnly(u, p, t, k, rest);
        }
      }
    }

    /** Writing the link again changes nothing. */
    lemma SameAgent(u: Word, p: Key)
      requires Valid() && OnlyAgent(u, p) && Link(u, ids) < LinkMax(ids)
      ensures AgentOk(WithLink(u, ids, Link(u, ids)), p)
    {
      hide Whole, EmptyArray, AreKeys, LinksRest, Link, LinkMax, WithLink, IsLeaf, Standing;
      var i: nat :| OnlyKey(keys, p, i) && LinksRest(u, tail, ids, keys[i][|p|..], values[i]);
      Relinked(u, tail, ids, keys[i][|p|..], values[i], 0);
      assert keys[i][|p|..][0..] == keys[i][|p|..];
    }

    lemma NotOnly(u: Word, p: Key, t: Key, k: nat, rest: Key)
      requires Valid() && InLeaf(u, tail, ids, keys, values, p, t, k, rest) && !OnlyAgent(u, p)
      ensures t != []
    {
      hide Whole, EmptyArray, AreKeys, LinksRest, Link, LeafHere, Standing;
      InLeafParts(u, p, t, k, rest);
    }

    lemma ShorterText(u: Word, p: Key, t: Key, k: nat, rest: Key, n: nat)
      requires InLeaf(u, tail, ids, keys, values, p, t, k, rest) && 0 < n <= |t|
      ensures InLeaf(u, tail, ids, keys, values, p, t[..n], k, rest)
    {
      hide LinksRest, OnlyKey, LeafHere, IsText;
    }

    lemma InLeafParts(u: Word, p: Key, t: Key, k: nat, rest: Key)
      requires InLeaf(u, tail, ids, keys, values, p, t, k, rest)
      ensures k < |values| == |keys| && IsText(rest) && LinksRest(u, tail, ids, rest, values[k])
      ensures IsLeaf(u) && StoredAt(tail, Link(u, ids), rest)
    {
      hide OnlyKey, LeafHere, Link, IsLeaf;
    }

    /** What the comparison of the rest says about the whole text, and the agent behind it. */
    lemma RestAnswers(u: Word, p: Key, t: Key, k: nat, rest: Key, n: nat, found: bool)
      requires Valid() && InLeaf(u, tail, ids, keys, values, p, t, k, rest) && Link(u, ids) + n < LinkMax(ids)
      requires n <= |rest| && n <= |t| && rest[..n] == t[..n] && IsText(t)
      requires (found <==> rest == t) && (found ==> n == |rest|) && (!found ==> ByteAt(rest, n) != ByteAt(t, n))
      ensures k < |keys| == |values| && keys != []
      ensures Answer(keys, values, p + t) == if found then values[k] else if n == |t| then -1 else -2
      ensures var w := WithLink(u, ids, Link(u, ids) + n);
        && LinksRest(w, tail, ids, rest[n..], values[k])
        && (found ==> rest[n..] == []) && Link(w, ids) == Link(u, ids) + n
    {
      hide Valid, Whole, EmptyArray, LinksRest, Link, OnlyKey, LeafHere, AreKeys, ValueOf, IsText, WithLink,
        LinkMax, InLeaf, IsLeaf, PrefixOf;
      ValidParts();
      InLeafParts(u, p, t, k, rest);
      Relinked(u, tail, ids, rest, values[k], n);
      LinkRoundTrip(u, ids, Link(u, ids) + n);
      if n == |t| {
        TextFound(u, tail, ids, keys, values, p, t, k, rest, n);
        OnlyKeyAnswers(p + t, k);
        assert found <==> rest[n..] == [];
      } else {
        NonzeroByte(t, n);
        TextMissing(u, tail, ids, keys, values, p, t, k, rest, n);
        KeyIsPrefix(p + t);
      }
    }

    lemma NonzeroByte(t: Key, n: nat)
      requires IsText(t) && n < |t|
      ensures t[n] != 0
    {
    }

    lemma KeyIsPrefix(p: Key)
      ensures p in keys ==> PrefixOf(keys, p)
    {
      if p in keys {
        var k := First(keys, p);
        assert p <= keys[k];
      }
    }

    lemma OnlyKeyAnswers(p: Key, k: nat)
      requires |keys| == |values| && AreKeys(keys) && OnlyKey(keys, p, k)
      ensures PrefixOf(keys, p)
      ensures p in keys <==> keys[k][|p|..] == []
      ensures p in keys ==> ValueOf(keys, values, p) == values[k]
    {
      hide AreKeys;
      if p in keys {
        var m := First(keys, p);
        assert m == k;
      }
      if keys[k][|p|..] == [] {
        assert keys[k] in keys;
        assert keys[k] == keys[k][..|p|] + keys[k][|p|..] == p;
      }
    }

    // Common prefixes.

    /** The matches a search from an agent reports.  An agent at the end of its key does not
        report that key again when the text goes on. */
    ghost function Expected(agent: Word, p: Key, text: Key): seq<Match>
      requires |keys| == |values|
    {
      if IsLeaf(agent) && p in keys && text != [] then [] else Matches(keys, values, p, text, |text| + 1)
    }

    method AddResult(results: array<Match>, count: nat, max: nat, m: Match, ghost found: seq<Match>,
                     ghost before: seq<Match>)
      requires Recorded(results[..], before, found, max) && count == |found| && max <= results.Length
      modifies results
      ensures Recorded(results[..], before, found + [m], max)
    {
      if count < max {
        results[count] := m;
      }
    }

    lemma OneMoreMatch(p: Key, text: Key, i: nat)
      requires |keys| == |values| && i <= |text|
      ensures var m, k := Matches(keys, values, p, text, i), p + text[..i];
        Matches(keys, values, p, text, i + 1) == if k in keys then m + [Match(ValueOf(keys, values, k), i)] else m
    {
      hide ValueOf;
    }

    lemma NothingFurther(p: Key, text: Key, i: nat)
      requires |keys| == |values| && i <= |text| && IsText(text)
      requires forall k: nat :: !Goes(keys, k, p + text[..i], ByteAt(text, i))
      ensures var from := if i < |text| then i + 1 else i;
        Matches(keys, values, p, text, |text| + 1) == Matches(keys, values, p, text, from)
    {
      hide ValueOf, Goes;
      var from := if i < |text| then i + 1 else i;
      forall l: nat | from <= l <= |text| ensures p + text[..l] !in keys {
        var t := text[i..l];
        assert ByteAt(t, 0) == ByteAt(text, i);
        NoKey(keys, p + text[..i], t);
        assert p + text[..i] + t == p + text[..l];
      }
      NoMatches(keys, values, p, text, from, |text| + 1);
    }

    /** The loop over the nodes: it may end there, or arrive in a leaf. */
    method PrefixNodes(key: seq<nat>, results: array<Match>, max: nat, length: nat, agent: Word, ghost p: Key)
      returns (done: bool, count: nat, leaf: Word, i: nat)
      requires Valid() && !IsLeaf(agent) && AgentOk(agent, p) && IsQuery(key, length, 0) && max <= results.Length
      modifies results
      ensures |keys| == |values|
      ensures var text := QueryText(key, length, 0);
        && i <= |text| && IsText(text)
        && var m := Matches(keys, values, p, text, if done then |text| + 1 else if i < |text| then i + 1 else i);
           count == |m| && Recorded(results[..], old(results[..]), m, max)
           && (!done ==> exists k: nat, rest: Key ::
                 LeafHere(leaf, tail, ids, keys, values, p + text[..i], ByteAt(text, i), k, rest))
    {
      hide Valid, Standing, QueryText, IsQuery, Xor, Label, Offset, IsLeaf, IsEnd, LinksRest, Index, Link, OnlyKey,
        Goes, LeafHere,
        AreKeys, StoredAt, ValueOf, IsText, QueryByte, Matches, Recorded;
      ghost var text := QueryText(key, length, 0);
      ghost var before := results[..];
      ValidParts();
      QueryBytes(key, length, 0, 0);
      assert p + text[..0] == p;
      NothingRecorded(before, p, text, max);
      done, leaf, count, i := true, agent, 0, 0;
      var index: nat := Index(agent);
      StandingBelow(index, p);
      while true
        invariant i <= |text| && index < |units| && Standing(index, p + text[..i])
        invariant count == |Matches(keys, values, p, text, i)|
        invariant Recorded(results[..], before, Matches(keys, values, p, text, i), max)
        decreases |text| - i
      {
        QueryBytes(key, length, 0, i);
        ByteIsSmall(text, i);
        NulIsEnd(text, i);
        OneMoreMatch(p, text, i);
        NodeEnd(index, p + text[..i]);
        ghost var m := Matches(keys, values, p, text, i);
        var c := QueryByte(key, length, i);
        if c != 0 && IsEnd(units[index]) {
          var stray := units[Xor(index, Offset(units[index]))];
          var value := GetValue(stray, Link(stray, ids), [], ValueOf(keys, values, p + text[..i]));
          AddResult(results, count, max, Match(value, i), m, before);
          count := count + 1;
        }
        StepFrom(index, p + text[..i], c);
        index := Xor(index, Xor(Offset(units[index]), c));
        if IsLeaf(units[index]) {
          return false, count, units[index], i;
        } else if Label(units[index]) != c {
          NothingFurther(p, text, i);
          return true, count, leaf, i;
        }
        Along(p, text, i);
        i := i + 1;
      }
    }

    lemma NothingRecorded(before: seq<Match>, p: Key, text: Key, max: nat)
      requires |keys| == |values|
      ensures Matches(keys, values, p, text, 0) == [] && Recorded(before, before, [], max)
    {
    }

    lemma NotPrefix(rest: Key, t: Key, n: nat)
      requires n <= |rest| && n <= |t| && ByteAt(rest, n) != 0 && ByteAt(rest, n) != ByteAt(t, n)
      ensures !(rest <= t)
    {
    }

    /** How far the rest and the text agree. */
    method MatchRest(link: nat, key: seq<nat>, length: nat, i: nat, ghost rest: Key) returns (pos: nat, j: nat)
      requires IsQuery(key, length, 0) && i <= |QueryText(key, length, 0)|
      requires IsText(rest) && StoredAt(tail, link, rest)
      ensures var t := QueryText(key, length, 0)[i..];
        && link <= pos < |tail| && pos - link == j - i
        && (rest <= t <==> tail[pos] == 0) && (rest <= t ==> pos - link == |rest|)
    {
      hide QueryText, IsQuery;
      ghost var text := QueryText(key, length, 0);
      ghost var t := text[i..];
      pos, j := link, i;
      QueryBytes(key, length, 0, i);
      RestByte(link, rest, 0);
      while tail[pos] != 0 && tail[pos] == QueryByte(key, length, j)
        invariant link <= pos && pos - link == j - i && pos - link <= |rest| && pos - link <= |t|
        invariant rest[..pos - link] == t[..pos - link]
        invariant pos < |tail| && (j < |key| || (length != 0 && j == length))
        invariant tail[pos] == ByteAt(rest, pos - link) && QueryByte(key, length, j) == ByteAt(t, pos - link)
        decreases |rest| - (pos - link)
      {
        RestText(key, length, 0, i);
        pos, j := pos + 1, j + 1;
        QueryBytes(key, length, 0, j);
        RestByte(link, rest, pos - link);
      }
      ghost var n := pos - link;
      if tail[pos] == 0 {
        assert rest == t[..n];
      } else {
        NotPrefix(rest, t, n);
      }
    }

    /** `commonPrefixSearch`: counts the keys that end in the text and stores the first `max`. */
    method CommonPrefixSearch(key: seq<nat>, results: array<Match>, max: nat, length: nat, agent: Word, ghost p: Key)
      returns (count: nat)
      requires Valid() && AgentOk(agent, p) && IsQuery(key, length, 0) && max <= results.Length
      modifies results
      ensures |keys| == |values|
      ensures var m := Expected(agent, p, QueryText(key, length, 0));
        count == |m| && Recorded(results[..], old(results[..]), m, max)
    {
      hide Valid, Standing, QueryText, IsQuery, IsLeaf, LinksRest, Link, OnlyKey, Goes, LeafHere,
        AreKeys, StoredAt, ValueOf, IsText, QueryByte, Matches, Recorded;
      ghost var text := QueryText(key, length, 0);
      ghost var before := results[..];
      ValidParts();
      QueryBytes(key, length, 0, 0);
      assert p + text[..0] == p;
      count := 0;
      var leaf: Word, i: nat := agent, 0;
      ghost var found: seq<Match> := [];
      NothingRecorded(before, p, text, max);
      if !IsLeaf(agent) {
        var done: bool;
        done, count, leaf, i := PrefixNodes(key, results, max, length, agent, p);
        if done {
          return;
        }
        found := Matches(keys, values, p, text, if i < |text| then i + 1 else i);
      } else {
        AgentLeaf(agent, p, ByteAt(text, 0));
      }
      ghost var k: nat, rest: Key :| LeafHere(leaf, tail, ids, keys, values, p + text[..i], ByteAt(text, i), k, rest);
      LeafParts(leaf, p + text[..i], ByteAt(text, i), k, rest);
      LeafMatches(leaf, tail, ids, keys, values, p, text, i, k, rest);
      if IsLeaf(agent) { FromLeaf(agent, p, text, k, rest); }
      QueryBytes(key, length, 0, i);
      RestByte(Link(leaf, ids), rest, 0);
      if tail[Link(leaf, ids)] != QueryByte(key, length, i) {
        return;
      }
      var pos: nat, j: nat;
      pos, j := MatchRest(Link(leaf, ids), key, length, i, rest);
      if tail[pos] == 0 {
        var value := GetValue(leaf, pos, rest, values[k]);
        AddResult(results, count, max, Match(value, j), found, before);
        count := count + 1;
      }
    }

    /** A leaf agent has nothing recorded, and its key may already be complete. */
    lemma FromLeaf(agent: Word, p: Key, text: Key, k: nat, rest: Key)
      requires Valid() && IsLeaf(agent) && AgentOk(agent, p) && IsText(text)
      requires LeafHere(agent, tail, ids, keys, values, p, ByteAt(text, 0), k, rest)
      ensures |keys| == |values|
      ensures p !in keys || text == [] ==> Matches(keys, values, p, text, if 0 < |text| then 1 else 0) == []
      ensures p in keys && text != [] ==> ByteAt(rest, 0) != ByteAt(text, 0)
    {
      hide Whole, EmptyArray, AreKeys, LinksRest, ValueOf;
      assert p + text[..0] == p;
      var i: nat :| OnlyKey(keys, p, i) && LinksRest(agent, tail, ids, keys[i][|p|..], values[i]);
      if p in keys {
        var m := First(keys, p);
        assert m == i && keys[i] == p;
        var goes := Goes(keys, k, p, ByteAt(text, 0));
      }
    }
  }
}
