/** The minimal-prefix trie in the array.

    A node is a span of the sorted keys that agree in their first `depth` bytes.  Edges that only
    one key takes end in a leaf, whose key goes on in the tail. */
module CloneTrie {
  import opened Bits
  import opened Language
  import opened CloneUnit
  import opened FreeRing

  datatype Span = Span(begin: nat, end: nat, depth: nat)

  /** Keys without NUL in increasing order, and so without repetition. */
  ghost predicate AreKeys(keys: seq<Key>) {
    && (forall i :: 0 <= i < |keys| ==> IsText(keys[i]))
    && (forall i, j :: 0 <= i < j < |keys| ==> Less(keys[i], keys[j]))
  }

  predicate Agree(a: Key, b: Key, d: nat) {
    d <= |a| && d <= |b| && a[..d] == b[..d]
  }

  /** Exactly the keys of the span agree with its first key. */
  ghost predicate SpanOk(keys: seq<Key>, s: Span) {
    && s.begin < s.end <= |keys|
    && forall i :: 0 <= i < |keys| ==> (s.begin <= i < s.end <==> Agree(keys[s.begin], keys[i], s.depth))
  }

  /** `t` are the keys of `s` that go on with `c`. */
  ghost predicate IsChild(keys: seq<Key>, s: Span, c: nat, t: Span) {
    && SpanOk(keys, s)
    && t.depth == s.depth + 1 && s.begin <= t.begin < t.end <= s.end
    && forall i :: s.begin <= i < s.end ==> (ByteAt(keys[i], s.depth) == c <==> t.begin <= i < t.end)
  }

  ghost predicate Occurs(keys: seq<Key>, s: Span, c: nat)
    requires SpanOk(keys, s)
  {
    exists i :: s.begin <= i < s.end && ByteAt(keys[i], s.depth) == c
  }

  lemma InSpan(keys: seq<Key>, s: Span, i: nat)
    requires SpanOk(keys, s) && s.begin <= i < s.end
    ensures i < |keys| && s.depth <= |keys[i]| && s.depth <= |keys[s.begin]|
      && keys[i][..s.depth] == keys[s.begin][..s.depth]
  {
  }

  lemma ByteBound(keys: seq<Key>, s: Span, i: nat)
    requires AreKeys(keys) && SpanOk(keys, s) && s.begin <= i < s.end
    ensures i < |keys| && s.depth <= |keys[i]| && ByteAt(keys[i], s.depth) < 256
  {
    InSpan(keys, s, i);
    assert IsText(keys[i]);
  }

  lemma AgreeMore(a: Key, b: Key, d: nat)
    ensures Agree(a, b, d + 1) <==> Agree(a, b, d) && d < |a| && d < |b| && a[d] == b[d]
  {
    if d < |a| && d < |b| {
      assert a[..d + 1] == a[..d] + [a[d]] && b[..d + 1] == b[..d] + [b[d]];
      if Agree(a, b, d + 1) {
        assert a[..d] == a[..d + 1][..d] && a[d] == a[..d + 1][d];
      }
    }
  }

  /** The span of an edge that is no terminator is a node. */
  lemma ChildSpanOk(keys: seq<Key>, s: Span, c: nat, t: Span)
    requires AreKeys(keys) && IsChild(keys, s, c, t) && c != 0
    ensures SpanOk(keys, t)
  {
    var a := keys[t.begin];
    InSpan(keys, s, t.begin);
    forall i | 0 <= i < |keys| ensures t.begin <= i < t.end <==> Agree(a, keys[i], t.depth) {
      AgreeMore(a, keys[i], s.depth);
      if s.begin <= i < s.end {
        InSpan(keys, s, i);
      } else {
        assert !Agree(keys[s.begin], keys[i], s.depth);
      }
    }
  }

  /** Only one key ends in a node. */
  lemma TerminatorIsSingle(keys: seq<Key>, s: Span, t: Span)
    requires AreKeys(keys) && IsChild(keys, s, 0, t)
    ensures t.end == t.begin + 1 && |keys[t.begin]| == s.depth
  {
    EndsThere(keys, s, t.begin);
    if t.end > t.begin + 1 {
      assert Less(keys[t.begin], keys[t.begin + 1]);
      EndsThere(keys, s, t.begin + 1);
      InSpan(keys, s, t.begin);
      InSpan(keys, s, t.begin + 1);
      assert keys[t.begin][..s.depth] == keys[t.begin] && keys[t.begin + 1][..s.depth] == keys[t.begin + 1];
      LessIrreflexive(keys[t.begin]);
    }
  }

  lemma EndsThere(keys: seq<Key>, s: Span, i: nat)
    requires AreKeys(keys) && SpanOk(keys, s) && s.begin <= i < s.end && ByteAt(keys[i], s.depth) == 0
    ensures |keys[i]| == s.depth
  {
    InSpan(keys, s, i);
    assert IsText(keys[i]);
  }

  lemma RootSpan(keys: seq<Key>)
    requires keys != []
    ensures SpanOk(keys, Span(0, |keys|, 0))
  {
  }

  /** Inside a span the next bytes do not decrease. */
  lemma BytesSorted(keys: seq<Key>, s: Span, i: nat, j: nat)
    requires AreKeys(keys) && SpanOk(keys, s) && s.begin <= i <= j < s.end
    ensures s.depth <= |keys[i]| && s.depth <= |keys[j]| && ByteAt(keys[i], s.depth) <= ByteAt(keys[j], s.depth)
  {
    InSpan(keys, s, i);
    InSpan(keys, s, j);
    if i < j {
      assert Less(keys[i], keys[j]);
      if ByteAt(keys[j], s.depth) < ByteAt(keys[i], s.depth) { LessAt(keys[j], keys[i], s.depth); }
    }
  }

  // Runs of equal bytes.

  /** The first `at - begin` keys of a span, split into runs of equal bytes. */
  ghost predicate Runs(keys: seq<Key>, s: Span, labels: seq<nat>, ranges: seq<(nat, nat)>, at: nat)
    requires SpanOk(keys, s)
  {
    && |labels| == |ranges| && labels != []
    && ranges[0].0 == s.begin && ranges[|ranges| - 1].1 == at <= s.end
    && (forall j :: 0 <= j < |ranges| ==> s.begin <= ranges[j].0 < ranges[j].1 <= at)
    && (forall j :: 0 <= j < |ranges| - 1 ==> ranges[j].1 == ranges[j + 1].0)
    && (forall j, i :: 0 <= j < |ranges| && ranges[j].0 <= i < ranges[j].1 ==> ByteAt(keys[i], s.depth) == labels[j])
    && Increasing(labels)
  }

  lemma {:induction false} InSomeRun(ranges: seq<(nat, nat)>, n: nat, i: nat) returns (j: nat)
    requires 0 < n <= |ranges| && ranges[0].0 <= i < ranges[n - 1].1
    requires forall k :: 0 <= k < n - 1 ==> ranges[k].1 == ranges[k + 1].0
    ensures j < n && ranges[j].0 <= i < ranges[j].1
    decreases n
  {
    if n == 1 || i >= ranges[n - 1].0 {
      j := n - 1;
    } else {
      j := InSomeRun(ranges, n - 1, i);
    }
  }

  lemma RunIsChild(keys: seq<Key>, s: Span, labels: seq<nat>, ranges: seq<(nat, nat)>, j: nat)
    requires AreKeys(keys) && SpanOk(keys, s) && Runs(keys, s, labels, ranges, s.end) && j < |ranges|
    ensures IsChild(keys, s, labels[j], Span(ranges[j].0, ranges[j].1, s.depth + 1))
    ensures labels[j] < 256
  {
    forall i: nat | s.begin <= i < s.end
      ensures ByteAt(keys[i], s.depth) == labels[j] <==> ranges[j].0 <= i < ranges[j].1
    {
      var k := InSomeRun(ranges, |ranges|, i);
      if k < j { assert labels[k] < labels[j]; }
      if j < k { assert labels[j] < labels[k]; }
    }
    ByteBound(keys, s, ranges[j].0);
  }

  lemma LabelsOccur(keys: seq<Key>, s: Span, labels: seq<nat>, ranges: seq<(nat, nat)>, c: nat)
    requires SpanOk(keys, s) && Runs(keys, s, labels, ranges, s.end)
    ensures Occurs(keys, s, c) <==> c in labels
  {
    if Occurs(keys, s, c) {
      var i :| s.begin <= i < s.end && ByteAt(keys[i], s.depth) == c;
      var j := InSomeRun(ranges, |ranges|, i);
      assert labels[j] == c;
    }
    if c in labels {
      var j :| 0 <= j < |labels| && labels[j] == c;
      assert s.begin <= ranges[j].0 < s.end && ByteAt(keys[ranges[j].0], s.depth) == c;
    }
  }

  // The trie in the array.

  datatype Scheme = Scheme(owner: map<nat, nat>, node: map<nat, Span>, child: map<nat, Span>, waiting: set<nat>) {
    /** The label a slot stands for. */
    ghost function LabelOf(q: nat): nat
      requires q in owner
    {
      Xor(owner[q], q)
    }

    /** A finished edge that only one key takes. */
    ghost predicate IsLeafSlot(q: nat) {
      q in child && q != 0 && q !in waiting && child[q].end == child[q].begin + 1
    }
  }

  /** The unit of slot `q` leads to the node of its span. */
  ghost predicate LinksTo(units: seq<Word>, keys: seq<Key>, sch: Scheme, q: nat)
    requires q < |units| && q in sch.child
  {
    var b := Xor(q, Offset(units[q]));
    b in sch.node && sch.node[b] == sch.child[q]
    && SpanOk(keys, sch.child[q]) && (IsEnd(units[q]) <==> Occurs(keys, sch.child[q], 0))
  }

  /** Whose edge a slot is; slot 0 is the root and slot 1 holds the size of the array. */
  ghost predicate SlotOwned(keys: seq<Key>, sch: Scheme, q: nat)
    requires q in sch.owner
  {
    if q == 0 then sch.owner[0] == 0 && 0 in sch.child && sch.child[0] == Span(0, |keys|, 0)
    else if q == 1 then sch.owner[1] == 0 && 1 !in sch.child
    else
      sch.owner[q] in sch.node && sch.LabelOf(q) < 256 && q in sch.child
      && IsChild(keys, sch.node[sch.owner[q]], sch.LabelOf(q), sch.child[q])
  }

  ghost predicate UnitOk(units: seq<Word>, keys: seq<Key>, sch: Scheme, q: nat)
    requires q in sch.owner && q < |units|
  {
    if q == 1 then !IsLeaf(units[1]) && Label(units[1]) == 1
    else if q in sch.waiting then !IsLeaf(units[q]) && !IsEnd(units[q]) && Label(units[q]) == sch.LabelOf(q)
    else if sch.IsLeafSlot(q) then IsLeaf(units[q])
    else q in sch.child && !IsLeaf(units[q]) && Label(units[q]) == sch.LabelOf(q) && LinksTo(units, keys, sch, q)
  }

  /** Every edge of a node has its slot. */
  ghost predicate NodeOk(keys: seq<Key>, sch: Scheme, b: nat)
    requires b in sch.node
  {
    && b != 0 && SpanOk(keys, sch.node[b])
    && forall c :: c < 256 && Occurs(keys, sch.node[b], c) ==> Xor(b, c) in sch.owner && sch.owner[Xor(b, c)] == b
  }

  /** All slots but `x` are in order; `x` is the one being worked on. */
  ghost predicate TrieBut(units: seq<Word>, keys: seq<Key>, sch: Scheme, x: nat) {
    && 0 in sch.owner && 1 in sch.owner && sch.waiting <= sch.owner.Keys - {1}
    && sch.child.Keys == sch.owner.Keys - {1}
    && (forall q :: q in sch.owner ==>
       q < |units| && SlotOwned(keys, sch, q)
       && (q != x ==> UnitOk(units, keys, sch, q)))
    && (forall b :: b in sch.node ==> NodeOk(keys, sch, b))
  }

  ghost predicate TrieOk(units: seq<Word>, keys: seq<Key>, sch: Scheme) {
    && TrieBut(units, keys, sch, 1)
    && UnitOk(units, keys, sch, 1)
  }

  lemma OneUnit(units: seq<Word>, keys: seq<Key>, sch: Scheme, x: nat)
    requires TrieBut(units, keys, sch, x) && x in sch.owner
    ensures x < |units| && SlotOwned(keys, sch, x)
    ensures x != 1 ==> x in sch.child
  {
    hide UnitOk, NodeOk, IsChild;
  }

  lemma TrieParts(units: seq<Word>, keys: seq<Key>, sch: Scheme, x: nat)
    requires TrieOk(units, keys, sch)
    ensures TrieBut(units, keys, sch, x)
    ensures x in sch.owner ==> x < |units| && UnitOk(units, keys, sch, x) && SlotOwned(keys, sch, x)
  {
    hide UnitOk, NodeOk, SlotOwned;
  }

  /** Only reserved slots matter, and not the one being worked on. */
  lemma FrameTrie(units: seq<Word>, units': seq<Word>, keys: seq<Key>, sch: Scheme, x: nat)
    requires TrieBut(units, keys, sch, x) && |units| <= |units'|
    requires forall q :: q in sch.owner && q != x && q < |units| ==> units'[q] == units[q]
    ensures TrieBut(units', keys, sch, x)
  {
    hide NodeOk, SlotOwned, UnitOk;
    forall q | q in sch.owner && q != x ensures q < |units'| && UnitOk(units', keys, sch, q) {
      UnitSame(units, units', keys, sch, q);
    }
  }

  lemma UnitSame(units: seq<Word>, units': seq<Word>, keys: seq<Key>, sch: Scheme, q: nat)
    requires q in sch.owner && q < |units| <= |units'| && units'[q] == units[q] && UnitOk(units, keys, sch, q)
    requires q == 1 ==> units'[1] == units[1]
    ensures UnitOk(units', keys, sch, q)
  {
    hide SpanOk, Occurs, IsLeaf, IsEnd, Label, Offset, Xor;
  }

  /** The slot of an edge that only one key takes becomes a leaf. */
  function Finished(sch: Scheme, x: nat): Scheme {
    sch.(waiting := sch.waiting - {x})
  }

  lemma LeafKeeps(units: seq<Word>, keys: seq<Key>, sch: Scheme, x: nat)
    requires TrieOk(units, keys, sch) && x in sch.waiting && x != 0 && x in sch.child
    requires sch.child[x].end == sch.child[x].begin + 1
    ensures x < |units| && TrieOk(units[x := WithLeaf(units[x])], keys, Finished(sch, x))
  {
    hide NodeOk, SlotOwned, UnitOk, WithLeaf;
    TrieParts(units, keys, sch, x);
    var units', sch' := units[x := WithLeaf(units[x])], Finished(sch, x);
    FrameTrie(units, units', keys, sch, x);
    forall q | q in sch'.owner ensures SlotOwned(keys, sch', q) && UnitOk(units', keys, sch', q) {
      SlotFinished(keys, sch, x, q);
      if q == x {
        LeafUnit(units, keys, sch, x);
      } else {
        TrieParts(units, keys, sch, q);
        UnitSame(units, units', keys, sch, q);
        UnitFinished(units', keys, sch, x, q);
      }
    }
    forall b | b in sch'.node ensures NodeOk(keys, sch', b) {
      NodeFinished(keys, sch, x, b);
    }
  }

  lemma LeafUnit(units: seq<Word>, keys: seq<Key>, sch: Scheme, x: nat)
    requires x in sch.owner && x < |units| && x != 0 && x != 1 && x in sch.child
      && sch.child[x].end == sch.child[x].begin + 1
    ensures UnitOk(units[x := WithLeaf(units[x])], keys, Finished(sch, x), x)
  {
    hide Label, IsEnd, Offset, Xor;
    LeafRoundTrip(units[x]);
  }

  lemma SlotFinished(keys: seq<Key>, sch: Scheme, x: nat, q: nat)
    requires q in sch.owner && SlotOwned(keys, sch, q)
    ensures SlotOwned(keys, Finished(sch, x), q)
  {
    hide IsChild, Xor;
  }

  lemma UnitFinished(units: seq<Word>, keys: seq<Key>, sch: Scheme, x: nat, q: nat)
    requires q in sch.owner && q < |units| && UnitOk(units, keys, sch, q) && q != x
    ensures UnitOk(units, keys, Finished(sch, x), q)
  {
    hide SpanOk, Occurs, IsLeaf, IsEnd, Label, Offset, Xor;
  }

  lemma NodeFinished(keys: seq<Key>, sch: Scheme, x: nat, b: nat)
    requires b in sch.node && NodeOk(keys, sch, b)
    ensures NodeOk(keys, Finished(sch, x), b)
  {
    hide SpanOk, Occurs, Xor;
  }

  // Placing a node.

  function IndexOf(labels: seq<nat>, c: nat): (j: nat)
    requires c in labels
    ensures j < |labels| && labels[j] == c
  {
    if labels[0] == c then 0 else 1 + IndexOf(labels[1..], c)
  }

  ghost function SlotSet(b: nat, labels: seq<nat>): set<nat> {
    set j | 0 <= j < |labels| :: Xor(b, labels[j])
  }

  lemma InSlotSet(b: nat, labels: seq<nat>, q: nat)
    ensures q in SlotSet(b, labels) <==> Xor(b, q) in labels
    ensures forall j :: 0 <= j < |labels| ==>
      Xor(b, labels[j]) in SlotSet(b, labels)
      && Xor(b, Xor(b, labels[j])) == labels[j]
  {
    hide Xor;
    if q in SlotSet(b, labels) {
      var j :| 0 <= j < |labels| && Xor(b, labels[j]) == q;
      XorCancel(b, labels[j]);
    }
    if Xor(b, q) in labels {
      var j :| 0 <= j < |labels| && labels[j] == Xor(b, q);
      XorCancel(b, q);
    }
    forall j | 0 <= j < |labels| ensures Xor(b, Xor(b, labels[j])) == labels[j] {
      XorCancel(b, labels[j]);
    }
  }

  /** The scheme after the span of slot `x` has been placed at `b`. */
  ghost function Placed(sch: Scheme, x: nat, b: nat, labels: seq<nat>, ranges: seq<(nat, nat)>): Scheme
    requires x in sch.child && |ranges| == |labels|
  {
    var s := sch.child[x];
    Scheme(sch.owner + (map q | q in SlotSet(b, labels) :: b),
           sch.node[b := s],
           sch.child + (map q | q in SlotSet(b, labels) :: SpanAt(s, labels, ranges, Xor(b, q))),
           sch.waiting - {x} + SlotSet(b, labels))
  }

  ghost function SpanAt(s: Span, labels: seq<nat>, ranges: seq<(nat, nat)>, c: nat): Span
    requires |ranges| == |labels|
  {
    if c in labels then
      var j := IndexOf(labels, c);
      Span(ranges[j].0, ranges[j].1, s.depth + 1)
    else s
  }

  /** The base is new and so are its slots. */
  ghost predicate CanPlace(sch: Scheme, x: nat, b: nat, labels: seq<nat>) {
    && b != 0 && b !in sch.node && SlotSet(b, labels) !! sch.owner.Keys
  }

  lemma PlacedOwner(sch: Scheme, x: nat, b: nat, labels: seq<nat>, ranges: seq<(nat, nat)>, q: nat)
    requires x in sch.child && |ranges| == |labels|
    ensures var sch' := Placed(sch, x, b, labels, ranges);
      && (q in sch'.owner <==> q in sch.owner || q in SlotSet(b, labels))
      && (q in sch.owner && q !in SlotSet(b, labels) ==> sch'.owner[q] == sch.owner[q])
      && (q in SlotSet(b, labels) ==> sch'.owner[q] == b)
      && (q in sch'.child <==> q in sch.child || q in SlotSet(b, labels))
      && (q in sch.child && q !in SlotSet(b, labels) ==> sch'.child[q] == sch.child[q])
      && (q in SlotSet(b, labels) ==> sch'.child[q] == SpanAt(sch.child[x], labels, ranges, Xor(b, q)))
      && (q in sch'.waiting <==> q in SlotSet(b, labels) || (q in sch.waiting && q != x))
  {
    hide SlotSet, SpanAt, Xor;
  }

  /** The unit of a new slot: only the label. */
  ghost predicate FreshUnit(u: Word, c: nat) {
    !IsLeaf(u) && !IsEnd(u) && Label(u) == c
  }

  ghost predicate ReadyToPlace(units: seq<Word>, keys: seq<Key>, sch: Scheme, x: nat, b: nat, labels: seq<nat>,
                               ranges: seq<(nat, nat)>) {
    && |ranges| == |labels| && AreKeys(keys) && TrieBut(units, keys, sch, x) && x in sch.child && x in sch.owner
       && x != 1
    && SpanOk(keys, sch.child[x]) && Runs(keys, sch.child[x], labels, ranges, sch.child[x].end)
    && CanPlace(sch, x, b, labels)
    && (forall j :: 0 <= j < |labels| ==> Xor(b, labels[j]) < |units| && FreshUnit(units[Xor(b, labels[j])], labels[j]))
    && (x == 0 || sch.child[x].end > sch.child[x].begin + 1)
    && x < |units| && !IsLeaf(units[x]) && Label(units[x]) == sch.LabelOf(x)
    && Xor(x, Offset(units[x])) == b && (IsEnd(units[x]) <==> 0 in labels)
  }

  lemma PlaceKeeps(units: seq<Word>, keys: seq<Key>, sch: Scheme, x: nat, b: nat, labels: seq<nat>,
                   ranges: seq<(nat, nat)>)
    requires ReadyToPlace(units, keys, sch, x, b, labels, ranges)
    ensures TrieOk(units, keys, Placed(sch, x, b, labels, ranges))
  {
    hide NodeOk, SlotOwned, UnitOk, SpanOk, Runs, FreshUnit, SlotSet, Placed, Xor, Label, IsLeaf, IsEnd, Offset,
      AreKeys;
    var sch' := Placed(sch, x, b, labels, ranges);
    forall q ensures q in sch'.owner <==> q in sch.owner || q in SlotSet(b, labels) {
      if q >= 0 { PlacedOwner(sch, x, b, labels, ranges, q); }
    }
    forall q | q in sch'.owner ensures q < |units| && SlotOwned(keys, sch', q) && UnitOk(units, keys, sch', q) {
      PlacedOwner(sch, x, b, labels, ranges, q);
      if q in SlotSet(b, labels) {
        NewSlot(units, keys, sch, x, b, labels, ranges, q);
      } else if q == x {
        WorkedSlot(units, keys, sch, x, b, labels, ranges);
      } else {
        OldSlot(units, keys, sch, x, b, labels, ranges, q);
      }
    }
    PlacedKeys(sch, x, b, labels, ranges);
    forall y | y in sch'.node ensures NodeOk(keys, sch', y) {
      PlacedNode(units, keys, sch, x, b, labels, ranges, y);
    }
  }

  lemma PlacedKeys(sch: Scheme, x: nat, b: nat, labels: seq<nat>, ranges: seq<(nat, nat)>)
    requires x in sch.child && |ranges| == |labels| && sch.child.Keys == sch.owner.Keys - {1}
      && 1 !in SlotSet(b, labels)
    requires sch.waiting <= sch.owner.Keys - {1}
    ensures var sch' := Placed(sch, x, b, labels, ranges);
      sch'.child.Keys == sch'.owner.Keys - {1} && sch'.waiting <= sch'.owner.Keys - {1}
        && sch'.node.Keys == sch.node.Keys + {b}
  {
    hide SlotSet, SpanAt, Xor;
  }

  lemma NewSlot(units: seq<Word>, keys: seq<Key>, sch: Scheme, x: nat, b: nat, labels: seq<nat>,
                ranges: seq<(nat, nat)>, q: nat)
    requires ReadyToPlace(units, keys, sch, x, b, labels, ranges) && q in SlotSet(b, labels)
    ensures q < |units| && q != 0 && q != 1 && q in Placed(sch, x, b, labels, ranges).owner
    ensures SlotOwned(keys, Placed(sch, x, b, labels, ranges), q)
      && UnitOk(units, keys, Placed(sch, x, b, labels, ranges), q)
  {
    hide NodeOk, Xor, Label, IsLeaf, IsEnd, Offset, TrieBut, Runs, SpanOk, AreKeys, SlotSet;
    InSlotSet(b, labels, q);
    NotReserved(units, keys, sch, x, q, SlotSet(b, labels));
    PlacedOwner(sch, x, b, labels, ranges, q);
    var j := IndexOf(labels, Xor(b, q));
    RunIsChild(keys, sch.child[x], labels, ranges, j);
    XorCancel(b, q);
    assert Xor(b, labels[j]) == q;
    assert FreshUnit(units[Xor(b, labels[j])], labels[j]);
  }

  lemma NotReserved(units: seq<Word>, keys: seq<Key>, sch: Scheme, x: nat, q: nat, slots: set<nat>)
    requires TrieBut(units, keys, sch, x) && slots !! sch.owner.Keys && q in slots
    ensures q != 0 && q != 1
  {
    hide NodeOk, SlotOwned, UnitOk;
  }

  lemma OldSlot(units: seq<Word>, keys: seq<Key>, sch: Scheme, x: nat, b: nat, labels: seq<nat>,
                ranges: seq<(nat, nat)>, q: nat)
    requires ReadyToPlace(units, keys, sch, x, b, labels, ranges) && q in sch.owner && q !in SlotSet(b, labels)
      && q != x
    ensures q < |units| && q in Placed(sch, x, b, labels, ranges).owner
    ensures SlotOwned(keys, Placed(sch, x, b, labels, ranges), q)
      && UnitOk(units, keys, Placed(sch, x, b, labels, ranges), q)
  {
    hide NodeOk, Xor, Label, IsLeaf, IsEnd, Offset, Runs, SpanOk, AreKeys, SlotSet, IsChild, Placed, Occurs, FreshUnit;
    var sch' := Placed(sch, x, b, labels, ranges);
    PlacedOwner(sch, x, b, labels, ranges, q);
    PlacedNodes(sch, x, b, labels, ranges);
    assert UnitOk(units, keys, sch, q) && SlotOwned(keys, sch, q);
  }

  lemma PlacedNodes(sch: Scheme, x: nat, b: nat, labels: seq<nat>, ranges: seq<(nat, nat)>)
    requires x in sch.child && |ranges| == |labels|
    ensures var sch' := Placed(sch, x, b, labels, ranges);
      && b in sch'.node && sch'.node[b] == sch.child[x]
      && forall y :: y in sch.node && y != b ==> y in sch'.node && sch'.node[y] == sch.node[y]
  {
    hide SlotSet, SpanAt, Xor;
  }

  lemma WorkedSlot(units: seq<Word>, keys: seq<Key>, sch: Scheme, x: nat, b: nat, labels: seq<nat>,
                   ranges: seq<(nat, nat)>)
    requires ReadyToPlace(units, keys, sch, x, b, labels, ranges) && x !in SlotSet(b, labels)
    ensures x in Placed(sch, x, b, labels, ranges).owner
    ensures SlotOwned(keys, Placed(sch, x, b, labels, ranges), x)
      && UnitOk(units, keys, Placed(sch, x, b, labels, ranges), x)
  {
    hide NodeOk, Xor, Label, IsLeaf, IsEnd, Offset, Runs, SpanOk, AreKeys, SlotSet, IsChild, Placed, Occurs, FreshUnit,
      TrieBut;
    OneUnit(units, keys, sch, x);
    PlacedOwner(sch, x, b, labels, ranges, x);
    PlacedNodes(sch, x, b, labels, ranges);
    LabelsOccur(keys, sch.child[x], labels, ranges, 0);
    OwnerIsOld(keys, sch, x, b);
  }

  lemma OwnerIsOld(keys: seq<Key>, sch: Scheme, x: nat, b: nat)
    requires x in sch.owner && SlotOwned(keys, sch, x) && b !in sch.node && x != 1
    ensures x != 0 ==> sch.owner[x] in sch.node && sch.owner[x] != b
  {
    hide IsChild, Xor;
  }

  lemma PlacedNode(units: seq<Word>, keys: seq<Key>, sch: Scheme, x: nat, b: nat, labels: seq<nat>,
                   ranges: seq<(nat, nat)>, y: nat)
    requires ReadyToPlace(units, keys, sch, x, b, labels, ranges) && y in Placed(sch, x, b, labels, ranges).node
    ensures NodeOk(keys, Placed(sch, x, b, labels, ranges), y)
  {
    hide Xor, Label, IsLeaf, IsEnd, Offset, Runs, SpanOk, AreKeys, SlotSet, IsChild, Placed, Occurs, FreshUnit, UnitOk,
      SlotOwned;
    var sch' := Placed(sch, x, b, labels, ranges);
    PlacedNodes(sch, x, b, labels, ranges);
    PlacedKeys'(sch, x, b, labels, ranges);
    if y == b {
      forall c | c < 256 && Occurs(keys, sch'.node[b], c) ensures Xor(b, c) in sch'.owner
        && sch'.owner[Xor(b, c)] == b {
        LabelsOccur(keys, sch.child[x], labels, ranges, c);
        XorCancel(b, c);
        InSlotSet(b, labels, Xor(b, c));
        PlacedOwner(sch, x, b, labels, ranges, Xor(b, c));
      }
    } else {
      assert NodeOk(keys, sch, y);
      forall c | c < 256 && Occurs(keys, sch'.node[y], c) ensures Xor(y, c) in sch'.owner
        && sch'.owner[Xor(y, c)] == y {
        PlacedOwner(sch, x, b, labels, ranges, Xor(y, c));
      }
    }
  }

  lemma PlacedKeys'(sch: Scheme, x: nat, b: nat, labels: seq<nat>, ranges: seq<(nat, nat)>)
    requires x in sch.child && |ranges| == |labels|
    ensures Placed(sch, x, b, labels, ranges).node.Keys == sch.node.Keys + {b}
  {
    hide SlotSet, SpanAt, Xor;
  }

  // Listing the labels of a span.

  lemma FirstRun(keys: seq<Key>, s: Span, c: nat)
    requires AreKeys(keys) && SpanOk(keys, s) && s.depth <= |keys[s.begin]| && c == ByteAt(keys[s.begin], s.depth)
    ensures Runs(keys, s, [c], [(s.begin, s.begin + 1)], s.begin + 1)
  {
  }

  /** The key at `at` goes on with the last label. */
  lemma RunGoesOn(keys: seq<Key>, s: Span, labels: seq<nat>, ranges: seq<(nat, nat)>, from: nat, at: nat)
    requires SpanOk(keys, s) && Runs(keys, s, labels, ranges + [(from, at)], at) && at < s.end
    requires s.depth <= |keys[at]| && ByteAt(keys[at], s.depth) == labels[|labels| - 1]
    ensures Runs(keys, s, labels, ranges + [(from, at + 1)], at + 1)
  {
    var r, t := ranges + [(from, at)], ranges + [(from, at + 1)];
    forall j | 0 <= j < |ranges| ensures t[j] == r[j] {
    }
    forall j, i | 0 <= j < |t| && t[j].0 <= i < t[j].1
      ensures i < |keys| && s.depth <= |keys[i]| && ByteAt(keys[i], s.depth) == labels[j]
    {
      InSpan(keys, s, i);
      if i < at { assert r[j].0 <= i < r[j].1; }
    }
  }

  /** The key at `at` starts a new run. */
  lemma RunStarts(keys: seq<Key>, s: Span, labels: seq<nat>, ranges: seq<(nat, nat)>, from: nat, at: nat)
    requires AreKeys(keys) && SpanOk(keys, s) && Runs(keys, s, labels, ranges + [(from, at)], at) && at < s.end
    requires s.depth <= |keys[at]| && ByteAt(keys[at], s.depth) != labels[|labels| - 1]
    ensures Runs(keys, s, labels + [ByteAt(keys[at], s.depth)], ranges + [(from, at)] + [(at, at + 1)], at + 1)
  {
    var r := ranges + [(from, at)];
    var c := ByteAt(keys[at], s.depth);
    var t, l := r + [(at, at + 1)], labels + [c];
    assert r[|r| - 1] == (from, at);
    BytesSorted(keys, s, at - 1, at);
    assert labels[|labels| - 1] < c;
    forall i, j | 0 <= i < j < |l| ensures l[i] < l[j] {
      if j == |labels| && i < |labels| - 1 { assert labels[i] < labels[|labels| - 1]; }
    }
    forall j | 0 <= j < |r| ensures t[j] == r[j] && l[j] == labels[j] {
    }
    hide SpanOk;
    forall j, i | 0 <= j < |t| && t[j].0 <= i < t[j].1 ensures ByteAt(keys[i], s.depth) == l[j] {
    }
  }

  // The start.

  lemma StartTrie(units: seq<Word>, keys: seq<Key>)
    requires |units| >= 2 && units[0] == WithLabel(WithOffset(0, 1), 0) && units[1] == WithLabel(0, 1)
    ensures TrieOk(units, keys, Scheme(map[0 := 0, 1 := 0], map[], map[0 := Span(0, |keys|, 0)], {0}))
  {
    hide Label, IsLeaf, IsEnd, Offset, Xor, WithLabel, WithOffset;
    ZeroUnit();
    OffsetRoundTrip(0, 1);
    LabelRoundTrip(WithOffset(0, 1), 0);
    LabelRoundTrip(0, 1);
    XorZero(0);
  }

  /** A span with several keys below an edge is a node. */
  lemma InnerSpan(units: seq<Word>, keys: seq<Key>, sch: Scheme, x: nat)
    requires AreKeys(keys) && TrieOk(units, keys, sch) && x in sch.child && sch.child[x].begin < sch.child[x].end
    requires x == 0 || sch.child[x].end > sch.child[x].begin + 1
    ensures SpanOk(keys, sch.child[x])
  {
    hide UnitOk, NodeOk, IsChild, AreKeys, Xor, SpanOk;
    TrieParts(units, keys, sch, x);
    ChildKeys(units, keys, sch);
    if x == 0 {
      RootSpan(keys);
    } else {
      var c := sch.LabelOf(x);
      if c == 0 {
        TerminatorIsSingle(keys, sch.node[sch.owner[x]], sch.child[x]);
      } else {
        ChildSpanOk(keys, sch.node[sch.owner[x]], c, sch.child[x]);
      }
    }
  }

  lemma ChildKeys(units: seq<Word>, keys: seq<Key>, sch: Scheme)
    requires TrieOk(units, keys, sch)
    ensures sch.child.Keys == sch.owner.Keys - {1} && sch.waiting <= sch.owner.Keys - {1}
    ensures 0 in sch.owner && 1 in sch.owner
  {
    hide UnitOk, NodeOk, SlotOwned;
  }

  lemma ChildDepth(units: seq<Word>, keys: seq<Key>, sch: Scheme, x: nat)
    requires TrieOk(units, keys, sch) && x in sch.child && x != 0
    ensures sch.child[x].depth > 0
  {
    hide UnitOk, NodeOk, Xor, SpanOk;
    ChildKeys(units, keys, sch);
    TrieParts(units, keys, sch, x);
  }
}
