/** Placing one node of the trie: what both ways of building the array share. */
module DartsPlace {
  import opened Bits
  import opened DartsUnit
  import opened Language
  import opened Layout
  import opened FreeRing
  import opened DartsBuilder
  import opened DartsSearch

  /** The builder is between two placements. */
  ghost predicate Ready(b: DoubleArrayBuilder)
    reads b`units, b`lo, b`extras, b`extrasHead, b`free, b`plan
  {
    && b.SlackOk() && b.PlanOk() && Settled(b.units, b.lo, b.free, b.plan, {}) && b.lo == LiveFrom(|b.units|)
    && 0 in b.plan.owner && b.plan.active == {}
  }

  /** Nothing is forgotten: placed nodes and owned slots stay. */
  ghost predicate Extends(p: Plan, q: Plan) {
    && q.root == p.root
    && (forall x :: x in p.bases ==> x in q.bases && q.bases[x] == p.bases[x])
    && (forall x :: x in p.owner ==> x in q.owner && q.owner[x] == p.owner[x])
  }

  lemma ExtendsMore(p: Plan, q: Plan, r: Plan)
    requires Extends(p, q) && Extends(q, r)
    ensures Extends(p, r)
  {
  }

  /** The slot `p` waits for the node `lang`. */
  ghost predicate Waits(plan: Plan, p: nat, lang: Lang) {
    p in plan.pending && p in plan.owner && plan.Next(p) == lang
  }

  /** The slots of the edges from the `j`-th on that lead to a node. */
  ghost function Rest(labels: seq<nat>, j: nat, offset: nat): set<nat> {
    set m | j <= m < |labels| && labels[m] != 0 :: Xor(offset, labels[m])
  }

  /** Every edge slot below `offset` belongs to the node its edge leads to. */
  ghost predicate Children(plan: Plan, labels: seq<nat>, lang: Lang, offset: nat) {
    forall j :: 0 <= j < |labels| && labels[j] != 0 ==>
      var q := Xor(offset, labels[j]);
      q in plan.owner && plan.owner[q] in plan.bases && plan.Next(q) == After(lang, labels[j])
  }

  lemma ChildrenStay(p: Plan, q: Plan, labels: seq<nat>, lang: Lang, offset: nat)
    requires Children(p, labels, lang, offset) && Extends(p, q)
    ensures Children(q, labels, lang, offset)
  {
    hide Xor, After;
  }

  lemma ChildWaits(plan: Plan, labels: seq<nat>, lang: Lang, offset: nat, j: nat)
    requires Children(plan, labels, lang, offset) && j < |labels| && labels[j] != 0
    requires Xor(offset, labels[j]) in plan.pending
    ensures Waits(plan, Xor(offset, labels[j]), After(lang, labels[j]))
  {
    hide Xor, After;
  }

  lemma RestStep(labels: seq<nat>, j: nat, offset: nat)
    requires j < |labels| && Increasing(labels)
    ensures Rest(labels, j, offset)
      == Rest(labels, j + 1, offset) + (if labels[j] != 0 then {Xor(offset, labels[j])} else {})
    ensures Xor(offset, labels[j]) !in Rest(labels, j + 1, offset)
    ensures Rest(labels, j, offset) <= Rest(labels, 0, offset) && Rest(labels, |labels|, offset) == {}
  {
    hide Xor;
    var q := Xor(offset, labels[j]);
    forall m | j + 1 <= m < |labels| ensures Xor(offset, labels[m]) != q {
      if Xor(offset, labels[m]) == q { XorInjective(offset, labels[m], labels[j]); }
    }
  }

  lemma RestIsSlots(labels: seq<nat>, value: nat, lang: Lang, offset: nat)
    requires Describes(labels, value, lang)
    ensures Rest(labels, 0, offset) == Slots(offset, lang) - {offset}
  {
    hide Xor, HasLabel;
    XorZero(offset);
    forall q ensures q in Slots(offset, lang) - {offset} <==> q in Rest(labels, 0, offset) {
      if q in Slots(offset, lang) - {offset} {
        var c: nat :| c < 256 && HasLabel(lang, c) && q == Xor(offset, c);
        var i :| 0 <= i < |labels| && labels[i] == c;
      }
      if q in Rest(labels, 0, offset) {
        var m :| 0 <= m < |labels| && labels[m] != 0 && q == Xor(offset, labels[m]);
        assert HasLabel(lang, labels[m]);
        if q == offset { XorInjective(offset, labels[m], 0); }
      }
    }
  }

  ghost predicate JustPlaced(p0: Plan, plan: Plan, dicId: nat, offset: nat, lang: Lang) {
    && dicId in p0.pending && p0.active == {}
    && CanPlace(Begin(p0, dicId), offset, lang) && plan == End(Place(Begin(p0, dicId), offset, lang), dicId)
  }

  lemma PlacedPlan(p0: Plan, plan: Plan, dicId: nat, labels: seq<nat>, value: nat, lang: Lang, offset: nat)
    requires JustPlaced(p0, plan, dicId, offset, lang) && Describes(labels, value, lang)
    requires p0.pending <= p0.owner.Keys
    ensures Extends(p0, plan) && plan.active == {} && 0 in plan.owner
    ensures offset != 0 && offset in plan.bases && plan.bases[offset] == lang
    ensures plan.pending == p0.pending - {dicId} + Rest(labels, 0, offset)
    ensures Rest(labels, 0, offset) !! p0.pending
  {
    hide Xor, HasLabel, Slots, Describes, Rest;
    RestIsSlots(labels, value, lang, offset);
  }

  lemma PlacedChildren(p0: Plan, plan: Plan, dicId: nat, labels: seq<nat>, value: nat, lang: Lang, offset: nat)
    requires JustPlaced(p0, plan, dicId, offset, lang) && Describes(labels, value, lang)
    ensures Children(plan, labels, lang, offset)
  {
    hide Xor, HasLabel, After;
    forall j | 0 <= j < |labels| && labels[j] != 0
      ensures var q := Xor(offset, labels[j]);
        q in plan.owner && plan.owner[q] in plan.bases && plan.Next(q) == After(lang, labels[j])
    {
      var q := Xor(offset, labels[j]);
      assert HasLabel(lang, labels[j]);
      assert q in Slots(offset, lang);
      XorCancel(offset, labels[j]);
      NotRootSlot(p0, dicId, offset, lang, q);
    }
  }

  lemma NotRootSlot(p0: Plan, dicId: nat, offset: nat, lang: Lang, q: nat)
    requires CanPlace(Begin(p0, dicId), offset, lang) && q in Slots(offset, lang)
    ensures q != 0
  {
    hide Slots;
  }

  lemma PendingOwned(units: seq<Word>, plan: Plan)
    requires Consistent(units, plan)
    ensures plan.pending <= plan.owner.Keys
  {
    hide SlotOk, BaseOk, IsNode;
  }

  /** The waiting slot `dicId` gets the node `lang`, whose labels are in `b.labels`. */
  method PlaceNode(b: DoubleArrayBuilder, dicId: nat, value: nat, ghost lang: Lang) returns (ok: bool, offset: nat)
    requires Ready(b) && Waits(b.plan, dicId, lang) && IsNode(lang) && Describes(b.labels, value, lang)
    modifies b`units, b`extras, b`extrasHead, b`free, b`lo, b`plan
    ensures ok ==> Ready(b) && Extends(old(b.plan), b.plan) && Children(b.plan, b.labels, lang, offset)
    ensures ok ==> offset in b.plan.bases && b.plan.bases[offset] == lang
    ensures ok ==> var rest := Rest(b.labels, 0, offset);
      b.plan.pending == old(b.plan.pending) - {dicId} + rest && rest !! old(b.plan.pending)
    ensures !ok ==> |b.units| + 256 > MAX_OFFSET
  {
    hide Consistent, Sealed, Slack, Settled, Rest, Children, Describes, CanPlace, Place, Begin, End, Extends, IsNode;
    PendingOwned(b.units, b.plan);
    ok, offset := b.Arrange(dicId, value, lang);
    if ok {
      PlacedPlan(old(b.plan), b.plan, dicId, b.labels, value, lang, offset);
      PlacedChildren(old(b.plan), b.plan, dicId, b.labels, value, lang, offset);
    }
  }

  // The whole build.

  /** The array answers for the dictionary `lang`: slot 0 leads to it, or it is empty. */
  ghost predicate Answers(units: seq<Word>, plan: Plan, lang: Lang) {
    || (Complete(units, plan) && |units| > 0 && LinksTo(units, plan, 0, lang))
    || (EmptyUnits(units) && lang == imap[])
  }

  /** Without keys the root keeps its offset 1, and so the fillers lead to offset 1. */
  lemma EmptyBlock(units: seq<Word>, plan: Plan, unused: nat)
    requires |units| == 256 && plan.bases == map[] && plan.owner == map[0 := 0]
    requires FirstUnused(plan, 0, unused) && FilledBlock(units, plan, 0, unused)
    requires Offset(units[0]) == 1 && Label(units[0]) == 0 && !HasLeaf(units[0])
    ensures EmptyUnits(units)
  {
    hide Xor, Label, Offset, HasLeaf, WithLabel;
    assert AsBase(plan, 0) && !AsBase(plan, 1);
    assert unused == 1;
    forall q: nat | 0 < q < 256 ensures !HasLeaf(units[q]) && Offset(units[q]) == 0 && Label(units[q]) == Xor(q, 1) {
      XorBlock(q, 1);
      FreshUnit();
      LabelRoundTrip(0, Xor(q, 1) % 256);
    }
  }

  lemma DummyRoot()
    ensures IsNode(imap[[] := 0])
  {
    var k: Key := [];
    assert k in imap[k := 0];
  }

  /** The build without any key. */
  method BuildEmpty(b: DoubleArrayBuilder)
    modifies b
    ensures Answers(b.units, b.plan, imap[])
  {
    hide Label, Offset, HasLeaf, EmptyUnits, FirstUnused, Slack, Consistent, Sealed, Settled, LinksTo;
    DummyRoot();
    b.InitRoot(imap[[] := 0]);
    ghost var unuseds := b.FixAllBlocks();
    EmptyBlock(b.units, b.plan, unuseds[0]);
  }

  /** The start of a build with the root node `root`. */
  method StartBuild(b: DoubleArrayBuilder, ghost root: Lang)
    requires IsNode(root)
    modifies b
    ensures Ready(b) && b.plan.pending == {0} && Waits(b.plan, 0, root) && b.plan.root == root
  {
    hide Slack, Consistent, Sealed, Settled, Label, Offset, HasLeaf, IsNode;
    b.InitRoot(root);
  }

  /** The end of a build, when no slot waits any more. */
  method FinishBuild(b: DoubleArrayBuilder)
    requires Ready(b) && b.plan.pending == {}
    modifies b
    ensures Answers(b.units, b.plan, old(b.plan.root))
  {
    hide Slack, Consistent, Sealed, Settled, Label, Offset, HasLeaf, LinksTo, FirstUnused;
    ghost var _ := b.FixAllBlocks();
    RootLinked(b.units, b.plan);
  }

  lemma RootLinked(units: seq<Word>, plan: Plan)
    requires Consistent(units, plan) && 0 in plan.owner && plan.pending == {} && plan.active == {}
    ensures |units| > 0 && LinksTo(units, plan, 0, plan.root)
  {
    hide Label, Offset, HasLeaf, LinksTo;
    assert SlotOk(units, plan, 0);
  }
}
