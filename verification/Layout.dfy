/** What the builder has put into the array so far.

    The builder places every trie node at a *base*: the unit for label `c` of the node then
    lives in slot `base ^ c`.  A `Plan` records which node sits at each base, which base owns
    each reserved slot, which slots still wait for their node to be placed, and which are
    being filled in right now. */
module Layout {
  import opened Bits
  import opened DartsUnit
  import opened Language
  import opened Pigeonhole

  datatype Plan = Plan(root: Lang, bases: map<nat, Lang>, owner: map<nat, nat>, pending: set<nat>, active: set<nat>) {
    /** The label a slot carries. */
    ghost function LabelOf(q: nat): nat
      requires q in owner
    {
      Xor(owner[q], q)
    }

    /** The node that follows the edge in slot `q`; slot 0 is the root. */
    ghost function Next(q: nat): Lang
      requires q in owner
    {
      if q == 0 || owner[q] !in bases then root else After(bases[owner[q]], LabelOf(q))
    }
  }

  /** The unit in slot `p` points at a base that holds the node `lang`. */
  ghost predicate LinksTo(units: seq<Word>, plan: Plan, p: nat, lang: Lang)
    requires p < |units|
  {
    var base := Xor(p, Offset(units[p]));
    base in plan.bases && plan.bases[base] == lang && (HasLeaf(units[p]) <==> [] in lang)
  }

  ghost predicate SlotOwned(plan: Plan, q: nat)
    requires q in plan.owner
  {
    if q == 0 then plan.owner[0] == 0
    else
      var base := plan.owner[q];
      base in plan.bases && plan.LabelOf(q) < 256 && HasLabel(plan.bases[base], plan.LabelOf(q))
  }

  /** The unit of an edge carries its label, and is either still waiting or linked. */
  ghost predicate EdgeUnit(units: seq<Word>, plan: Plan, q: nat, c: nat)
    requires q < |units| && q in plan.owner
  {
    && units[q] < TOP
    && Label(units[q]) == c
    && (q in plan.active
        || if q in plan.pending then !HasLeaf(units[q]) else LinksTo(units, plan, q, plan.Next(q)))
  }

  ghost predicate SlotOk(units: seq<Word>, plan: Plan, q: nat)
    requires q in plan.owner
  {
    && q < |units|
    && SlotOwned(plan, q)
    && (if q == 0 then EdgeUnit(units, plan, 0, 0)
        else if plan.LabelOf(q) == 0 then
          q !in plan.pending + plan.active && units[q] == ValueUnit(plan.bases[plan.owner[q]][[]] % TOP)
        else EdgeUnit(units, plan, q, plan.LabelOf(q)))
  }

  /** Every edge of the node at `base` has its slot. */
  ghost predicate BaseOk(plan: Plan, base: nat)
    requires base in plan.bases
  {
    && base != 0
    && IsNode(plan.bases[base])
    && forall c :: HasLabel(plan.bases[base], c) ==> Xor(base, c) in plan.owner && plan.owner[Xor(base, c)] == base
  }

  ghost predicate Consistent(units: seq<Word>, plan: Plan) {
    && IsNode(plan.root)
    && plan.pending + plan.active <= plan.owner.Keys
    && (forall q :: q in plan.owner ==> SlotOk(units, plan, q))
    && (forall base :: base in plan.bases ==> BaseOk(plan, base))
  }

  // Reading the array.

  /** A slot that no edge owns: it has neither leaf bit nor offset, and its label, read as an
      edge, would belong to a base that holds no node. */
  ghost predicate Filler(units: seq<Word>, plan: Plan, q: nat)
    requires q < |units|
  {
    && !HasLeaf(units[q]) && Offset(units[q]) == 0
    && (Label(units[q]) < 256 ==> Xor(q, Label(units[q])) !in plan.bases)
  }

  /** Every slot below `lo` is an edge or a filler. */
  ghost predicate Sealed(units: seq<Word>, plan: Plan, lo: nat) {
    lo <= |units| && forall q :: 0 <= q < lo ==> q in plan.owner || Filler(units, plan, q)
  }

  /** The whole array is filled in and nothing waits. */
  ghost predicate Complete(units: seq<Word>, plan: Plan) {
    Consistent(units, plan) && |units| % 256 == 0 && Sealed(units, plan, |units|) && plan.pending + plan.active == {}
  }

  /** All slots of a base's block exist. */
  lemma BaseInside(units: seq<Word>, plan: Plan, base: nat, c: nat)
    requires Consistent(units, plan) && |units| % 256 == 0 && base in plan.bases && c < 256
    ensures Xor(base, c) < |units|
  {
    hide Xor, Label, Offset, HasLeaf, ValueUnit, EdgeUnit, SlotOwned;
    assert BaseOk(plan, base);
    var c0 := SomeLabel(plan.bases[base]);
    var q0 := Xor(base, c0);
    assert SlotOk(units, plan, q0);
    XorBlock(base, c0);
    XorBlock(base, c);
  }

  /** The label check of the search loops accepts exactly the edges of the node at `base`. */
  lemma LabelCheck(units: seq<Word>, plan: Plan, base: nat, c: nat)
    requires Complete(units, plan) && base in plan.bases && c < 256
    ensures Xor(base, c) < |units|
    ensures Label(units[Xor(base, c)]) == c <==> c != 0 && HasLabel(plan.bases[base], c)
    ensures c != 0 && HasLabel(plan.bases[base], c)
      ==> LinksTo(units, plan, Xor(base, c), After(plan.bases[base], c))
  {
    hide Xor, Label, Offset, HasLeaf, ValueUnit, HasLabel, LinksTo;
    BaseInside(units, plan, base, c);
    var q := Xor(base, c);
    assert BaseOk(plan, base);
    XorCancel(base, c);
    if q in plan.owner {
      assert SlotOk(units, plan, q);
      OwnedSlotCheck(units, plan, base, c);
    } else {
      assert !HasLabel(plan.bases[base], c);
      XorCancel(q, c);
      XorComm(q, c);
      XorComm(base, c);
      assert Filler(units, plan, q);
    }
  }

  lemma OwnedSlotCheck(units: seq<Word>, plan: Plan, base: nat, c: nat)
    requires base in plan.bases && c < 256 && base != 0 && BaseOk(plan, base)
    requires Xor(base, c) in plan.owner && SlotOk(units, plan, Xor(base, c)) && plan.pending + plan.active == {}
    ensures Label(units[Xor(base, c)]) == c <==> c != 0 && HasLabel(plan.bases[base], c)
    ensures c != 0 && HasLabel(plan.bases[base], c)
      ==> LinksTo(units, plan, Xor(base, c), After(plan.bases[base], c))
  {
    hide Xor, Label, Offset, HasLeaf, ValueUnit, HasLabel, LinksTo;
    var q := Xor(base, c);
    XorCancel(base, c);
    if q == 0 {
      XorComm(base, c);
      XorZero(base);
      assert c != 0;
      assert plan.owner[0] == 0;
      assert !HasLabel(plan.bases[base], c);
    } else {
      var base', c' := plan.owner[q], plan.LabelOf(q);
      XorCancel(base', q);
      XorComm(base', q);
      XorComm(base, q);
      assert Xor(base', c') == q;
      if c' == 0 {
        LeafLabel(plan.bases[base']);
        ValueRoundTrip(plan.bases[base'][[]] % TOP);
        XorZero(base');
        assert c != 0 ==> !HasLabel(plan.bases[base], c);
      } else if c' == c {
        assert base' == base by { XorCancel(base', c); XorCancel(base, c); }
      }
    }
  }

  /** The value unit of a node that ends a key. */
  lemma LeafValue(units: seq<Word>, plan: Plan, p: nat, lang: Lang)
    requires Complete(units, plan) && p < |units| && LinksTo(units, plan, p, lang)
    ensures Xor(p, Offset(units[p])) < |units|
    ensures [] in lang ==> Value(units[Xor(p, Offset(units[p]))]) == lang[[]]
  {
    hide Xor, Label, Offset, HasLeaf, ValueUnit, HasLabel, Sealed, SlotOk, IsNode;
    var base := Xor(p, Offset(units[p]));
    BaseInside(units, plan, base, 0);
    LeafLabel(lang);
    assert BaseOk(plan, base);
    XorZero(base);
    if [] in lang {
      assert plan.owner[base] == base;
      ValueSlot(units, plan, base);
      NodeValue(lang);
      ValueRoundTrip(lang[[]]);
    }
  }

  lemma NodeValue(lang: Lang)
    requires IsNode(lang) && [] in lang
    ensures lang[[]] < TOP
  {
  }

  /** The slot of a base's own number holds the value. */
  lemma ValueSlot(units: seq<Word>, plan: Plan, base: nat)
    requires base != 0 && base in plan.owner && plan.owner[base] == base && SlotOk(units, plan, base)
    requires base in plan.bases && [] in plan.bases[base]
    ensures base < |units| && units[base] == ValueUnit(plan.bases[base][[]] % TOP)
  {
    hide Xor, Label, Offset, HasLeaf, ValueUnit, HasLabel, EdgeUnit;
    XorSelf(base);
  }

  lemma LinkedNode(units: seq<Word>, plan: Plan, p: nat, lang: Lang)
    requires Complete(units, plan) && p < |units| && LinksTo(units, plan, p, lang)
    ensures IsNode(lang)
  {
    hide Xor, Label, Offset, HasLeaf, ValueUnit, EdgeUnit, SlotOk, Sealed, IsNode;
    assert BaseOk(plan, Xor(p, Offset(units[p])));
  }

  /** One step of a search: from slot `p` with byte `c`. */
  lemma Step(units: seq<Word>, plan: Plan, p: nat, lang: Lang, c: nat)
    requires Complete(units, plan) && p < |units| && LinksTo(units, plan, p, lang) && c < 256
    ensures IsNode(lang)
    ensures var q := Xor(p, Xor(Offset(units[p]), c));
      && q < |units|
      && (Label(units[q]) == c <==> c != 0 && HasLabel(lang, c))
      && (c != 0 && HasLabel(lang, c) ==> LinksTo(units, plan, q, After(lang, c)))
  {
    hide Xor, Label, Offset, HasLeaf, ValueUnit, EdgeUnit, SlotOk, Sealed;
    var base := Xor(p, Offset(units[p]));
    assert BaseOk(plan, base);
    XorAssoc(p, Offset(units[p]), c);
    LabelCheck(units, plan, base, c);
  }

  // Growing the plan.

  /** The builder turns to the waiting slot `p`. */
  ghost function Begin(plan: Plan, p: nat): Plan {
    plan.(pending := plan.pending - {p}, active := plan.active + {p})
  }

  /** The slot `p` has been linked. */
  ghost function End(plan: Plan, p: nat): Plan {
    plan.(active := plan.active - {p})
  }

  /** The slots of the edges of a node. */
  ghost function Slots(base: nat, lang: Lang): set<nat> {
    set c: nat | c < 256 && HasLabel(lang, c) :: Xor(base, c)
  }

  /** The plan after `lang` is placed at `base`. */
  ghost function Place(plan: Plan, base: nat, lang: Lang): Plan {
    plan.(bases := plan.bases[base := lang],
          owner := plan.owner + (map q | q in Slots(base, lang) :: base),
          pending := plan.pending + (Slots(base, lang) - {base}))
  }

  /** `base` can take the node `lang`: nobody owns it, and the slots of the edges are not owned. */
  ghost predicate CanPlace(plan: Plan, base: nat, lang: Lang) {
    base != 0 && base !in plan.bases && 0 in plan.owner && Slots(base, lang) !! plan.owner.Keys
  }

  /** Changes outside the owned slots do not matter, and a slot being filled in may change as
      long as its label stays. */
  lemma FrameKeeps(units: seq<Word>, units': seq<Word>, plan: Plan)
    requires Consistent(units, plan) && |units| <= |units'|
    requires forall q :: q in plan.owner && q !in plan.active ==> q < |units| && units'[q] == units[q]
    requires forall q :: q in plan.active && q < |units| ==> units'[q] < TOP && Label(units'[q]) == Label(units[q])
    ensures Consistent(units', plan)
  {
    hide Xor, Label, Offset, HasLeaf, ValueUnit, HasLabel, IsNode, BaseOk, EdgeUnit, SlotOwned, LinksTo;
    forall q | q in plan.owner ensures SlotOk(units', plan, q) {
      assert SlotOk(units, plan, q);
      FrameSlot(units, units', plan, q);
    }
  }

  lemma FrameSame(units: seq<Word>, units': seq<Word>, plan: Plan)
    requires Consistent(units, plan) && |units| <= |units'|
    requires forall q :: q in plan.owner && q < |units| ==> units'[q] == units[q]
    ensures Consistent(units', plan)
    ensures forall q :: q in plan.owner ==> q < |units|
  {
    hide Xor, Label, Offset, HasLeaf, ValueUnit, HasLabel, IsNode, BaseOk, SlotOwned, LinksTo;
    forall q | q in plan.owner ensures q < |units| && (q in plan.active ==> units[q] < TOP) {
      assert SlotOk(units, plan, q);
    }
    FrameKeeps(units, units', plan);
  }

  /** The unit being filled in may change. */
  lemma FrameActive(units: seq<Word>, units': seq<Word>, plan: Plan, p: nat)
    requires Consistent(units, plan) && |units| == |units'| && p in plan.active && p < |units|
    requires forall q :: q in plan.owner && q != p && q < |units| ==> units'[q] == units[q]
    requires units'[p] < TOP && Label(units'[p]) == Label(units[p])
    ensures Consistent(units', plan)
  {
    hide Xor, Label, Offset, HasLeaf, ValueUnit, HasLabel, IsNode, BaseOk, SlotOwned, LinksTo;
    forall q | q in plan.owner ensures q < |units| && (q in plan.active ==> units[q] < TOP) {
      assert SlotOk(units, plan, q);
    }
    FrameKeeps(units, units', plan);
  }

  lemma FrameSlot(units: seq<Word>, units': seq<Word>, plan: Plan, q: nat)
    requires q in plan.owner && SlotOk(units, plan, q) && q < |units'|
    requires q !in plan.active ==> units'[q] == units[q]
    requires q in plan.active ==> units'[q] < TOP && Label(units'[q]) == Label(units[q])
    ensures SlotOk(units', plan, q)
  {
    hide Xor, Label, Offset, HasLeaf, ValueUnit, HasLabel;
  }

  lemma BeginKeeps(units: seq<Word>, plan: Plan, p: nat)
    requires Consistent(units, plan) && p in plan.pending
    ensures Consistent(units, Begin(plan, p))
  {
    hide Xor, Label, Offset, HasLeaf, ValueUnit, HasLabel, IsNode, SlotOk, LinksTo;
    var plan' := Begin(plan, p);
    forall q | q in plan'.owner ensures SlotOk(units, plan', q) {
      BeginSlot(units, plan, p, q);
    }
    forall base | base in plan'.bases ensures BaseOk(plan', base) {
      assert BaseOk(plan, base);
    }
  }

  lemma BeginSlot(units: seq<Word>, plan: Plan, p: nat, q: nat)
    requires q in plan.owner && SlotOk(units, plan, q) && p in plan.pending
    ensures SlotOk(units, Begin(plan, p), q)
  {
    hide Xor, Label, Offset, HasLeaf, ValueUnit, HasLabel, LinksTo;
    LinksMore(units, plan, Begin(plan, p), q, plan.Next(q));
  }

  lemma EndKeeps(units: seq<Word>, plan: Plan, p: nat)
    requires Consistent(units, plan) && p in plan.active && p < |units| && p !in plan.pending
    requires LinksTo(units, plan, p, plan.Next(p))
    ensures Consistent(units, End(plan, p))
  {
    hide Xor, Label, Offset, HasLeaf, ValueUnit, HasLabel, IsNode, SlotOk, LinksTo;
    var plan' := End(plan, p);
    forall q | q in plan'.owner ensures SlotOk(units, plan', q) {
      EndSlot(units, plan, p, q);
    }
    forall base | base in plan'.bases ensures BaseOk(plan', base) {
      assert BaseOk(plan, base);
    }
  }

  lemma EndSlot(units: seq<Word>, plan: Plan, p: nat, q: nat)
    requires p in plan.owner && q in plan.owner && SlotOk(units, plan, q)
    requires p in plan.active && p < |units| && p !in plan.pending && LinksTo(units, plan, p, plan.Next(p))
    ensures SlotOk(units, End(plan, p), q)
  {
    hide Xor, Label, Offset, HasLeaf, ValueUnit, HasLabel, LinksTo;
    LinksMore(units, plan, End(plan, p), q, plan.Next(q));
  }

  /** A link stays when nodes are added. */
  lemma LinksMore(units: seq<Word>, plan: Plan, plan': Plan, q: nat, lang: Lang)
    requires forall b :: b in plan.bases ==> b in plan'.bases && plan'.bases[b] == plan.bases[b]
    ensures q < |units| && LinksTo(units, plan, q, lang) ==> LinksTo(units, plan', q, lang)
  {
    hide Xor, Offset, HasLeaf;
  }

  /** The unit a freshly reserved edge slot holds. */
  ghost predicate FreshEdge(u: Word, lang: Lang, c: nat) {
    if c == 0 then [] in lang && u == ValueUnit(lang[[]] % TOP)
    else u < TOP && Label(u) == c && !HasLeaf(u)
  }

  /** Placing a node on free slots keeps the plan consistent. */
  lemma PlaceKeeps(units: seq<Word>, plan: Plan, base: nat, lang: Lang)
    requires Consistent(units, plan) && IsNode(lang) && CanPlace(plan, base, lang)
    requires forall c ::
      c < 256 && HasLabel(lang, c)
      ==> Xor(base, c) < |units| && FreshEdge(units[Xor(base, c)], lang, c)
    ensures Consistent(units, Place(plan, base, lang))
  {
    hide Xor, Label, Offset, HasLeaf, ValueUnit, HasLabel, IsNode, SlotOk;
    var plan' := Place(plan, base, lang);
    forall q | q in plan'.owner ensures SlotOk(units, plan', q) {
      if q in Slots(base, lang) {
        var c: nat :| c < 256 && HasLabel(lang, c) && q == Xor(base, c);
        PlaceNewSlot(units, plan, base, lang, c);
      } else {
        PlaceOldSlot(units, plan, base, lang, q);
      }
    }
    forall b | b in plan'.bases ensures BaseOk(plan', b) {
      PlaceBase(units, plan, base, lang, b);
    }
  }

  lemma PlaceNewSlot(units: seq<Word>, plan: Plan, base: nat, lang: Lang, c: nat)
    requires Consistent(units, plan) && IsNode(lang) && CanPlace(plan, base, lang)
    requires c < 256 && HasLabel(lang, c) && Xor(base, c) < |units| && FreshEdge(units[Xor(base, c)], lang, c)
    ensures Xor(base, c) in Slots(base, lang)
    ensures SlotOk(units, Place(plan, base, lang), Xor(base, c))
  {
    hide Xor, Label, Offset, HasLeaf, ValueUnit, IsNode, LinksTo, SlotOk, BaseOk, HasLabel;
    var q := Xor(base, c);
    var plan' := Place(plan, base, lang);
    assert q in Slots(base, lang);
    XorCancel(base, c);
    XorZero(base);
    if q == base { XorInjective(base, c, 0); }
    NewSlotOk(units, plan', base, lang, c);
  }

  lemma NewSlotOk(units: seq<Word>, plan: Plan, base: nat, lang: Lang, c: nat)
    requires c < 256 && HasLabel(lang, c) && Xor(base, c) < |units| && FreshEdge(units[Xor(base, c)], lang, c)
    requires base in plan.bases && plan.bases[base] == lang
    requires Xor(base, c) != 0 && Xor(base, c) in plan.owner && plan.owner[Xor(base, c)] == base
    requires Xor(base, c) !in plan.active && (Xor(base, c) in plan.pending <==> c != 0)
    ensures SlotOk(units, plan, Xor(base, c))
  {
    hide Xor, Label, Offset, HasLeaf, ValueUnit, IsNode, LinksTo, HasLabel;
    XorCancel(base, c);
  }

  lemma PlaceOldSlot(units: seq<Word>, plan: Plan, base: nat, lang: Lang, q: nat)
    requires Consistent(units, plan) && CanPlace(plan, base, lang)
    requires q in plan.owner
    ensures SlotOk(units, Place(plan, base, lang), q)
  {
    hide Xor, Label, Offset, HasLeaf, ValueUnit, HasLabel, IsNode, SlotOk, BaseOk, Slots;
    assert SlotOk(units, plan, q);
    OldSlotOk(units, plan, Place(plan, base, lang), q);
  }

  /** A slot that is not touched is still in order when nodes and slots have been added. */
  lemma OldSlotOk(units: seq<Word>, plan: Plan, plan': Plan, q: nat)
    requires q in plan.owner && SlotOk(units, plan, q)
    requires plan'.root == plan.root
      && forall b :: b in plan.bases ==> b in plan'.bases && plan'.bases[b] == plan.bases[b]
    requires q in plan'.owner && plan'.owner[q] == plan.owner[q]
    requires (q in plan'.pending <==> q in plan.pending) && (q in plan'.active <==> q in plan.active)
    ensures SlotOk(units, plan', q)
  {
    hide Xor, Label, Offset, HasLeaf, ValueUnit, HasLabel, LinksTo;
    LinksMore(units, plan, plan', q, plan.Next(q));
  }

  lemma PlaceBase(units: seq<Word>, plan: Plan, base: nat, lang: Lang, b: nat)
    requires Consistent(units, plan) && IsNode(lang) && CanPlace(plan, base, lang)
    requires b in Place(plan, base, lang).bases
    ensures BaseOk(Place(plan, base, lang), b)
  {
    hide Xor, Label, Offset, HasLeaf, ValueUnit, HasLabel, IsNode, SlotOk;
    var plan' := Place(plan, base, lang);
    if b == base {
      forall c | HasLabel(lang, c)
        ensures Xor(base, c) in plan'.owner && plan'.owner[Xor(base, c)] == base
      {
        LabelIsByte(lang, c);
        assert Xor(base, c) in Slots(base, lang);
      }
    } else {
      assert BaseOk(plan, b);
    }
  }

  /** Fillers of retired blocks stay fillers, because new bases lie in live blocks. */
  lemma PlaceKeepsSealed(units: seq<Word>, plan: Plan, base: nat, lang: Lang, lo: nat)
    requires Sealed(units, plan, lo) && lo % 256 == 0 && lo <= base
    ensures Sealed(units, Place(plan, base, lang), lo)
  {
    hide Xor, Label, HasLabel, Slots;
    var plan' := Place(plan, base, lang);
    forall q | 0 <= q < lo ensures q in plan'.owner || Filler(units, plan', q) {
      if q !in plan.owner && Label(units[q]) < 256 {
        XorBlock(q, Label(units[q]));
      }
    }
  }

  // The pigeonhole case of filling a block.

  /** A base owns a slot of its block. */
  lemma SlotInBlock(units: seq<Word>, plan: Plan, lo: nat, base: nat) returns (q: nat)
    requires Consistent(units, plan) && lo % 256 == 0 && lo <= base < lo + 256
    requires base in plan.bases || (base == 0 && 0 in plan.owner)
    ensures lo <= q < lo + 256 && q in plan.owner && plan.owner[q] == base
  {
    hide Xor, HasLabel, IsNode, SlotOk;
    if base in plan.bases {
      assert BaseOk(plan, base);
      var c := SomeLabel(plan.bases[base]);
      XorBlock(base, c);
      q := Xor(base, c);
    } else {
      RootSlot(units, plan);
      q := 0;
    }
  }

  lemma RootSlot(units: seq<Word>, plan: Plan)
    requires 0 in plan.owner && SlotOk(units, plan, 0)
    ensures plan.owner[0] == 0
  {
    hide Xor, EdgeUnit;
  }

  /** If every offset of a block is the base of some node, every slot of the block is taken. */
  lemma FullBlock(units: seq<Word>, plan: Plan, lo: nat)
    requires Consistent(units, plan) && lo % 256 == 0
    requires forall base :: lo <= base < lo + 256 ==> base in plan.bases || (base == 0 && 0 in plan.owner)
    ensures forall q :: lo <= q < lo + 256 ==> q in plan.owner
  {
    hide Consistent, Xor;
    forall base: nat | lo <= base < lo + 256
      ensures OwnsOne(plan.owner, lo, 256, base)
    {
      var q := SlotInBlock(units, plan, lo, base);
    }
    AllOwned(plan.owner, lo, 256);
  }
}
