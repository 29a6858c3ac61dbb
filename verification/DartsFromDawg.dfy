/** Packing a finished word graph into the array. */
module DartsFromDawg {
  import opened Bits
  import opened DartsUnit
  import opened Language
  import opened Layout
  import opened FreeRing
  import opened DartsBuilder
  import opened DawgStore
  import opened DawgBuilder
  import opened DartsPlace
  import BV = BitVector

  /** A remembered offset is a base of the state it is remembered for. */
  ghost predicate Remembers(table: seq<nat>, plan: Plan, dawg: DawgBuilder)
    reads dawg, dawg.isIntersections
  {
    && dawg.Finished() && |table| == dawg.isIntersections.numOnes
    && forall s :: 0 <= s < |dawg.cells| && dawg.IsIntersection(s) ==>
         var id := dawg.IntersectionId(s);
         id < |table| && (table[id] != 0 ==> table[id] in plan.bases && plan.bases[table[id]] == LangAt(dawg.cells, s))
  }

  /** The labels of a state, in order. */
  method CollectLabels(b: DoubleArrayBuilder, dawg: DawgBuilder, s: nat)
    requires dawg.Finished() && IsStart(dawg.cells, s)
    modifies b`labels
    ensures var g := Group(dawg.cells, s); |b.labels| == |g| && forall i :: 0 <= i < |g| ==> b.labels[i] == g[i].byte
  {
    hide GroupOk, Group, IsStart, StoreOk;
    b.labels := [];
    var id := s;
    ghost var g := Group(dawg.cells, s);
    StateCells(dawg, s);
    while id != 0
      invariant id == 0 || (id == s + |b.labels| && |b.labels| < |g|)
      invariant id == 0 ==> |b.labels| == |g|
      invariant |b.labels| <= |g| && forall i :: 0 <= i < |b.labels| ==> b.labels[i] == g[i].byte
      invariant dawg.cells == old(dawg.cells)
      decreases |g| - |b.labels| + (if id == 0 then 0 else 1)
    {
      assert dawg.cells[s..s + |g|][|b.labels|] == dawg.cells[id];
      b.labels := b.labels + [dawg.cells[id].byte];
      id := dawg.Sibling(id);
    }
  }

  /** The cells of a state in a finished graph. */
  lemma StateCells(dawg: DawgBuilder, s: nat)
    requires dawg.Finished() && IsStart(dawg.cells, s)
    ensures var g := Group(dawg.cells, s);
      && s > 0 && g != [] && GroupOk(dawg.cells, s, g)
      && s + |g| <= |dawg.cells| && dawg.cells[s..s + |g|] == g
      && (forall j :: 0 <= j < |g| ==> (g[j].HasSibling() <==> j + 1 < |g|))
  {
    hide Group;
    var g := Group(dawg.cells, s);
    GroupFlags(dawg.cells, s, g);
    GroupSpan(dawg.cells, s);
  }

  /** A state as a node: only its first edge can be the terminator. */
  lemma StateNode(cells: Cells, s: nat)
    requires StoreOk(cells) && IsStart(cells, s)
    ensures s < |cells| && IsNode(LangAt(cells, s))
    ensures [] in LangAt(cells, s) <==> cells[s].byte == 0
    ensures cells[s].byte == 0 ==> LangAt(cells, s)[[]] == cells[s].Value() < TOP
  {
    hide LookupIn, Group, HasLabel, Ascending;
    var g := Group(cells, s);
    assert GroupOk(cells, s, g);
    GroupSpan(cells, s);
    assert LangAt(cells, s) == LangIn(cells, g);
    StateIsNode(cells, s, g);
    LeafLabel(LangIn(cells, g));
    assert g[0] == cells[s];
    FirstIsLeast(g);
    assert StateEdge(cells, g, 0);
  }

  lemma FirstIsLeast(g: seq<Cell>)
    requires Ascending(g) && g != []
    ensures forall i :: 0 <= i < |g| && g[i].byte == 0 ==> i == 0
  {
    assert forall i :: 0 < i < |g| ==> g[0].byte < g[i].byte;
  }

  /** The unit of a slot that reuses the base `offset`. */
  function SharedUnit(u: Word, leaf: bool, rel: nat): Word
    requires Encodable(rel) && rel < MAX_OFFSET
  {
    WithOffset(if leaf then WithLeaf(u) else u, rel)
  }

  lemma SharedUnitFields(u: Word, leaf: bool, rel: nat)
    requires Encodable(rel) && rel < MAX_OFFSET && u < TOP && !HasLeaf(u)
    ensures var w := SharedUnit(u, leaf, rel);
      w < TOP && Label(w) == Label(u) && Offset(w) == rel && (HasLeaf(w) <==> leaf)
  {
    hide Label, Offset, HasLeaf, WithOffset, WithLeaf, Encodable;
    LeafRoundTrip(u);
    OffsetRoundTrip(if leaf then WithLeaf(u) else u, rel);
  }

  /** Linking a waiting slot to an existing base. */
  lemma ShareKeeps(units: seq<Word>, plan: Plan, lo: nat, dicId: nat, lang: Lang, offset: nat)
    requires Consistent(units, plan) && Sealed(units, plan, lo)
    requires dicId in plan.pending && dicId !in plan.active && dicId in plan.owner && plan.Next(dicId) == lang
    requires offset in plan.bases && plan.bases[offset] == lang
    requires Encodable(Xor(offset, dicId)) && Xor(offset, dicId) < MAX_OFFSET
    ensures dicId < |units|
    ensures var units' := units[dicId := SharedUnit(units[dicId], [] in lang, Xor(offset, dicId))];
      Consistent(units', End(Begin(plan, dicId), dicId)) && Sealed(units', End(Begin(plan, dicId), dicId), lo)
  {
    hide Consistent, Filler, Label, Offset, HasLeaf, Xor, Encodable, SharedUnit;
    PendingUnit(units, plan, dicId);
    BeginKeeps(units, plan, dicId);
    SharedUnitFields(units[dicId], [] in lang, Xor(offset, dicId));
    var plan1 := Begin(plan, dicId);
    var units' := units[dicId := SharedUnit(units[dicId], [] in lang, Xor(offset, dicId))];
    FrameActive(units, units', plan1, dicId);
    SealedBegin(units, plan, dicId, lo);
    SealedFrame(units, units', plan1, lo);
    XorComm(offset, dicId);
    XorCancel(dicId, offset);
    EndKeeps(units', plan1, dicId);
    SealedBegin(units', plan1, dicId, lo);
  }

  lemma RememberedBase(table: seq<nat>, plan: Plan, dawg: DawgBuilder, s: nat)
    requires Remembers(table, plan, dawg) && s < |dawg.cells| && dawg.IsIntersection(s)
    ensures dawg.IntersectionId(s) < |table|
    ensures var offset := table[dawg.IntersectionId(s)];
      offset != 0 ==> offset in plan.bases && plan.bases[offset] == LangAt(dawg.cells, s)
  {
    hide StoreOk, LangAt, BV.PopCount, BV.UpTo, BV.Count, BV.BitAt;
  }

  lemma RemembersMore(table: seq<nat>, p: Plan, q: Plan, dawg: DawgBuilder)
    requires Remembers(table, p, dawg) && Extends(p, q)
    ensures Remembers(table, q, dawg)
  {
    hide LangAt, StoreOk, BV.PopCount, BV.UpTo, BV.Count, BV.BitAt;
  }

  /** Reuses the base of a state that is placed already.  `done` is false if the offset does not
      fit; then the state is placed a second time. */
  method Share(b: DoubleArrayBuilder, dawg: DawgBuilder, s: nat, dicId: nat) returns (ok: bool, done: bool)
    requires Ready(b) && Remembers(b.table, b.plan, dawg) && IsStart(dawg.cells, s)
    requires Waits(b.plan, dicId, LangAt(dawg.cells, s))
    modifies b`units, b`plan
    ensures ok ==> Ready(b) && Remembers(b.table, b.plan, dawg) && Extends(old(b.plan), b.plan)
    ensures ok && done ==> b.plan.pending == old(b.plan.pending) - {dicId}
    ensures ok && !done ==> b.plan == old(b.plan) && b.units == old(b.units)
    ensures !ok ==> |b.units| + 256 > MAX_OFFSET
  {
    hide Consistent, Sealed, Slack, LangAt, StoreOk, Xor, Encodable, WithLeaf, WithOffset, Settled, Remembers,
      BV.PopCount, BV.UpTo, BV.Count, BV.BitAt;
    ok, done := true, false;
    Finished(b, dawg);
    StateNode(dawg.cells, s);
    if dawg.IsIntersection(s) {
      RememberedBase(b.table, b.plan, dawg, s);
      var offset := b.table[dawg.IntersectionId(s)];
      if offset != 0 {
        var rel := Xor(offset, dicId);
        if Encodable(rel) {
          if rel >= MAX_OFFSET {
            TooFar(b, offset, dicId);
            return false, true;
          }
          ghost var lang := LangAt(dawg.cells, s);
          ghost var plan0, units0 := b.plan, b.units;
          ShareKeeps(b.units, b.plan, b.lo, dicId, lang, offset);
          SlackRange(b.units, b.lo, b.extras, b.extrasHead, b.free, b.plan);
          SlackBegin(b.units, b.lo, b.extras, b.extrasHead, b.free, b.plan, dicId);
          SlackBegin(b.units, b.lo, b.extras, b.extrasHead, b.free, Begin(b.plan, dicId), dicId);
          if dawg.cells[s].byte == 0 {
            b.units := b.units[dicId := WithLeaf(b.units[dicId])];
          }
          b.units := b.units[dicId := WithOffset(b.units[dicId], rel)];
          assert b.units == units0[dicId := SharedUnit(units0[dicId], [] in lang, rel)];
          b.plan := End(Begin(b.plan, dicId), dicId);
          SlackWrite(units0, b.units, b.lo, b.extras, b.extrasHead, b.free, b.plan);
          SettledSame(units0, b.units, b.lo, b.free, plan0, b.plan);
          RemembersMore(b.table, plan0, b.plan, dawg);
          done := true;
        }
      }
    }
  }

  lemma TooFar(b: DoubleArrayBuilder, offset: nat, dicId: nat)
    requires Ready(b) && offset in b.plan.bases && dicId in b.plan.owner && Xor(offset, dicId) >= MAX_OFFSET
    ensures |b.units| > MAX_OFFSET
  {
    hide Xor, IsNode, Slack, Settled, EdgeUnit, LinksTo;
    XorSmall(offset, dicId);
    assert SlotOk(b.units, b.plan, dicId);
    SlackRange(b.units, b.lo, b.extras, b.extrasHead, b.free, b.plan);
    BaseInside(b.units, b.plan, offset, 0);
    XorZero(offset);
  }

  lemma Finished(b: DoubleArrayBuilder, dawg: DawgBuilder)
    requires Remembers(b.table, b.plan, dawg)
    ensures dawg.Finished() && StoreOk(dawg.cells) && dawg.isIntersections.Ranked()
    ensures dawg.isIntersections.size == |dawg.cells|
  {
    hide StoreOk, LangAt;
  }

  lemma SettledSame(units: seq<Word>, units': seq<Word>, lo: nat, free: seq<nat>, plan: Plan, plan': Plan)
    requires Settled(units, lo, free, plan, {}) && |units'| == |units| && plan'.owner == plan.owner
    ensures Settled(units', lo, free, plan', {})
  {
  }

  /** The labels of a state describe its language. */
  lemma StateDescribed(cells: Cells, s: nat, labels: seq<nat>)
    requires StoreOk(cells) && IsStart(cells, s)
    requires var g := Group(cells, s); |labels| == |g| && forall i :: 0 <= i < |g| ==> labels[i] == g[i].byte
    ensures s < |cells| && Describes(labels, if cells[s].byte == 0 then cells[s].Value() else 0, LangAt(cells, s))
  {
    hide HasLabel, Group, LookupIn, IsNode;
    var lang, g := LangAt(cells, s), Group(cells, s);
    assert GroupOk(cells, s, g);
    assert lang == LangIn(cells, g);
    StateIsNode(cells, s, g);
    StateNode(cells, s);
    forall c ensures HasLabel(lang, c) <==> c in labels {
      if c in labels {
        var i :| 0 <= i < |labels| && labels[i] == c;
        assert g[i].byte == c;
      }
      if HasLabel(lang, c) {
        var i :| 0 <= i < |g| && g[i].byte == c;
        assert labels[i] == c;
      }
    }
  }

  lemma RememberOne(table: seq<nat>, plan: Plan, dawg: DawgBuilder, s: nat, offset: nat)
    requires Remembers(table, plan, dawg) && s < |dawg.cells| && dawg.IsIntersection(s)
    requires offset in plan.bases && plan.bases[offset] == LangAt(dawg.cells, s)
    ensures dawg.IntersectionId(s) < |table|
    ensures Remembers(table[dawg.IntersectionId(s) := offset], plan, dawg)
  {
    hide LangAt, StoreOk, BV.PopCount, BV.UpTo, BV.Count, BV.BitAt;
    var id := dawg.IntersectionId(s);
    forall t | 0 <= t < |dawg.cells| && dawg.IsIntersection(t) && t != s ensures dawg.IntersectionId(t) != id {
      BV.RankInjective(dawg.isIntersections.units, s, t, |dawg.cells|);
    }
  }

  /** The labels of a state. */
  function Labels(g: seq<Cell>): (r: seq<nat>)
    ensures |r| == |g| && forall i :: 0 <= i < |g| ==> r[i] == g[i].byte
  {
    seq(|g|, i requires 0 <= i < |g| => g[i].byte)
  }

  /** Where the edges of a state lead. */
  lemma StateChild(cells: Cells, s: nat, j: nat)
    requires StoreOk(cells) && IsStart(cells, s) && j < |Group(cells, s)| && Group(cells, s)[j].byte != 0
    ensures var e := Group(cells, s)[j];
      IsStart(cells, e.Child()) && e.Child() < s && After(LangAt(cells, s), e.byte) == LangAt(cells, e.Child())
  {
    hide Group, LookupIn, IsNode, Ascending;
    var g := Group(cells, s);
    assert GroupOk(cells, s, g);
    assert LangAt(cells, s) == LangIn(cells, g);
    EdgeOfState(cells, s, g, j);
  }

  /** Arranges the edges of a state, and remembers where if it has several parents. */
  method PlaceState(b: DoubleArrayBuilder, dawg: DawgBuilder, s: nat, dicId: nat) returns (ok: bool, offset: nat)
    requires Ready(b) && Remembers(b.table, b.plan, dawg) && IsStart(dawg.cells, s)
    requires Waits(b.plan, dicId, LangAt(dawg.cells, s))
    modifies b
    ensures ok ==> Ready(b) && Remembers(b.table, b.plan, dawg) && Extends(old(b.plan), b.plan)
    ensures ok ==> Children(b.plan, Labels(Group(dawg.cells, s)), LangAt(dawg.cells, s), offset)
    ensures ok ==> var rest := Rest(Labels(Group(dawg.cells, s)), 0, offset);
      b.plan.pending == old(b.plan.pending) - {dicId} + rest && rest !! old(b.plan.pending)
    ensures !ok ==> |b.units| + 256 > MAX_OFFSET
  {
    hide Ready, LangAt, StoreOk, Remembers, Group, Rest, Children, Describes, IsStart, Extends, Waits, IsNode;
    Finished(b, dawg);
    CollectLabels(b, dawg, s);
    StateDescribed(dawg.cells, s, b.labels);
    StateNode(dawg.cells, s);
    assert b.labels == Labels(Group(dawg.cells, s));
    ok, offset := PlaceNode(b, dicId, if dawg.cells[s].byte == 0 then dawg.cells[s].Value()
      else 0, LangAt(dawg.cells, s));
    if !ok {
      return;
    }
    RemembersMore(b.table, old(b.plan), b.plan, dawg);
    if dawg.IsIntersection(s) {
      RememberOne(b.table, b.plan, dawg, s, offset);
      b.table := b.table[dawg.IntersectionId(s) := offset];
    }
  }

  /** `build_from_dawg`: places the state `s` for the slot `dicId`, and everything below it. */
  method BuildNode(b: DoubleArrayBuilder, dawg: DawgBuilder, s: nat, dicId: nat) returns (ok: bool)
    requires Ready(b) && Remembers(b.table, b.plan, dawg) && IsStart(dawg.cells, s)
    requires Waits(b.plan, dicId, LangAt(dawg.cells, s))
    modifies b
    ensures ok ==> Ready(b) && Remembers(b.table, b.plan, dawg) && Extends(old(b.plan), b.plan)
    ensures ok ==> b.plan.pending == old(b.plan.pending) - {dicId}
    ensures !ok ==> |b.units| + 256 > MAX_OFFSET
    decreases s
  {
    hide Ready, Remembers, LangAt, StoreOk, Xor, Extends, Group, GroupOk, IsStart, Rest, Children, Waits, Increasing;
    var done;
    ok, done := Share(b, dawg, s, dicId);
    if !ok || done {
      return;
    }
    var offset;
    ok, offset := PlaceState(b, dawg, s, dicId);
    if !ok {
      return;
    }
    Finished(b, dawg);
    StateCells(dawg, s);
    ghost var g := Group(dawg.cells, s);
    ghost var labels, lang := Labels(g), LangAt(dawg.cells, s);
    LabelsIncrease(dawg.cells, s, g);
    RestStep(labels, 0, offset);
    ghost var p0 := old(b.plan.pending) - {dicId};
    var id := s;
    ghost var j: nat := 0;
    while id != 0
      invariant Ready(b) && Remembers(b.table, b.plan, dawg) && Extends(old(b.plan), b.plan)
      invariant Children(b.plan, labels, lang, offset) && dawg.cells == old(dawg.cells)
      invariant j <= |g| && (if id == 0 then j == |g| else id == s + j && j < |g|)
      invariant b.plan.pending == p0 + Rest(labels, j, offset)
      decreases |g| - j + (if id == 0 then 0 else 1)
    {
      assert dawg.cells[s..s + |g|][j] == dawg.cells[id];
      var c := dawg.cells[id].byte;
      RestStep(labels, j, offset);
      if c != 0 {
        ChildWaits(b.plan, labels, lang, offset, j);
        StateChild(dawg.cells, s, j);
        ghost var plan1 := b.plan;
        ok := BuildNode(b, dawg, dawg.cells[id].Child(), Xor(offset, c));
        if !ok {
          return;
        }
        ChildrenStay(plan1, b.plan, labels, lang, offset);
        ExtendsMore(old(b.plan), plan1, b.plan);
      }
      id := dawg.Sibling(id);
      j := j + 1;
    }
  }

  lemma LabelsIncrease(cells: Cells, s: nat, g: seq<Cell>)
    requires GroupOk(cells, s, g)
    ensures Increasing(Labels(g))
  {
    GroupFlags(cells, s, g);
  }

  lemma NothingRemembered(dawg: DawgBuilder, plan: Plan, table: seq<nat>)
    requires dawg.Finished() && |table| == dawg.isIntersections.numOnes
      && forall i :: 0 <= i < |table| ==> table[i] == 0
    ensures Remembers(table, plan, dawg)
  {
    hide StoreOk, LangAt, BV.PopCount, BV.UpTo, BV.Count, BV.BitAt;
    forall s | 0 <= s < |dawg.cells| && dawg.IsIntersection(s) ensures dawg.IntersectionId(s) < |table| {
      BV.RankInRange(dawg.isIntersections, s);
    }
  }

  /** `build_from_dawg`: packs the whole graph. */
  method BuildFromDawg(b: DoubleArrayBuilder, dawg: DawgBuilder, ghost lang: Lang) returns (ok: bool)
    requires dawg.Finished()
    requires if dawg.cells[0].Child() == 0 then lang == imap[] else LangAt(dawg.cells, dawg.cells[0].Child()) == lang
    modifies b
    ensures ok ==> Answers(b.units, b.plan, lang)
    ensures !ok ==> |b.units| + 256 > MAX_OFFSET
  {
    hide StoreOk, LangAt, Ready, Remembers, IsStart, Answers, IsNode, Waits;
    GraphSize(dawg);
    var s := dawg.cells[0].Child();
    if s == 0 {
      BuildEmpty(b);
      return true;
    }
    StateNode(dawg.cells, s);
    StartBuild(b, lang);
    b.table := seq(dawg.isIntersections.numOnes, i => 0);
    NothingRemembered(dawg, b.plan, b.table);
    ok := BuildNode(b, dawg, s, 0);
    if ok {
      FinishBuild(b);
    }
  }

  lemma GraphSize(dawg: DawgBuilder)
    requires dawg.Finished()
    ensures |dawg.cells| > 0 && (dawg.cells[0].Child() == 0 || IsStart(dawg.cells, dawg.cells[0].Child()))
  {
  }
}
