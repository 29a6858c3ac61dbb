/** The builder that packs a trie into the array: slots, blocks and offsets. */
module DartsBuilder {
  import opened Bits
  import opened DartsUnit
  import opened Language
  import opened Layout
  import opened FreeRing

  /** Blocks whose records are still kept. */
  function LiveFrom(n: nat): nat {
    if n <= NUM_EXTRAS then 0 else n - NUM_EXTRAS
  }

  function Zeros(n: nat): (r: seq<Word>)
    ensures |r| == n && forall i :: 0 <= i < n ==> r[i] == 0
  {
    seq(n, i => 0)
  }

  /** The list of unfixed slots is in order, and those slots are untouched. */
  ghost predicate Slack(units: seq<Word>, lo: nat, extras: Extras, head: nat, free: seq<nat>, plan: Plan) {
    && lo <= |units|
    && Ring(lo, |units|, RecordsOf(lo, |units|, extras), head, free)
    && (forall id :: lo <= id < |units| ==>
          (At(extras, id).isUsed <==> id in plan.bases || (id == 0 && 0 in plan.owner)))
    && (forall id :: id in free ==> id < |units| && units[id] == 0 && id !in plan.owner)
    && (|units| < NUM_EXTRAS ==> Fresh(extras, |units|))
  }

  /** Records that no block uses yet. */
  ghost predicate Fresh(extras: Extras, n: nat) {
    forall i :: n <= i < NUM_EXTRAS ==> !extras[i].isFixed && !extras[i].isUsed
  }

  /** Every live slot is unfixed, owned, or reserved for the node being placed. */
  ghost predicate Settled(units: seq<Word>, lo: nat, free: seq<nat>, plan: Plan, taken: set<nat>) {
    forall id :: lo <= id < |units| ==> id in free || id in plan.owner || id in taken
  }

  lemma SlackUnlink(units: seq<Word>, lo: nat, ex: Extras, head: nat, free: seq<nat>, plan: Plan, j: nat)
    requires Slack(units, lo, ex, head, free, plan) && j < |free|
    ensures var id := free[j];
      var next := At(ex, id).next;
      var head' := if id == head then (if next == id then |units| else next) else head;
      Slack(units, lo, UnlinkIn(ex, id), head', Without(free, j), plan)
    ensures forall x :: x in Without(free, j) <==> x in free && x != free[j]
  {
    hide Ring, Unlink, UnlinkIn, Without, RecordsOf, Consistent, At;
    var n, id := |units|, free[j];
    var m := RecordsOf(lo, n, ex);
    RingParts(lo, n, m, head, free);
    WithoutKeeps(free, j);
    UnlinkKeepsRing(lo, n, m, head, free, j);
    UnlinkRecords(lo, n, ex, id);
    var ex' := UnlinkIn(ex, id);
    forall x | lo <= x < n ensures At(ex', x).isUsed == At(ex, x).isUsed && At(ex, x) == m[x] {
      RecordIs(lo, n, ex, x);
      RecordIs(lo, n, ex', x);
    }
    UnlinkFresh(units, lo, ex, head, free, plan, id);
  }

  lemma RingParts(lo: nat, n: nat, m: Records, head: nat, free: seq<nat>)
    requires Ring(lo, n, m, head, free)
    ensures Increasing(free) && Window(lo, n) && head == Head(n, free) && Covers(lo, n, m)
    ensures forall x :: x in free ==> lo <= x < n && x in m && m[x].prev in m && m[x].next in m
    ensures forall x :: lo <= x < n ==> x in m && (m[x].isFixed <==> x !in free)
  {
    forall i: nat | i < |free| ensures free[i] in m && m[free[i]].prev in m && m[free[i]].next in m {
      assert free[0] in m && free[|free| - 1] in m;
      assert i > 0 ==> free[i - 1] in m;
      assert i + 1 < |free| ==> free[i + 1] in m;
    }
  }

  lemma CoversRecords(lo: nat, n: nat, ex: Extras)
    ensures Covers(lo, n, RecordsOf(lo, n, ex))
  {
  }

  lemma RecordIs(lo: nat, n: nat, ex: Extras, x: nat)
    requires lo <= x < n
    ensures x in RecordsOf(lo, n, ex) && RecordsOf(lo, n, ex)[x] == At(ex, x)
  {
  }

  /** Records of blocks that do not exist yet are not touched. */
  lemma UnlinkFresh(units: seq<Word>, lo: nat, ex: Extras, head: nat, free: seq<nat>, plan: Plan, id: nat)
    requires Slack(units, lo, ex, head, free, plan) && id in free
    ensures |units| < NUM_EXTRAS ==> Fresh(UnlinkIn(ex, id), |units|)
  {
    hide Ring, At, Put, Fresh, RecordsOf;
    var n := |units|;
    if n < NUM_EXTRAS {
      var m := RecordsOf(lo, n, ex);
      RingParts(lo, n, m, head, free);
      var p, q := At(ex, id).prev, At(ex, id).next;
      RecordIs(lo, n, ex, id);
      PrevNextLive(lo, n, m, id);
      var ex1 := SetNext(ex, p, q);
      PutFresh(ex, n, p, At(ex, p).(next := q));
      PutRecord(lo, n, ex, p, At(ex, p).(next := q));
      RecordIs(lo, n, ex1, id);
      var ex2 := SetPrev(ex1, q, At(ex1, id).prev);
      PutFresh(ex1, n, q, At(ex1, q).(prev := At(ex1, id).prev));
      PutFresh(ex2, n, id, At(ex2, id).(isFixed := true));
    }
  }

  lemma PrevNextLive(lo: nat, n: nat, m: Records, id: nat)
    requires Covers(lo, n, m) && id in m && m[id].prev in m && m[id].next in m
    ensures m[id].prev < n && m[id].next < n && id < n
  {
  }

  lemma PutFresh(ex: Extras, n: nat, id: nat, r: Extra)
    requires id < n < NUM_EXTRAS && Fresh(ex, n)
    ensures Fresh(Put(ex, id, r), n)
  {
  }

  /** The label that fills an unfixed slot belongs to the unused offset of its block. */
  lemma FillerLabel(units: seq<Word>, plan: Plan, id: nat, unused: nat)
    requires id < |units| && units[id] == 0 && id / 256 == unused / 256 && unused !in plan.bases
    ensures Xor(id, unused) % 256 < 256
    ensures Filler(units[id := WithLabel(units[id], Xor(id, unused) % 256)], plan, id)
  {
    hide Xor, Label, Offset, HasLeaf, WithLabel;
    FreshUnit();
    XorSameBlock(id, unused);
    XorCancel(id, unused);
    LabelRoundTrip(0, Xor(id, unused));
  }

  /** The unit of a slot that stays unowned: its label leads to the offset `unused`. */
  function FillerUnit(q: nat, unused: nat): Word {
    WithLabel(0, Xor(q, unused) % 256)
  }

  /** `unused` is the first offset of the block at `lo` that is no base, or 0. */
  ghost predicate FirstUnused(plan: Plan, lo: nat, unused: nat) {
    if lo <= unused < lo + 256 && !AsBase(plan, unused) then forall b: nat :: lo <= b < unused ==> AsBase(plan, b)
    else unused == 0 && forall b: nat :: lo <= b < lo + 256 ==> AsBase(plan, b)
  }

  ghost predicate FilledBlock(units: seq<Word>, plan: Plan, lo: nat, unused: nat) {
    lo + 256 <= |units| && forall q: nat :: lo <= q < lo + 256 && q !in plan.owner ==> units[q] == FillerUnit(q, unused)
  }

  ghost predicate Filled(units: seq<Word>, plan: Plan, q: nat) {
    q in plan.owner || (q < |units| && Filler(units, plan, q))
  }

  lemma FilledWrite(units: seq<Word>, units': seq<Word>, plan: Plan, id: nat)
    requires |units'| == |units| && forall q :: 0 <= q < |units| && q != id ==> units'[q] == units[q]
    ensures forall q :: 0 <= q < |units| && q != id && Filled(units, plan, q) ==> Filled(units', plan, q)
  {
  }

  lemma SealMore(units: seq<Word>, units': seq<Word>, plan: Plan, lo: nat)
    requires Sealed(units, plan, lo) && lo + 256 <= |units'| && |units'| == |units|
    requires forall q :: 0 <= q < lo ==> units'[q] == units[q]
    requires forall q :: lo <= q < lo + 256 ==> Filled(units', plan, q)
    ensures Sealed(units', plan, lo + 256)
  {
    hide Label, Xor, HasLeaf, Offset;
    forall q | 0 <= q < lo + 256 ensures q in plan.owner || Filler(units', plan, q) {
      if q >= lo { assert Filled(units', plan, q); }
    }
  }

  lemma SlackRetire(units: seq<Word>, lo: nat, ex: Extras, head: nat, free: seq<nat>, plan: Plan)
    requires Slack(units, lo, ex, head, free, plan) && lo + 256 <= |units|
    requires forall id :: id in free ==> lo + 256 <= id
    ensures Slack(units, lo + 256, ex, head, free, plan)
  {
    hide Ring, At;
    RetireKeepsRing(lo, |units|, RecordsOf(lo, |units|, ex), head, free, RecordsOf(lo + 256, |units|, ex));
  }

  /** What the flags of a live slot say. */
  lemma SlackFlags(units: seq<Word>, lo: nat, ex: Extras, head: nat, free: seq<nat>, plan: Plan, id: nat)
    requires Slack(units, lo, ex, head, free, plan) && lo <= id < |units|
    ensures At(ex, id).isFixed <==> id !in free
    ensures At(ex, id).isUsed <==> id in plan.bases || (id == 0 && 0 in plan.owner)
    ensures lo % 256 == 0 && |units| % 256 == 0
    ensures id in free ==> units[id] == 0 && id !in plan.owner
  {
    hide Ring, At;
    RingParts(lo, |units|, RecordsOf(lo, |units|, ex), head, free);
    RecordIs(lo, |units|, ex, id);
  }

  lemma SlackRange(units: seq<Word>, lo: nat, ex: Extras, head: nat, free: seq<nat>, plan: Plan)
    requires Slack(units, lo, ex, head, free, plan)
    ensures forall x :: x in free ==> lo <= x < |units| && units[x] == 0 && x !in plan.owner
    ensures Window(lo, |units|)
  {
    hide At;
    RingParts(lo, |units|, RecordsOf(lo, |units|, ex), head, free);
  }

  /** Writing to reserved slots does not disturb the list. */
  lemma SlackWrite(units: seq<Word>, units': seq<Word>, lo: nat, ex: Extras, head: nat, free: seq<nat>, plan: Plan)
    requires Slack(units, lo, ex, head, free, plan) && |units'| == |units|
    requires forall x :: x in free && x < |units| ==> units'[x] == units[x]
    ensures Slack(units', lo, ex, head, free, plan)
  {
    hide Ring, At;
  }

  /** The records the link loop of `expand_units` starts from. */
  lemma BlockRecords(lo: nat, n: nat, ex: Extras)
    requires Window(lo, n) && Window(lo, n + 256)
    ensures var m0 := RecordsOf(lo, n + 256, ex);
      Chained(n, m0, n + 1, m0)
  {
  }

  lemma ChainStep(lo: nat, n: nat, m0: Records, i: nat, ex: Extras)
    requires Window(lo, n) && Window(lo, n + 256) && n < i < n + 256
    requires Covers(lo, n + 256, m0) && Chained(n, m0, i, RecordsOf(lo, n + 256, ex))
    ensures Chained(n, m0, i + 1, RecordsOf(lo, n + 256, SetPrev(SetNext(ex, i - 1, i), i, i - 1)))
    ensures n + 256 < NUM_EXTRAS && Fresh(ex, n + 256) ==> Fresh(SetPrev(SetNext(ex, i - 1, i), i, i - 1), n + 256)
  {
    hide At, RecordsOf, Fresh, SetNext, SetPrev, Window, Chained;
    WindowOrder(lo, n);
    ChainedStep(n, m0, i, RecordsOf(lo, n + 256, ex));
    SetNextRecord(lo, n + 256, ex, i - 1, i);
    SetPrevRecord(lo, n + 256, SetNext(ex, i - 1, i), i, i - 1);
    if n + 256 < NUM_EXTRAS && Fresh(ex, n + 256) {
      SetFresh(ex, n + 256, i - 1, i);
      SetFresh(SetNext(ex, i - 1, i), n + 256, i, i - 1);
    }
  }

  lemma WindowOrder(lo: nat, n: nat)
    requires Window(lo, n)
    ensures lo <= n
  {
  }

  lemma SetFresh(ex: Extras, n: nat, id: nat, v: nat)
    requires id < n < NUM_EXTRAS && Fresh(ex, n)
    ensures Fresh(SetNext(ex, id, v), n) && Fresh(SetPrev(ex, id, v), n)
  {
    hide Fresh, At, Put;
    PutFresh(ex, n, id, At(ex, id).(next := v));
    PutFresh(ex, n, id, At(ex, id).(prev := v));
  }

  /** The last six writes of `expand_units`. */
  function JoinIn(n: nat, head: nat, ex: Extras): Extras {
    var ex1 := SetPrev(ex, n, n + 255);
    var ex2 := SetNext(ex1, n + 255, n);
    var ex3 := SetPrev(ex2, n, At(ex2, head).prev);
    var ex4 := SetNext(ex3, n + 255, head);
    var ex5 := SetNext(ex4, At(ex4, head).prev, n);
    SetPrev(ex5, head, n + 255)
  }

  lemma JoinInRecords(lo: nat, n: nat, head: nat, last: nat, ex: Extras)
    requires Window(lo, n + 256) && lo <= n && lo <= head <= n && lo <= last < n + 256
    requires if head == n then last == n + 255 else At(ex, head).prev == last && last < n
    ensures var m := RecordsOf(lo, n + 256, ex);
      && n in m && n + 255 in m && head in m && last in m
      && RecordsOf(lo, n + 256, JoinIn(n, head, ex)) == Join(n, head, last, m)
  {
    hide At, RecordsOf, SetNext, SetPrev, Window;
    var d := n + 256;
    var m := RecordsOf(lo, d, ex);
    SetPrevRecord(lo, d, ex, n, n + 255);
    RecordIs(lo, d, ex, head);
    RecordIs(lo, d, ex, last);
    var ex1 := SetPrev(ex, n, n + 255);
    SetNextRecord(lo, d, ex1, n + 255, n);
    var ex2 := SetNext(ex1, n + 255, n);
    SetNextRecord(lo, d, ex2, head, 0);
    assert At(ex2, head).prev == last;
    SetPrevRecord(lo, d, ex2, n, last);
    var ex3 := SetPrev(ex2, n, last);
    SetNextRecord(lo, d, ex3, n + 255, head);
    var ex4 := SetNext(ex3, n + 255, head);
    SetNextRecord(lo, d, ex4, head, 0);
    assert At(ex4, head).prev == last;
    SetNextRecord(lo, d, ex4, last, n);
    var ex5 := SetNext(ex4, last, n);
    SetPrevRecord(lo, d, ex5, head, n + 255);
    var m2 := m[n := m[n].(prev := n + 255)][n + 255 := m[n := m[n].(prev := n + 255)][n + 255].(next := n)];
    assert RecordsOf(lo, d, ex2) == m2;
    assert RecordsOf(lo, d, ex4)
      == m[n := m[n].(prev := last)][n + 255 := m[n := m[n].(prev := last)][n + 255].(next := head)];
  }

  lemma JoinBlock(lo: nat, n: nat, head: nat, free: seq<nat>, ex0: Extras, ex1: Extras)
    requires Window(lo, n) && Window(lo, n + 256) && Ring(lo, n, RecordsOf(lo, n, ex0), head, free)
    requires forall id :: n <= id < n + 256 ==> !At(ex0, id).isFixed
    requires Chained(n, RecordsOf(lo, n + 256, ex0), n + 256, RecordsOf(lo, n + 256, ex1))
    ensures Ring(lo, n + 256, RecordsOf(lo, n + 256, JoinIn(n, head, ex1)), head, free + Block(n))
    ensures forall id :: lo <= id < n + 256 ==> At(JoinIn(n, head, ex1), id).isUsed == At(ex0, id).isUsed
    ensures n + 256 < NUM_EXTRAS && Fresh(ex1, n + 256) ==> Fresh(JoinIn(n, head, ex1), n + 256)
  {
    hide At, SetNext, SetPrev, JoinIn, Ring, Linked, Increasing, ListsFree, Spliced, Fresh, Succ, Pred;
    var m, m0, m1 := RecordsOf(lo, n, ex0), RecordsOf(lo, n + 256, ex0), RecordsOf(lo, n + 256, ex1);
    var last := Last(n, free);
    JoinSplices(lo, n, m, head, free, m0, m1);
    ListEnds(lo, n, m, head, free);
    RecordIs(lo, n + 256, ex1, head);
    JoinInRecords(lo, n, head, last, ex1);
    SpliceKeepsRing(lo, n, m, head, free, Join(n, head, last, m1));
    forall id | lo <= id < n + 256
      ensures At(JoinIn(n, head, ex1), id).isUsed == At(ex0, id).isUsed
    {
      RecordIs(lo, n + 256, JoinIn(n, head, ex1), id);
      RecordIs(lo, n + 256, ex0, id);
      assert id in m1;
    }
    if n + 256 < NUM_EXTRAS && Fresh(ex1, n + 256) {
      JoinInFresh(lo, n, head, last, ex1);
    }
  }

  lemma ListEnds(lo: nat, n: nat, m: Records, head: nat, free: seq<nat>)
    requires Ring(lo, n, m, head, free)
    ensures lo <= head <= n && lo <= Last(n, free) < n + 256 && Covers(lo, n, m)
    ensures if head == n then Last(n, free) == n + 255
            else head in m && m[head].prev == Last(n, free) && Last(n, free) < n
  {
    RingParts(lo, n, m, head, free);
    if free != [] {
      assert free[0] in m && m[free[0]].prev == Pred(free, 0);
      assert free[|free| - 1] in m;
    }
  }

  lemma JoinInFresh(lo: nat, n: nat, head: nat, last: nat, ex: Extras)
    requires Window(lo, n + 256) && lo <= n && lo <= head <= n && lo <= last < n + 256
    requires if head == n then last == n + 255 else At(ex, head).prev == last && last < n
    requires n + 256 < NUM_EXTRAS && Fresh(ex, n + 256)
    ensures Fresh(JoinIn(n, head, ex), n + 256)
  {
    hide At, SetNext, SetPrev, Fresh, Window, RecordsOf;
    var d := n + 256;
    SetFresh(ex, d, n, n + 255);
    var ex1 := SetPrev(ex, n, n + 255);
    SetFresh(ex1, d, n + 255, n);
    var ex2 := SetNext(ex1, n + 255, n);
    PrevOfHead(lo, n, head, last, ex, last);
    SetFresh(ex2, d, n, last);
    var ex3 := SetPrev(ex2, n, last);
    SetFresh(ex3, d, n + 255, head);
    var ex4 := SetNext(ex3, n + 255, head);
    SetFresh(ex4, d, last, n);
    SetFresh(SetNext(ex4, last, n), d, head, n + 255);
  }

  /** The list end does not move while the new block is tied to it. */
  lemma PrevOfHead(lo: nat, n: nat, head: nat, last: nat, ex: Extras, v: nat)
    requires Window(lo, n + 256) && lo <= n && lo <= head <= n && lo <= last < n + 256
    requires if head == n then last == n + 255 else At(ex, head).prev == last && last < n
    ensures var ex2 := SetNext(SetPrev(ex, n, n + 255), n + 255, n);
      && At(ex2, head).prev == last
      && At(SetNext(SetPrev(ex2, n, last), n + 255, head), head).prev == last
  {
    hide At, SetNext, SetPrev, Window, RecordsOf;
    var d := n + 256;
    SetPrevRecord(lo, d, ex, n, n + 255);
    RecordIs(lo, d, ex, head);
    var ex1 := SetPrev(ex, n, n + 255);
    SetNextRecord(lo, d, ex1, n + 255, n);
    var ex2 := SetNext(ex1, n + 255, n);
    SetNextRecord(lo, d, ex2, head, 0);
    SetPrevRecord(lo, d, ex2, n, last);
    var ex3 := SetPrev(ex2, n, last);
    SetNextRecord(lo, d, ex3, n + 255, head);
    SetNextRecord(lo, d, SetNext(ex3, n + 255, head), head, 0);
  }

  /** After a block of zero units and its records have been added. */
  lemma SlackGrow(units: seq<Word>, lo: nat, ex: Extras, ex': Extras, head: nat, free: seq<nat>, plan: Plan)
    requires Slack(units, lo, ex, head, free, plan) && Consistent(units, plan)
    requires Ring(lo, |units| + 256, RecordsOf(lo, |units| + 256, ex'), head, free + Block(|units|))
    requires forall id :: lo <= id < |units| ==> At(ex', id).isUsed == At(ex, id).isUsed
    requires forall id :: |units| <= id < |units| + 256 ==> !At(ex', id).isUsed
    requires |units| + 256 < NUM_EXTRAS ==> Fresh(ex', |units| + 256)
    ensures Slack(units + Zeros(256), lo, ex', head, free + Block(|units|), plan)
  {
    hide Ring, At, Fresh;
    var units' := units + Zeros(256);
    NewSlotsUnowned(units, lo, ex, head, free, plan);
    forall id | id in free + Block(|units|) ensures id < |units'| && units'[id] == 0 && id !in plan.owner {
      if id in Block(|units|) {
        assert |units| <= id < |units| + 256;
      }
    }
  }

  lemma NewSlotsUnowned(units: seq<Word>, lo: nat, ex: Extras, head: nat, free: seq<nat>, plan: Plan)
    requires Slack(units, lo, ex, head, free, plan) && Consistent(units, plan)
    ensures forall id :: |units| <= id ==> id !in plan.owner && id !in plan.bases
  {
    hide Xor, Slack, Label, Offset, HasLeaf, ValueUnit, HasLabel, IsNode, EdgeUnit, SlotOwned;
    SlackRange(units, lo, ex, head, free, plan);
    forall id | |units| <= id ensures id !in plan.owner && id !in plan.bases {
      assert id in plan.owner ==> SlotOk(units, plan, id);
      if id in plan.bases {
        BaseInside(units, plan, id, 0);
        XorZero(id);
      }
    }
  }

  /** The labels of a node: increasing bytes. */
  ghost predicate AreLabels(labels: seq<nat>) {
    labels != [] && Increasing(labels) && forall i :: 0 <= i < |labels| ==> labels[i] < 256
  }

  /** The distance from `id` to `offset` is one that `WithOffset` can store. */
  ghost predicate Fits(id: nat, offset: nat) {
    Encodable(Xor(id, offset))
  }

  /** `offset` counts as a base: it holds a node, or it is 0, which the root slot occupies. */
  ghost predicate AsBase(plan: Plan, offset: nat) {
    offset in plan.bases || (offset == 0 && 0 in plan.owner)
  }

  /** The slot `first` can take the first label of a node that slot `id` waits for. */
  ghost predicate Works(plan: Plan, free: seq<nat>, labels: seq<nat>, id: nat, first: nat)
    requires labels != []
  {
    var offset := Xor(first, labels[0]);
    Fits(id, offset) && !AsBase(plan, offset) && forall i :: 1 <= i < |labels| ==> Xor(offset, labels[i]) in free
  }

  /** `free[j]` is the first unfixed slot that works; `j` is the length of the list if none does. */
  ghost predicate FirstFit(plan: Plan, free: seq<nat>, labels: seq<nat>, id: nat, j: nat)
    requires labels != [] && j <= |free|
  {
    && (forall e :: 0 <= e < j ==> !Works(plan, free, labels, id, free[e]))
    && (j < |free| ==> Works(plan, free, labels, id, free[j]))
  }

  function Chosen(n: nat, free: seq<nat>, labels: seq<nat>, id: nat, j: nat): nat
    requires labels != [] && j <= |free|
  {
    if j < |free| then Xor(free[j], labels[0]) else n + id % 256
  }

  lemma SlotInWindow(lo: nat, n: nat, offset: nat, c: nat)
    requires lo % 256 == 0 && n % 256 == 0 && lo <= offset < n && c < 256
    ensures lo <= Xor(offset, c) < n
  {
    hide Xor;
    XorBlock(offset, c);
  }

  lemma FreshFits(id: nat, n: nat)
    requires n % 256 == 0
    ensures Fits(id, n + id % 256)
  {
    hide Xor;
    XorSameByte(id, n + id % 256);
  }

  lemma SlackHead(units: seq<Word>, lo: nat, ex: Extras, head: nat, free: seq<nat>, plan: Plan)
    requires Slack(units, lo, ex, head, free, plan)
    ensures head == Head(|units|, free)
    ensures head >= |units| <==> free == []
  {
    hide At;
    SlackRange(units, lo, ex, head, free, plan);
    if free != [] { assert free[0] in free; }
  }

  lemma SlackNext(units: seq<Word>, lo: nat, ex: Extras, head: nat, free: seq<nat>, plan: Plan, j: nat)
    requires Slack(units, lo, ex, head, free, plan) && j < |free|
    ensures At(ex, free[j]).next == Succ(free, j)
    ensures At(ex, free[j]).next == head <==> j + 1 == |free|
  {
    hide At;
    var m := RecordsOf(lo, |units|, ex);
    assert free[j] in m && m[free[j]].next == Succ(free, j);
    RecordIs(lo, |units|, ex, free[j]);
  }

  /** The units of the first `i` labels are written. */
  ghost predicate Written(units: seq<Word>, labels: seq<nat>, i: nat, offset: nat, lang: Lang) {
    forall j :: 0 <= j < i && j < |labels| ==>
      Xor(offset, labels[j]) < |units| && FreshEdge(units[Xor(offset, labels[j])], lang, labels[j])
  }

  /** The slots of the first `i` labels. */
  ghost function SlotsOf(labels: seq<nat>, i: nat, offset: nat): set<nat>
    requires i <= |labels|
  {
    set j | 0 <= j < i :: Xor(offset, labels[j])
  }

  /** The labels are those of the edges of `lang`, and `value` is what its terminator leads to. */
  ghost predicate Describes(labels: seq<nat>, value: nat, lang: Lang) {
    && AreLabels(labels)
    && (forall c :: HasLabel(lang, c) <==> c in labels)
    && ([] in lang ==> lang[[]] == value < TOP)
  }

  lemma WriteKeeps(units: seq<Word>, units': seq<Word>, labels: seq<nat>, i: nat, offset: nat, lang: Lang)
    requires Written(units, labels, i, offset, lang) && i < |labels| && AreLabels(labels)
    requires |units| <= |units'| && Xor(offset, labels[i]) < |units'|
    requires forall j ::
      0 <= j < i && Xor(offset, labels[j]) < |units|
      ==> units'[Xor(offset, labels[j])] == units[Xor(offset, labels[j])]
    requires FreshEdge(units'[Xor(offset, labels[i])], lang, labels[i])
    ensures Written(units', labels, i + 1, offset, lang)
  {
    hide Xor, FreshEdge;
  }

  lemma SlotsDiffer(labels: seq<nat>, i: nat, offset: nat)
    requires AreLabels(labels) && i < |labels|
    ensures forall j :: 0 <= j < |labels| && j != i ==> Xor(offset, labels[j]) != Xor(offset, labels[i])
  {
    hide Xor;
    forall j | 0 <= j < |labels| && j != i ensures Xor(offset, labels[j]) != Xor(offset, labels[i]) {
      if Xor(offset, labels[j]) == Xor(offset, labels[i]) {
        XorInjective(offset, labels[j], labels[i]);
      }
    }
  }

  /** The parent's unit points at `offset`, and has the leaf bit once the terminator is done. */
  ghost predicate ParentUnit(units: seq<Word>, plan: Plan, labels: seq<nat>, i: nat, dicId: nat, offset: nat) {
    && dicId < |units| && dicId in plan.active && dicId in plan.owner
    && units[dicId] < TOP
    && Offset(units[dicId]) == Xor(dicId, offset)
    && (HasLeaf(units[dicId]) <==> i > 0 && labels != [] && labels[0] == 0)
  }

  /** The slots of the labels from `i` on are unfixed, or lie in the block to come. */
  ghost predicate Available(n: nat, free: seq<nat>, plan: Plan, labels: seq<nat>, i: nat, dicId: nat, offset: nat) {
    && (forall j :: 0 <= j < |labels| ==> Xor(offset, labels[j]) !in plan.owner)
    && (forall j :: 0 <= j < i && j < |labels| ==> Xor(offset, labels[j]) !in free)
    && ((forall j :: i <= j < |labels| ==> Xor(offset, labels[j]) in free) || (i == 0 && offset == n + dicId % 256))
  }

  /** What a round writes. */
  function WriteUnit(units: seq<Word>, dicId: nat, id: nat, c: nat, value: nat): seq<Word>
    requires dicId < |units| && id < |units| && c < 256 && (c == 0 ==> value < TOP)
  {
    if c == 0 then units[dicId := WithLeaf(units[dicId])][id := ValueUnit(value)]
    else units[id := WithLabel(units[id], c)]
  }

  lemma LabelFacts(labels: seq<nat>, value: nat, lang: Lang, i: nat)
    requires Describes(labels, value, lang) && i < |labels|
    ensures labels[i] < 256 && HasLabel(lang, labels[i]) && (labels[i] == 0 ==> [] in lang && lang[[]] == value < TOP)
    ensures labels[i] == 0 <==> i == 0 && labels[0] == 0
  {
    hide HasLabel;
    LeafLabel(lang);
    assert labels[i] in labels;
    assert i > 0 ==> labels[0] < labels[i];
  }

  lemma NextSlot(n: nat, free: seq<nat>, plan: Plan, labels: seq<nat>, i: nat, dicId: nat, offset: nat, value: nat,
                 lang: Lang)
    requires Available(n, free, plan, labels, i, dicId, offset) && Describes(labels, value, lang) && i < |labels|
    requires n % 256 == 0 && forall x :: x in free ==> x < n
    ensures var id := Xor(offset, labels[i]);
      && (id < n ==> id in free)
      && (id >= n ==> id < n + 256 && i == 0 && offset == n + dicId % 256)
      && id !in plan.owner
  {
    hide Xor, HasLabel;
    LabelFacts(labels, value, lang, i);
    XorBlock(offset, labels[i]);
  }

  /** After the `i`-th slot is reserved, the rest is still available. */
  lemma NextAvailable(n: nat, n': nat, free: seq<nat>, free': seq<nat>, plan: Plan, labels: seq<nat>, i: nat,
                      dicId: nat, offset: nat)
    requires Available(n, free, plan, labels, i, dicId, offset) && AreLabels(labels) && i < |labels| && n % 256 == 0
    requires forall x :: x in free ==> x < n
    requires var id := Xor(offset, labels[i]);
      id !in free' &&
      if id < n then forall x :: x in free' <==> x in free && x != id
      else n' == n + 256 && forall x :: n <= x < n' && x != id ==> x in free'
    ensures Available(n', free', plan, labels, i + 1, dicId, offset)
  {
    hide Xor, Increasing;
    SlotsDiffer(labels, i, offset);
    forall j | 0 <= j < |labels| ensures Xor(offset, labels[j]) / 256 == offset / 256 {
      XorBlock(offset, labels[j]);
    }
  }

  lemma SlotsOfNext(labels: seq<nat>, i: nat, offset: nat)
    requires i < |labels|
    ensures SlotsOf(labels, i + 1, offset) == SlotsOf(labels, i, offset) + {Xor(offset, labels[i])}
    ensures SlotsOf(labels, 0, offset) == {}
  {
    hide Xor;
  }

  lemma FreshUnits(c: nat, value: nat, lang: Lang)
    requires c < 256 && (c == 0 ==> [] in lang && lang[[]] == value < TOP)
    ensures FreshEdge(if c == 0 then ValueUnit(value) else WithLabel(0, c), lang, c)
  {
    LabelRoundTrip(0, c);
    FreshUnit();
  }

  lemma WriteUnitAt(units: seq<Word>, dicId: nat, id: nat, c: nat, value: nat)
    requires dicId < |units| && id < |units| && id != dicId && c < 256 && (c == 0 ==> value < TOP) && units[id] == 0
    requires units[dicId] < TOP
    ensures var w := WriteUnit(units, dicId, id, c, value);
      && |w| == |units|
      && (forall x :: 0 <= x < |units| && x != dicId && x != id ==> w[x] == units[x])
      && w[id] == (if c == 0 then ValueUnit(value) else WithLabel(0, c))
      && w[dicId] < TOP && Label(w[dicId]) == Label(units[dicId]) && Offset(w[dicId]) == Offset(units[dicId])
      && (HasLeaf(w[dicId]) <==> c == 0 || HasLeaf(units[dicId]))
  {
    hide Label, Offset, HasLeaf, WithLeaf, WithLabel;
    LeafRoundTrip(units[dicId]);
  }

  /** A round keeps the plan and records its edge. */
  lemma EdgeWritten(units: seq<Word>, plan: Plan, lo: nat, labels: seq<nat>, i: nat, dicId: nat, offset: nat,
                    value: nat, lang: Lang)
    requires Consistent(units, plan) && Sealed(units, plan, lo) && lo % 256 == 0 && lo <= offset
    requires Describes(labels, value, lang) && i < |labels|
    requires Written(units, labels, i, offset, lang) && ParentUnit(units, plan, labels, i, dicId, offset)
    requires var id := Xor(offset, labels[i]); id < |units| && units[id] == 0 && id !in plan.owner
    requires forall j :: 0 <= j < |labels| ==> Xor(offset, labels[j]) !in plan.owner
    ensures labels[i] < 256 && (labels[i] == 0 ==> value < TOP) && Xor(offset, labels[i]) >= lo
    ensures var w := WriteUnit(units, dicId, Xor(offset, labels[i]), labels[i], value);
      && |w| == |units| && Consistent(w, plan) && Sealed(w, plan, lo)
      && Written(w, labels, i + 1, offset, lang) && ParentUnit(w, plan, labels, i + 1, dicId, offset)
      && (forall x :: 0 <= x < |units| && x != dicId && x != Xor(offset, labels[i]) ==> w[x] == units[x])
  {
    hide Consistent, Sealed, Xor, Label, Offset, HasLeaf, WithLeaf, WithLabel, Describes, WriteUnit, FreshEdge, Written,
      ValueUnit;
    LabelFacts(labels, value, lang, i);
    DescribedLabels(labels, value, lang);
    var c := labels[i];
    var id := Xor(offset, c);
    XorBlock(offset, c);
    WriteUnitAt(units, dicId, id, c, value);
    var w := WriteUnit(units, dicId, id, c, value);
    FreshUnits(c, value, lang);
    SlotsDiffer(labels, i, offset);
    WriteKeeps(units, w, labels, i, offset, lang);
    FrameActive(units, w, plan, dicId);
    SealedFrame(units, w, plan, lo);
  }

  lemma AvailableUnowned(n: nat, free: seq<nat>, plan: Plan, labels: seq<nat>, i: nat, dicId: nat, offset: nat)
    requires Available(n, free, plan, labels, i, dicId, offset)
    ensures forall j :: 0 <= j < |labels| ==> Xor(offset, labels[j]) !in plan.owner
  {
    hide Xor;
  }

  lemma ParentOwned(units: seq<Word>, plan: Plan, labels: seq<nat>, i: nat, dicId: nat, offset: nat)
    requires ParentUnit(units, plan, labels, i, dicId, offset)
    ensures dicId < |units| && dicId in plan.owner
  {
    hide Xor, Offset, HasLeaf;
  }

  lemma ParentSame(units: seq<Word>, units': seq<Word>, plan: Plan, labels: seq<nat>, i: nat, dicId: nat, offset: nat)
    requires ParentUnit(units, plan, labels, i, dicId, offset)
    requires dicId < |units| && dicId < |units'| && units'[dicId] == units[dicId]
    ensures ParentUnit(units', plan, labels, i, dicId, offset)
  {
    hide Xor, Offset, HasLeaf;
  }

  lemma WrittenSame(units: seq<Word>, units': seq<Word>, labels: seq<nat>, i: nat, offset: nat, lang: Lang)
    requires Written(units, labels, i, offset, lang)
    requires i == 0 || units' == units
    ensures Written(units', labels, i, offset, lang)
  {
    hide Xor, FreshEdge;
  }

  lemma DescribedLabels(labels: seq<nat>, value: nat, lang: Lang)
    requires Describes(labels, value, lang)
    ensures AreLabels(labels)
  {
  }

  lemma SealedFrame(units: seq<Word>, units': seq<Word>, plan: Plan, lo: nat)
    requires Sealed(units, plan, lo) && |units'| == |units|
    requires forall q :: 0 <= q < lo && q !in plan.owner ==> units'[q] == units[q]
    ensures Sealed(units', plan, lo)
  {
    hide Label, Xor, HasLeaf, Offset;
  }

  lemma PendingUnit(units: seq<Word>, plan: Plan, p: nat)
    requires Consistent(units, plan) && p in plan.pending && p !in plan.active
    ensures p in plan.owner && p < |units| && units[p] < TOP && !HasLeaf(units[p])
  {
    hide Xor, Label, Offset, HasLeaf, ValueUnit, HasLabel, LinksTo;
    assert SlotOk(units, plan, p);
  }

  lemma NotYetBase(units: seq<Word>, lo: nat, ex: Extras, head: nat, free: seq<nat>, plan: Plan, offset: nat)
    requires Slack(units, lo, ex, head, free, plan) && Consistent(units, plan) && 0 in plan.owner
    requires offset >= |units| || !AsBase(plan, offset)
    ensures !AsBase(plan, offset)
  {
    hide Slack, Consistent;
    NewSlotsUnowned(units, lo, ex, head, free, plan);
  }

  lemma FreshSlotsUnowned(units: seq<Word>, lo: nat, ex: Extras, head: nat, free: seq<nat>, plan: Plan,
                          labels: seq<nat>, dicId: nat, offset: nat)
    requires Slack(units, lo, ex, head, free, plan) && Consistent(units, plan) && AreLabels(labels)
    requires offset == |units| + dicId % 256 || forall i :: 0 <= i < |labels| ==> Xor(offset, labels[i]) in free
    ensures Available(|units|, free, plan, labels, 0, dicId, offset)
  {
    hide Slack, Consistent, Xor;
    NewSlotsUnowned(units, lo, ex, head, free, plan);
    SlackRange(units, lo, ex, head, free, plan);
    forall j | 0 <= j < |labels| ensures Xor(offset, labels[j]) !in plan.owner {
      XorBlock(offset, labels[j]);
    }
  }

  lemma SlackBegin(units: seq<Word>, lo: nat, ex: Extras, head: nat, free: seq<nat>, plan: Plan, p: nat)
    requires Slack(units, lo, ex, head, free, plan)
    ensures Slack(units, lo, ex, head, free, Begin(plan, p)) && Slack(units, lo, ex, head, free, End(plan, p))
  {
    hide Ring, At;
  }

  lemma SealedBegin(units: seq<Word>, plan: Plan, p: nat, lo: nat)
    requires Sealed(units, plan, lo)
    ensures Sealed(units, Begin(plan, p), lo) && Sealed(units, End(plan, p), lo)
  {
    hide Label, Xor, HasLeaf, Offset;
  }

  lemma AllWritten(units: seq<Word>, labels: seq<nat>, offset: nat, value: nat, lang: Lang)
    requires Written(units, labels, |labels|, offset, lang) && Describes(labels, value, lang)
    ensures forall c ::
      c < 256 && HasLabel(lang, c)
      ==> Xor(offset, c) < |units| && FreshEdge(units[Xor(offset, c)], lang, c)
  {
    hide Xor, FreshEdge, HasLabel;
    forall c: nat | c < 256 && HasLabel(lang, c) ensures Xor(offset, c) < |units|
      && FreshEdge(units[Xor(offset, c)], lang, c) {
      var j :| 0 <= j < |labels| && labels[j] == c;
    }
  }

  lemma AllSlots(labels: seq<nat>, offset: nat, value: nat, lang: Lang)
    requires Describes(labels, value, lang)
    ensures SlotsOf(labels, |labels|, offset) == Slots(offset, lang)
    ensures forall q :: q in Slots(offset, lang) ==> q / 256 == offset / 256
    ensures Slots(offset, lang) != {}
  {
    hide Xor, HasLabel;
    forall q ensures q in SlotsOf(labels, |labels|, offset) <==> q in Slots(offset, lang) {
      if q in SlotsOf(labels, |labels|, offset) {
        var j :| 0 <= j < |labels| && q == Xor(offset, labels[j]);
        assert labels[j] in labels;
      }
      if q in Slots(offset, lang) {
        var c: nat :| c < 256 && HasLabel(lang, c) && q == Xor(offset, c);
        var j :| 0 <= j < |labels| && labels[j] == c;
        assert q == Xor(offset, labels[j]);
      }
    }
    forall q | q in Slots(offset, lang) ensures q / 256 == offset / 256 {
      var c: nat :| c < 256 && HasLabel(lang, c) && q == Xor(offset, c);
      XorBlock(offset, c);
    }
    assert labels[0] in labels;
    assert Xor(offset, labels[0]) in Slots(offset, lang);
  }

  lemma CanPlaceNow(n: nat, free: seq<nat>, plan: Plan, labels: seq<nat>, dicId: nat, offset: nat, value: nat,
                    lang: Lang)
    requires Available(n, free, plan, labels, |labels|, dicId, offset) && Describes(labels, value, lang)
    requires !AsBase(plan, offset) && 0 in plan.owner
    ensures CanPlace(plan, offset, lang)
    ensures forall q :: q in Slots(offset, lang) ==> q !in free
  {
    hide Xor, HasLabel, Slots;
    AllSlots(labels, offset, value, lang);
    hide SlotsOf;
  }

  lemma ParentLinked(units: seq<Word>, plan: Plan, labels: seq<nat>, dicId: nat, offset: nat, value: nat, lang: Lang)
    requires ParentUnit(units, plan, labels, |labels|, dicId, offset) && Describes(labels, value, lang)
    requires CanPlace(plan, offset, lang) && lang == plan.Next(dicId) && dicId !in plan.pending
    requires dicId == 0 || plan.owner[dicId] in plan.bases
    ensures dicId < |units| && dicId in plan.active
    ensures var plan' := Place(plan, offset, lang);
      dicId in plan'.owner && dicId !in plan'.pending && dicId in plan'.active && plan'.Next(dicId) == lang
      && LinksTo(units, plan', dicId, lang)
  {
    hide Xor, HasLabel, Slots, Offset, HasLeaf;
    XorCancel(dicId, offset);
    LeafLabel(lang);
    assert [] in lang <==> 0 in labels;
    assert forall j :: 0 < j < |labels| ==> labels[0] < labels[j];
    assert dicId in plan.owner;
  }

  /** Marking the new base as used. */
  lemma SlackUse(units: seq<Word>, lo: nat, ex: Extras, head: nat, free: seq<nat>, plan: Plan, labels: seq<nat>,
                 offset: nat, value: nat, lang: Lang)
    requires Slack(units, lo, ex, head, free, plan) && Describes(labels, value, lang) && lo <= offset
    requires Settled(units, lo, free, plan, SlotsOf(labels, |labels|, offset))
    requires CanPlace(plan, offset, lang)
    requires offset < |units| && forall q :: q in Slots(offset, lang) ==> q !in free
    ensures Slack(units, lo, Put(ex, offset, At(ex, offset).(isUsed := true)), head, free, Place(plan, offset, lang))
    ensures Settled(units, lo, free, Place(plan, offset, lang), {})
  {
    hide At, Put, Ring, RecordsOf, Slots, SlotsOf, HasLabel, Fresh, Describes;
    var n, ex' := |units|, Put(ex, offset, At(ex, offset).(isUsed := true));
    var plan' := Place(plan, offset, lang);
    AllSlots(labels, offset, value, lang);
    SlackRing(units, lo, ex, head, free, plan);
    PutRecord(lo, n, ex, offset, At(ex, offset).(isUsed := true));
    RecordIs(lo, n, ex, offset);
    UseKeepsRing(lo, n, RecordsOf(lo, n, ex), head, free, offset);
    forall id | lo <= id < n
      ensures At(ex', id).isUsed <==> id in plan'.bases || (id == 0 && 0 in plan'.owner)
    {
      RecordIs(lo, n, ex, id);
      RecordIs(lo, n, ex', id);
      SlackFlags(units, lo, ex, head, free, plan, id);
    }
    if n < NUM_EXTRAS {
      PutFresh(ex, n, offset, At(ex, offset).(isUsed := true));
    }
  }

  lemma UseKeepsRing(lo: nat, n: nat, m: Records, head: nat, free: seq<nat>, id: nat)
    requires Ring(lo, n, m, head, free) && id in m
    ensures Ring(lo, n, m[id := m[id].(isUsed := true)], head, free)
  {
    hide Succ, Pred, Head, Increasing;
  }

  lemma OwnerIsBase(units: seq<Word>, plan: Plan, q: nat)
    requires Consistent(units, plan) && q in plan.owner
    ensures q == 0 || plan.owner[q] in plan.bases
    ensures q < |units|
  {
    hide Xor, Label, Offset, HasLeaf, ValueUnit, HasLabel, LinksTo, EdgeUnit;
    assert SlotOk(units, plan, q);
  }

  lemma SlotsInside(units: seq<Word>, labels: seq<nat>, offset: nat, value: nat, lang: Lang)
    requires Written(units, labels, |labels|, offset, lang) && Describes(labels, value, lang) && |units| % 256 == 0
    ensures offset < |units|
  {
    hide Xor, HasLabel, FreshEdge;
    XorBlock(offset, labels[0]);
  }

  lemma EmptySlack(extras: Extras, root: Lang)
    requires IsNode(root) && forall i :: 0 <= i < NUM_EXTRAS ==> extras[i] == Extra(0, 0, false, false)
    ensures var plan := Plan(root, map[], map[], {}, {});
      Slack([], 0, extras, 0, [], plan) && Consistent([], plan) && Sealed([], plan, 0) && Settled([], 0, [], plan, {})
  {
    hide IsNode;
  }

  lemma RootUnit(u: Word)
    requires u == 0
    ensures Encodable(1) && u < TOP
    ensures var w := WithLabel(WithOffset(u, 1), 0); w < TOP && Label(w) == 0 && Offset(w) == 1 && !HasLeaf(w)
  {
    hide Label, Offset, HasLeaf, WithLabel, WithOffset;
    FreshUnit();
    OffsetRoundTrip(u, 1);
    LabelRoundTrip(WithOffset(u, 1), 0);
  }

  lemma RootPlaced(units: seq<Word>, units': seq<Word>, lo: nat, ex: Extras, head: nat, free: seq<nat>, root: Lang)
    requires Slack(units, lo, ex, head, free, Plan(root, map[], map[], {}, {})) && IsNode(root)
    requires Settled(units, lo, free, Plan(root, map[], map[], {}, {}), {0}) && lo == 0 && |units| == 256
    requires |units'| == |units| && 0 !in free && forall q :: 0 < q < |units| ==> units'[q] == units[q]
    requires units'[0] < TOP && Label(units'[0]) == 0 && !HasLeaf(units'[0])
    ensures var plan := Plan(root, map[], map[0 := 0], {0}, {});
      && Slack(units', lo, Put(ex, 0, At(ex, 0).(isUsed := true)), head, free, plan)
      && Consistent(units', plan) && Sealed(units', plan, lo) && Settled(units', lo, free, plan, {})
  {
    hide Label, HasLeaf, Offset, Xor, IsNode, Ring, RecordsOf, Fresh, At, Put;
    var plan0 := Plan(root, map[], map[], {}, {});
    var plan := Plan(root, map[], map[0 := 0], {0}, {});
    var n, ex' := |units|, Put(ex, 0, At(ex, 0).(isUsed := true));
    SlackRing(units, lo, ex, head, free, plan0);
    PutRecord(lo, n, ex, 0, At(ex, 0).(isUsed := true));
    RecordIs(lo, n, ex, 0);
    UseKeepsRing(lo, n, RecordsOf(lo, n, ex), head, free, 0);
    forall id | lo <= id < n ensures At(ex', id).isUsed <==> id in plan.bases || (id == 0 && 0 in plan.owner) {
      RecordIs(lo, n, ex, id);
      RecordIs(lo, n, ex', id);
      SlackFlags(units, lo, ex, head, free, plan0, id);
    }
    PutFresh(ex, n, 0, At(ex, 0).(isUsed := true));
  }

  class DoubleArrayBuilder {
    var units: seq<Word>
    var extras: Extras
    var labels: seq<nat>
    var table: seq<nat>
    var extrasHead: nat
    ghost var lo: nat
    ghost var free: seq<nat>
    ghost var plan: Plan

    constructor ()
    {
      units, labels, table, extrasHead := [], [], [], 0;
      extras := seq(NUM_EXTRAS, i => Extra(0, 0, false, false));
    }

    ghost predicate SlackOk()
      reads `units, `lo, `extras, `extrasHead, `free, `plan
    {
      Slack(units, lo, extras, extrasHead, free, plan)
    }

    ghost predicate PlanOk()
      reads `units, `plan, `lo
    {
      Consistent(units, plan) && Sealed(units, plan, lo)
    }

    /** `reserve_id` for a slot that exists. */
    method Reserve(id: nat)
      requires SlackOk() && id in free
      modifies this`extras, this`extrasHead, this`free
      ensures SlackOk()
      ensures forall x :: x in free <==> x in old(free) && x != id
    {
      hide Slack, Without, At, Put, SetNext, SetPrev;
      ghost var j: nat :| j < |free| && free[j] == id;
      SlackUnlink(units, lo, extras, extrasHead, free, plan, j);
      if id == extrasHead {
        extrasHead := At(extras, id).next;
        if extrasHead == id {
          extrasHead := |units|;
        }
      }
      extras := SetNext(extras, At(extras, id).prev, At(extras, id).next);
      extras := SetPrev(extras, At(extras, id).next, At(extras, id).prev);
      extras := Put(extras, id, At(extras, id).(isFixed := true));
      free := Without(free, j);
    }
  
    /** The first offset of the oldest block that is no base, or 0 if every offset is used;
        but then the block has no unfixed slot. */
    method UnusedOffset(begin: nat) returns (unused: nat)
      requires SlackOk() && Consistent(units, plan) && Settled(units, lo, free, plan, {})
      requires lo == begin && lo + 256 <= |units|
      ensures FirstUnused(plan, lo, unused)
      ensures unused !in plan.bases || forall q :: lo <= q < lo + 256 ==> q !in free
      ensures lo <= unused < lo + 256 || forall q :: lo <= q < lo + 256 ==> q !in free
    {
      hide Slack, Consistent, Label, At;
      var end := begin + 256;
      unused := 0;
      var offset := begin;
      while offset != end && At(extras, offset).isUsed
        invariant begin <= offset <= end
        invariant forall b: nat :: begin <= b < offset ==> AsBase(plan, b)
      {
        SlackFlags(units, lo, extras, extrasHead, free, plan, offset);
        offset := offset + 1;
      }
      if offset != end {
        unused := offset;
        SlackFlags(units, lo, extras, extrasHead, free, plan, offset);
      } else {
        SlackFlags(units, lo, extras, extrasHead, free, plan, begin);
        forall b | lo <= b < lo + 256 ensures b in plan.bases || (b == 0 && 0 in plan.owner) {
          assert AsBase(plan, b);
        }
        FullBlock(units, plan, lo);
        forall q | lo <= q < lo + 256 ensures q !in free {
          SlackFlags(units, lo, extras, extrasHead, free, plan, q);
        }
      }
    }

    /** Gives the slots of the oldest block that are still unfixed labels that never match. */
    method FixBlock(block: nat) returns (ghost unused: nat)
      requires SlackOk() && PlanOk() && Settled(units, lo, free, plan, {})
      requires lo == block * 256 && lo + 256 <= |units|
      modifies `units, `extras, `extrasHead, `free, `lo
      ensures SlackOk() && PlanOk() && Settled(units, lo, free, plan, {})
      ensures |units| == |old(units)| && lo == old(lo) + 256
      ensures forall x :: x in free <==> x in old(free) && x >= lo
      ensures forall q :: (q in plan.owner && q < |units|) || 0 <= q < old(lo) ==> units[q] == old(units[q])
      ensures FirstUnused(plan, old(lo), unused) && FilledBlock(units, plan, old(lo), unused)
    {
      hide Slack, Consistent, Label, HasLeaf, Offset, WithLabel, Sealed, Filler, Xor, At, FirstUnused;
      var begin := block * 256;
      var end := begin + 256;
      var spare := UnusedOffset(begin);
      unused := spare;
      ghost var units0, free0 := units, free;
      SlackRange(units, lo, extras, extrasHead, free, plan);
      var id := begin;
      while id != end
        invariant begin <= id <= end && SlackOk() && |units| == |units0| && lo == begin
        invariant forall x :: x in free <==> x in free0 && x >= id
        invariant forall q :: 0 <= q < |units| && (q in plan.owner || q < lo) ==> units[q] == units0[q]
        invariant forall q :: lo <= q < id ==> Filled(units, plan, q)
        invariant forall q :: lo <= q < id && q !in plan.owner ==> units[q] == FillerUnit(q, spare)
      {
        SlackFlags(units, lo, extras, extrasHead, free, plan, id);
        if !At(extras, id).isFixed {
          FillerLabel(units, plan, id, spare);
          Reserve(id);
          ghost var before := units;
          units := units[id := WithLabel(units[id], Xor(id, spare) % 256)];
          SlackWrite(before, units, lo, extras, extrasHead, free, plan);
          FilledWrite(before, units, plan, id);
        }
        id := id + 1;
      }
      SlackRetire(units, lo, extras, extrasHead, free, plan);
      SealMore(units0, units, plan, lo);
      FrameSame(units0, units, plan);
      lo := lo + 256;
    }
  
    /** Chains the records of the block at `n` and joins them to the end of the list. */
    method LinkBlock(n: nat)
      requires Window(lo, n) && Window(lo, n + 256) && Ring(lo, n, RecordsOf(lo, n, extras), extrasHead, free)
      requires forall id :: n <= id < n + 256 ==> !At(extras, id).isFixed
      modifies `extras
      ensures Ring(lo, n + 256, RecordsOf(lo, n + 256, extras), extrasHead, free + Block(n))
      ensures forall id :: lo <= id < n + 256 ==> At(extras, id).isUsed == old(At(extras, id).isUsed)
      ensures n + 256 < NUM_EXTRAS && Fresh(old(extras), n + 256) ==> Fresh(extras, n + 256)
    {
      hide Ring, Window, SetNext, SetPrev, At, Fresh, Chained, Spliced, RecordsOf, Join, Last;
      var dest := n + 256;
      ghost var ex0, m0 := extras, RecordsOf(lo, dest, extras);
      CoversRecords(lo, dest, extras);
      var i := n + 1;
      BlockRecords(lo, n, extras);
      while i < dest
        invariant n < i <= dest && Chained(n, m0, i, RecordsOf(lo, dest, extras))
        invariant dest < NUM_EXTRAS && Fresh(ex0, dest) ==> Fresh(extras, dest)
      {
        ChainStep(lo, n, m0, i, extras);
        extras := SetNext(extras, i - 1, i);
        extras := SetPrev(extras, i, i - 1);
        i := i + 1;
      }
      ghost var ex1 := extras;
      extras := SetPrev(extras, n, dest - 1);
      extras := SetNext(extras, dest - 1, n);
      extras := SetPrev(extras, n, At(extras, extrasHead).prev);
      extras := SetNext(extras, dest - 1, extrasHead);
      extras := SetNext(extras, At(extras, extrasHead).prev, n);
      extras := SetPrev(extras, extrasHead, dest - 1);
      JoinBlock(lo, n, extrasHead, free, ex0, ex1);
      assert extras == JoinIn(n, extrasHead, ex1);
    }
  
    /** The records of the next block are cleared when they were used before. */
    method ClearBlock(n: nat)
      requires Window(lo, n) && Window(lo, n + 256)
      modifies `extras
      ensures forall id :: n <= id < n + 256 ==> !At(extras, id).isFixed && !At(extras, id).isUsed
      ensures forall id :: lo <= id < n ==> At(extras, id) == old(At(extras, id))
    {
      hide Put;
      ghost var ex0 := extras;
      var id := n;
      while id < n + 256
        invariant n <= id <= n + 256
        invariant forall x :: n <= x < id ==> !At(extras, x).isFixed && !At(extras, x).isUsed
        invariant forall x :: lo <= x < n ==> At(extras, x) == At(ex0, x)
      {
        ghost var ex1 := extras;
        PutRecord(lo, n + 256, extras, id, At(extras, id).(isUsed := false, isFixed := false));
        extras := Put(extras, id, At(extras, id).(isUsed := false, isFixed := false));
        forall x | lo <= x < n + 256
          ensures At(extras, x) == if x == id then At(ex1, id).(isUsed := false, isFixed := false) else At(ex1, x)
        {
          RecordIs(lo, n + 256, extras, x);
          RecordIs(lo, n + 256, ex1, x);
        }
        id := id + 1;
      }
    }
  
    /** Adds a block; when 16 blocks are live already, the oldest one is fixed first. */
    method ExpandUnits()
      requires SlackOk() && PlanOk() && Settled(units, lo, free, plan, {}) && lo == LiveFrom(|units|)
      modifies `units, `extras, `extrasHead, `free, `lo
      ensures SlackOk() && PlanOk() && Settled(units, lo, free, plan, {}) && lo == LiveFrom(|units|)
      ensures |units| == |old(units)| + 256
      ensures forall x :: x in free <==> (x in old(free) && x >= lo) || |old(units)| <= x < |units|
      ensures forall q :: q in plan.owner ==> q < |old(units)| && units[q] == old(units[q])
    {
      hide Slack, Consistent, Sealed, Filler, Ring, At, Fresh, RecordsOf;
      var srcUnits := |units|;
      var srcBlocks := srcUnits / 256;
      SlackRange(units, lo, extras, extrasHead, free, plan);
      WindowSize(lo, srcUnits);
      FrameSame(units, units, plan);
      if srcBlocks + 1 > 16 {
        ghost var _ := FixBlock(srcBlocks - 16);
        FrameSame(units, units, plan);
      }
      SlackRing(units, lo, extras, extrasHead, free, plan);
      ghost var units1, ex1 := units, extras;
      units := units + Zeros(256);
      if srcBlocks + 1 > 16 {
        ClearBlock(srcUnits);
        SameRecords(lo, srcUnits, ex1, extras);
      } else {
        FreshBlock(extras, srcUnits);
      }
      ghost var ex2 := extras;
      LinkBlock(srcUnits);
      SlackGrow(units1, lo, ex1, extras, extrasHead, free, plan);
      FrameSame(units1, units, plan);
      SealedGrow(units1, units, plan, lo);
      BlockMembers(srcUnits);
      free := free + Block(srcUnits);
    }

    /** `reserve_id`: takes a slot out of the list, adding its block first if need be.  `taken`
        are the slots reserved so far for the node being placed. */
    method ReserveId(id: nat, ghost taken: set<nat>)
      requires SlackOk() && PlanOk() && Settled(units, lo, free, plan, taken) && lo == LiveFrom(|units|)
      requires id < |units| ==> id in free
      requires id >= |units| ==> id < |units| + 256 && taken == {}
      modifies `units, `extras, `extrasHead, `free, `lo
      ensures SlackOk() && PlanOk() && Settled(units, lo, free, plan, taken + {id}) && lo == LiveFrom(|units|)
      ensures id < |units| && |old(units)| <= |units| && units[id] == 0 && id !in free && id !in plan.owner
      ensures id < |old(units)| ==>
        units == old(units) && lo == old(lo)
        && forall x :: x in free <==> x in old(free) && x != id
      ensures id >= |old(units)| ==> |units| == |old(units)| + 256 && lo <= |old(units)|
                                     && forall x :: |old(units)| <= x < |units| && x != id ==> x in free
      ensures forall q :: q in plan.owner ==> q < |old(units)| && units[q] == old(units[q])
    {
      hide Slack, Consistent, Sealed, Filler;
      FrameSame(units, units, plan);
      if id >= |units| {
        ExpandUnits();
        SlackRange(units, lo, extras, extrasHead, free, plan);
      }
      SlackRange(units, lo, extras, extrasHead, free, plan);
      Reserve(id);
    }

    /** `is_valid_offset`: `offset` is no base yet, can be stored in the unit `id`, and the slots
        of all labels but the first are unfixed. */
    method IsValidOffset(id: nat, offset: nat) returns (valid: bool)
      requires SlackOk() && AreLabels(labels) && lo <= offset < |units|
      ensures valid <==> Fits(id, offset) && !AsBase(plan, offset)
                         && forall i :: 1 <= i < |labels| ==> Xor(offset, labels[i]) in free
    {
      hide Slack, At, Encodable, Xor;
      SlackFlags(units, lo, extras, extrasHead, free, plan, offset);
      if At(extras, offset).isUsed {
        return false;
      }
      if !Encodable(Xor(id, offset)) {
        return false;
      }
      var i := 1;
      while i < |labels|
        invariant 1 <= i <= |labels|
        invariant forall j :: 1 <= j < i ==> Xor(offset, labels[j]) in free
      {
        SlotInWindow(lo, |units|, offset, labels[i]);
        SlackFlags(units, lo, extras, extrasHead, free, plan, Xor(offset, labels[i]));
        if At(extras, Xor(offset, labels[i])).isFixed {
          return false;
        }
        i := i + 1;
      }
      return true;
    }

    /** `find_valid_offset`: the offset that puts the first label into the first unfixed slot
        that works, or one in the next block if none does. */
    method FindValidOffset(id: nat) returns (offset: nat)
      requires SlackOk() && AreLabels(labels)
      ensures Fits(id, offset)
      ensures offset == |units| + id % 256
        || (lo <= offset < |units| && !AsBase(plan, offset)
           && forall i :: 0 <= i < |labels| ==> Xor(offset, labels[i]) in free)
      ensures exists j: nat ::
        j <= |free| && FirstFit(plan, free, labels, id, j)
        && offset == Chosen(|units|, free, labels, id, j)
    {
      hide Slack, At, Fits, Xor, AsBase;
      SlackRange(units, lo, extras, extrasHead, free, plan);
      FreshFits(id, |units|);
      SlackHead(units, lo, extras, extrasHead, free, plan);
      if extrasHead >= |units| {
        assert FirstFit(plan, free, labels, id, |free|);
        return |units| + id % 256;
      }
      var unfixed := extrasHead;
      ghost var j: nat := 0;
      while true
        invariant j < |free| && unfixed == free[j]
        invariant forall e :: 0 <= e < j ==> !Works(plan, free, labels, id, free[e])
        decreases |free| - j
      {
        offset := Xor(unfixed, labels[0]);
        assert unfixed in free;
        SlotInWindow(lo, |units|, unfixed, labels[0]);
        XorCancel(unfixed, labels[0]);
        var valid := IsValidOffset(id, offset);
        if valid {
          assert FirstFit(plan, free, labels, id, j);
          return;
        }
        SlackNext(units, lo, extras, extrasHead, free, plan, j);
        unfixed := At(extras, unfixed).next;
        if unfixed == extrasHead {
          break;
        }
        j := j + 1;
      }
      assert FirstFit(plan, free, labels, id, |free|);
      return |units| + id % 256;
    }

    /** While the node `lang` of slot `dicId` is being placed at `offset`: `i` labels are done. */
    ghost predicate Midway(i: nat, dicId: nat, offset: nat, value: nat, lang: Lang)
      reads this
    {
      && SlackOk() && PlanOk() && lo == LiveFrom(|units|)
      && Describes(labels, value, lang)
      && i <= |labels| && Settled(units, lo, free, plan, SlotsOf(labels, i, offset))
      && Written(units, labels, i, offset, lang)
      && ParentUnit(units, plan, labels, i, dicId, offset)
      && lo <= offset && !AsBase(plan, offset)
      && Available(|units|, free, plan, labels, i, dicId, offset)
    }

    /** One round of the loop: the slot of the `i`-th label is reserved and written. */
    method WriteEdge(i: nat, dicId: nat, offset: nat, value: nat, ghost lang: Lang)
      requires Midway(i, dicId, offset, value, lang) && i < |labels|
      modifies `units, `extras, `extrasHead, `free, `lo
      ensures Midway(i + 1, dicId, offset, value, lang)
    {
      hide Slack, Consistent, Sealed, Xor, HasLabel, Written, Label, Offset, HasLeaf,
        WithLeaf, WithLabel, ValueUnit, SlotsOf, Available, ParentUnit, AsBase, Describes;
      var c := labels[i];
      var id := Xor(offset, c);
      SlackRange(units, lo, extras, extrasHead, free, plan);
      DescribedLabels(labels, value, lang);
      NextSlot(|units|, free, plan, labels, i, dicId, offset, value, lang);
      SlotsOfNext(labels, i, offset);
      ParentOwned(units, plan, labels, i, dicId, offset);
      ghost var units0, free0 := units, free;
      ReserveId(id, SlotsOf(labels, i, offset));
      NextAvailable(|units0|, |units|, free0, free, plan, labels, i, dicId, offset);
      WrittenSame(units0, units, labels, i, offset, lang);
      ParentSame(units0, units, plan, labels, i, dicId, offset);
      SlackRange(units, lo, extras, extrasHead, free, plan);
      ghost var units1 := units;
      AvailableUnowned(|units|, free, plan, labels, i + 1, dicId, offset);
      EdgeWritten(units, plan, lo, labels, i, dicId, offset, value, lang);
      if c == 0 {
        units := units[dicId := WithLeaf(units[dicId])];
        units := units[id := ValueUnit(value)];
      } else {
        units := units[id := WithLabel(units[id], c)];
      }
      SlackWrite(units1, units, lo, extras, extrasHead, free, plan);
    }

    /** `units_[dic_id].set_offset`, after which the slot counts as being filled in. */
    method StartNode(dicId: nat, offset: nat, value: nat, ghost lang: Lang)
      requires SlackOk() && PlanOk() && Settled(units, lo, free, plan, {}) && lo == LiveFrom(|units|)
      requires dicId in plan.pending && dicId !in plan.active && 0 in plan.owner
      requires Describes(labels, value, lang) && lang == plan.Next(dicId)
      requires Fits(dicId, offset) && Xor(dicId, offset) < MAX_OFFSET
      requires offset == |units| + dicId % 256
        || (lo <= offset < |units| && !AsBase(plan, offset)
           && forall i :: 0 <= i < |labels| ==> Xor(offset, labels[i]) in free)
      modifies `units, `plan
      ensures Midway(0, dicId, offset, value, lang)
      ensures plan == Begin(old(plan), dicId)
    {
      hide Slack, Consistent, Sealed, Filler, Xor, HasLabel, Label, Offset, HasLeaf, WithOffset, Describes, SlotsOf;
      SlackRange(units, lo, extras, extrasHead, free, plan);
      PendingUnit(units, plan, dicId);
      BeginKeeps(units, plan, dicId);
      DescribedLabels(labels, value, lang);
      NotYetBase(units, lo, extras, extrasHead, free, plan, offset);
      FreshSlotsUnowned(units, lo, extras, extrasHead, free, plan, labels, dicId, offset);
      SlotsOfNext(labels, 0, offset);
      OffsetRoundTrip(units[dicId], Xor(dicId, offset));
      ghost var units0 := units;
      plan := Begin(plan, dicId);
      SlackBegin(units, lo, extras, extrasHead, free, old(plan), dicId);
      units := units[dicId := WithOffset(units[dicId], Xor(dicId, offset))];
      SlackWrite(units0, units, lo, extras, extrasHead, free, plan);
      FrameActive(units0, units, plan, dicId);
      SealedBegin(units0, old(plan), dicId, lo);
      SealedFrame(units0, units, plan, lo);
    }

    /** All labels are written: the offset becomes a base, and the slot is linked. */
    method FinishNode(dicId: nat, offset: nat, value: nat, ghost lang: Lang)
      requires Midway(|labels|, dicId, offset, value, lang)
      requires IsNode(lang) && 0 in plan.owner && dicId in plan.owner && dicId !in plan.pending
        && lang == plan.Next(dicId)
      modifies `extras, `plan
      ensures SlackOk() && PlanOk() && Settled(units, lo, free, plan, {}) && lo == LiveFrom(|units|)
      ensures CanPlace(old(plan), offset, lang)
      ensures plan == End(Place(old(plan), offset, lang), dicId)
    {
      hide Slack, Consistent, Sealed, Xor, HasLabel, IsNode, Label, Offset, HasLeaf, Describes, At, Written, Available,
        SlotsOf, CanPlace, LinksTo, AsBase, ParentUnit;
      AllWritten(units, labels, offset, value, lang);
      AllSlots(labels, offset, value, lang);
      CanPlaceNow(|units|, free, plan, labels, dicId, offset, value, lang);
      SlackRange(units, lo, extras, extrasHead, free, plan);
      OwnerIsBase(units, plan, dicId);
      SlotsInside(units, labels, offset, value, lang);
      PlaceKeeps(units, plan, offset, lang);
      PlaceKeepsSealed(units, plan, offset, lang, lo);
      ParentLinked(units, plan, labels, dicId, offset, value, lang);
      SlackUse(units, lo, extras, extrasHead, free, plan, labels, offset, value, lang);
      EndKeeps(units, Place(plan, offset, lang), dicId);
      extras := Put(extras, offset, At(extras, offset).(isUsed := true));
      plan := End(Place(plan, offset, lang), dicId);
      SlackBegin(units, lo, extras, extrasHead, free, Place(old(plan), offset, lang), dicId);
      SealedBegin(units, Place(old(plan), offset, lang), dicId, lo);
    }

    /** The waiting slot `dicId` gets the node `lang`: an offset is found, and one slot per label
        is reserved and written.  `ok` is false if the offset does not fit into a unit. */
    method Arrange(dicId: nat, value: nat, ghost lang: Lang) returns (ok: bool, offset: nat)
      requires SlackOk() && PlanOk() && Settled(units, lo, free, plan, {}) && lo == LiveFrom(|units|)
      requires dicId in plan.pending && dicId !in plan.active && 0 in plan.owner
      requires lang == plan.Next(dicId) && IsNode(lang) && Describes(labels, value, lang)
      modifies `units, `extras, `extrasHead, `free, `lo, `plan
      ensures ok ==> SlackOk() && PlanOk() && Settled(units, lo, free, plan, {}) && lo == LiveFrom(|units|)
      ensures ok ==> CanPlace(Begin(old(plan), dicId), offset, lang)
      ensures ok ==> plan == End(Place(Begin(old(plan), dicId), offset, lang), dicId)
      ensures !ok ==> |units| + 256 > MAX_OFFSET
    {
      hide Slack, Consistent, Sealed, Settled, Xor, IsNode, HasLabel, Describes, Fits, AsBase, Midway;
      DescribedLabels(labels, value, lang);
      PendingUnit(units, plan, dicId);
      offset := FindValidOffset(dicId);
      if Xor(dicId, offset) >= MAX_OFFSET {
        XorSmall(dicId, offset);
        return false, offset;
      }
      StartNode(dicId, offset, value, lang);
      var i := 0;
      while i < |labels|
        invariant 0 <= i <= |labels| && Midway(i, dicId, offset, value, lang)
        invariant plan == Begin(old(plan), dicId) && labels == old(labels)
      {
        WriteEdge(i, dicId, offset, value, lang);
        i := i + 1;
      }
      FinishNode(dicId, offset, value, lang);
      ok := true;
    }

    /** The start of both builds: slot 0 becomes the root and waits for the node `root`. */
    method InitRoot(ghost root: Lang)
      requires IsNode(root)
      modifies this
      ensures SlackOk() && PlanOk() && Settled(units, lo, free, plan, {}) && lo == LiveFrom(|units|)
      ensures plan == Plan(root, map[], map[0 := 0], {0}, {})
      ensures |units| == 256 && Offset(units[0]) == 1 && Label(units[0]) == 0 && !HasLeaf(units[0]) && lo == 0
    {
      hide Xor, Label, Offset, HasLeaf, WithOffset, WithLabel, IsNode, At, Ring, RecordsOf, Fresh, Sealed, Consistent,
        Slack;
      units, labels, extrasHead, lo, free := [], [], 0, 0, [];
      extras := seq(NUM_EXTRAS, i => Extra(0, 0, false, false));
      plan := Plan(root, map[], map[], {}, {});
      EmptySlack(extras, root);
      ReserveId(0, {});
      RootUnit(units[0]);
      ghost var units1, plan1, ex1 := units, plan, extras;
      extras := Put(extras, 0, At(extras, 0).(isUsed := true));
      units := units[0 := WithOffset(units[0], 1)];
      units := units[0 := WithLabel(units[0], 0)];
      plan := Plan(root, map[], map[0 := 0], {0}, {});
      RootPlaced(units1, units, lo, ex1, extrasHead, free, root);
    }

    /** Fills in the blocks that are still live. */
    method FixAllBlocks() returns (ghost unuseds: map<nat, nat>)
      requires SlackOk() && PlanOk() && Settled(units, lo, free, plan, {}) && lo == LiveFrom(|units|)
      modifies `units, `extras, `extrasHead, `free, `lo
      ensures PlanOk() && lo == |units| == |old(units)| && |units| % 256 == 0
      ensures forall q :: q in plan.owner && q < |units| ==> units[q] == old(units[q])
      ensures forall at: nat :: old(lo) <= at < |units| && at % 256 == 0 ==>
                at in unuseds && FirstUnused(plan, at, unuseds[at]) && FilledBlock(units, plan, at, unuseds[at])
    {
      hide Slack, Consistent, Sealed, FirstUnused, FillerUnit;
      unuseds := map[];
      SlackRange(units, lo, extras, extrasHead, free, plan);
      var numBlocks := |units| / 256;
      var block := if numBlocks > 16 then numBlocks - 16 else 0;
      while block != numBlocks
        invariant block <= numBlocks && lo == 256 * block && |units| == |old(units)|
        invariant SlackOk() && PlanOk() && Settled(units, lo, free, plan, {})
        invariant forall q :: q in plan.owner && q < |units| ==> units[q] == old(units[q])
        invariant forall at: nat :: old(lo) <= at < lo && at % 256 == 0 ==>
                    at in unuseds && FirstUnused(plan, at, unuseds[at]) && FilledBlock(units, plan, at, unuseds[at])
      {
        ghost var unused := FixBlock(block);
        unuseds := unuseds[256 * block := unused];
        block := block + 1;
      }
    }

    lemma WindowSize(lo: nat, n: nat)
      requires Window(lo, n) && lo == LiveFrom(n)
      ensures n / 256 + 1 > 16 <==> n >= NUM_EXTRAS
      ensures n >= NUM_EXTRAS ==>
        lo == (n / 256 - 16) * 256 && Window(lo + 256, n + 256)
        && lo + 256 == LiveFrom(n + 256)
      ensures n < NUM_EXTRAS ==> lo == 0 == LiveFrom(n + 256) && Window(lo, n + 256)
    {
    }
  }

  lemma SlackRing(units: seq<Word>, lo: nat, ex: Extras, head: nat, free: seq<nat>, plan: Plan)
    requires Slack(units, lo, ex, head, free, plan)
    ensures Ring(lo, |units|, RecordsOf(lo, |units|, ex), head, free) && Window(lo, |units|)
    ensures |units| < NUM_EXTRAS ==> Fresh(ex, |units|)
  {
    hide At, Fresh;
  }

  lemma SameRecords(lo: nat, n: nat, ex: Extras, ex': Extras)
    requires forall id :: lo <= id < n ==> At(ex', id) == At(ex, id)
    ensures RecordsOf(lo, n, ex') == RecordsOf(lo, n, ex)
  {
    hide At;
  }

  lemma FreshBlock(ex: Extras, n: nat)
    requires n + 256 <= NUM_EXTRAS && Fresh(ex, n)
    ensures forall id :: n <= id < n + 256 ==> !At(ex, id).isFixed && !At(ex, id).isUsed
    ensures n + 256 < NUM_EXTRAS ==> Fresh(ex, n + 256)
  {
  }

  lemma SealedGrow(units: seq<Word>, units': seq<Word>, plan: Plan, lo: nat)
    requires Sealed(units, plan, lo) && |units| <= |units'|
    requires forall q :: 0 <= q < |units| ==> units'[q] == units[q]
    ensures Sealed(units', plan, lo)
  {
    hide Label, Xor, HasLeaf, Offset;
  }
}