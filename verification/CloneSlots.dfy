/** The slots of the array while the trie is being built.

    `owner` gives the base that each reserved slot belongs to, `bases` are the offsets in use.
    The records of the live blocks are kept block by block, so that they form a map whose domain
    is the window of live slots. */
module CloneSlots {
  import opened Bits
  import opened CloneUnit
  import opened FreeRing
  import opened Pigeonhole

  /** The first block whose records are kept. */
  function LiveFrom(n: nat): nat {
    if n <= NUM_EXTRAS then 0 else n - NUM_EXTRAS
  }

  function Zeros(n: nat): (r: seq<Word>)
    ensures |r| == n && forall i :: 0 <= i < n ==> r[i] == 0
  {
    seq(n, i => 0)
  }

  /** A slot that belongs to nobody: read as an edge, it would belong to an offset not in use. */
  ghost predicate Filler(units: seq<Word>, bases: set<nat>, q: nat)
    requires q < |units|
  {
    !IsLeaf(units[q]) && Xor(q, Label(units[q])) !in bases
  }

  /** A base in use owns a slot of its block. */
  ghost predicate Holds(owner: map<nat, nat>, b: nat) {
    exists q :: q in owner && owner[q] == b && q / 256 == b / 256
  }

  /** `head` is the first unfixed slot, unfixed slots are untouched, every other slot is reserved
      or filled in, and exactly the bases are marked as used. */
  ghost predicate Slots(units: seq<Word>, extras: Records, head: nat, lo: nat, free: seq<nat>, owner: map<nat, nat>,
                        bases: set<nat>) {
    && lo <= |units|
    && Ring(lo, |units|, extras, head, free)
    && (forall id: nat :: id in extras ==> (extras[id].isUsed <==> id in bases))
    && (forall q :: q in free ==> q < |units| && units[q] == 0 && q !in owner)
    && (forall q :: q in owner ==> q < |units|)
    && (forall q: nat :: lo <= q < |units| ==> q in free || q in owner)
    && (forall q: nat :: q < lo ==> q in owner || Filler(units, bases, q))
    && (forall b :: b in bases ==> b < |units| && Holds(owner, b))
  }

  lemma SlotsRange(units: seq<Word>, extras: Records, head: nat, lo: nat, free: seq<nat>, owner: map<nat, nat>,
                   bases: set<nat>)
    requires Slots(units, extras, head, lo, free, owner, bases)
    ensures Window(lo, |units|) && lo % 256 == 0 && |units| % 256 == 0 && lo <= |units|
    ensures forall q :: q in free ==> lo <= q < |units| && units[q] == 0 && q !in owner && q in extras
    ensures forall q: nat :: lo <= q < |units| ==> q in extras && (q in free || q in owner)
    ensures forall id: nat :: id in extras <==> lo <= id < |units|
    ensures head == Head(|units|, free) && (head >= |units| <==> free == [])
    ensures Increasing(free)
    ensures forall q :: q in owner ==> q < |units|
  {
    hide Succ, Pred, Filler, Holds;
    forall q | q in free ensures q in extras {
      var i :| 0 <= i < |free| && free[i] == q;
    }
    if free != [] { assert free[0] in free; }
  }

  lemma SlotFlags(units: seq<Word>, extras: Records, head: nat, lo: nat, free: seq<nat>, owner: map<nat, nat>,
                  bases: set<nat>, id: nat)
    requires Slots(units, extras, head, lo, free, owner, bases) && lo <= id < |units|
    ensures id in extras && (extras[id].isUsed <==> id in bases) && (extras[id].isFixed <==> id !in free)
  {
    hide Linked, Increasing, Filler, Holds;
  }

  /** Reserving the `j`-th unfixed slot for the base `b`. */
  lemma ReserveOne(units: seq<Word>, extras: Records, head: nat, lo: nat, free: seq<nat>, owner: map<nat, nat>,
                   bases: set<nat>, j: nat, b: nat)
    requires Slots(units, extras, head, lo, free, owner, bases) && j < |free|
    ensures var id := free[j];
      && id in extras && extras[id].prev in extras && extras[id].next in extras
      && var next := extras[id].next;
         var head' := if id == head then (if next == id then |units| else next) else head;
         Slots(units, Unlink(extras, id), head', lo, Without(free, j), owner[id := b], bases)
    ensures forall x :: x in Without(free, j) <==> x in free && x != free[j]
  {
    hide Ring, Unlink, Without, Filler;
    SlotsRange(units, extras, head, lo, free, owner, bases);
    UnlinkKeepsRing(lo, |units|, extras, head, free, j);
    WithoutKeeps(free, j);
    HoldsMore(owner, free[j], b, bases);
    assert free[j] in free;
  }

  lemma HoldsMore(owner: map<nat, nat>, id: nat, b: nat, bases: set<nat>)
    requires id !in owner && forall x :: x in bases ==> Holds(owner, x)
    ensures forall x :: x in bases ==> Holds(owner[id := b], x)
  {
    forall x | x in bases ensures Holds(owner[id := b], x) {
      var q :| q in owner && owner[q] == x && q / 256 == x / 256;
      assert q in owner[id := b];
    }
  }

  /** Writing to reserved slots does not disturb the others. */
  lemma SlotsWrite(units: seq<Word>, units': seq<Word>, extras: Records, head: nat, lo: nat, free: seq<nat>,
                   owner: map<nat, nat>, bases: set<nat>)
    requires Slots(units, extras, head, lo, free, owner, bases) && |units'| == |units|
    requires forall q :: 0 <= q < |units| && q !in owner ==> units'[q] == units[q]
    ensures Slots(units', extras, head, lo, free, owner, bases)
  {
    hide Ring, Holds;
  }

  /** A live offset that owns a slot becomes a base. */
  lemma UseOne(units: seq<Word>, extras: Records, head: nat, lo: nat, free: seq<nat>, owner: map<nat, nat>,
               bases: set<nat>, b: nat)
    requires Slots(units, extras, head, lo, free, owner, bases) && lo <= b < |units| && Holds(owner, b)
    ensures b in extras && Slots(units, extras[b := extras[b].(isUsed := true)], head, lo, free, owner, bases + {b})
  {
    hide Holds, Ring, Filler;
    SlotsRange(units, extras, head, lo, free, owner, bases);
    UseKeepsRing(lo, |units|, extras, head, free, b);
    forall q: nat | q < lo ensures q in owner || Filler(units, bases + {b}, q) {
      if q !in owner { FillerStays(units, bases, q, b, lo); }
    }
  }

  lemma UseKeepsRing(lo: nat, n: nat, m: Records, head: nat, free: seq<nat>, b: nat)
    requires Ring(lo, n, m, head, free) && b in m
    ensures Ring(lo, n, m[b := m[b].(isUsed := true)], head, free)
  {
    hide Linked, Increasing, Head;
    UseLinked(m, free, b);
  }

  lemma FillerStays(units: seq<Word>, bases: set<nat>, q: nat, b: nat, lo: nat)
    requires q < lo <= |units| && lo % 256 == 0 && lo <= b && Filler(units, bases, q)
    ensures Filler(units, bases + {b}, q)
  {
    hide Xor, Label;
    LabelIsByte(units[q]);
    XorBlock(q, Label(units[q]));
  }

  lemma LabelIsByte(u: Word)
    ensures Label(u) < 256
  {
  }

  lemma UseLinked(m: Records, free: seq<nat>, b: nat)
    requires Linked(m, free) && b in m
    ensures Linked(m[b := m[b].(isUsed := true)], free)
  {
    hide Succ, Pred;
  }

  lemma AllHold(units: seq<Word>, extras: Records, head: nat, lo: nat, free: seq<nat>, owner: map<nat, nat>,
                bases: set<nat>)
    requires Slots(units, extras, head, lo, free, owner, bases)
    ensures forall b :: b in bases ==> Holds(owner, b)
    ensures forall q :: q in free ==> q !in owner
  {
    hide Ring, Holds, Filler;
  }

  // Fixing a block.

  /** A filler's label leads to the offset `unused`. */
  function FillerLabel(q: nat, unused: nat): nat {
    Xor(q, unused) % 256
  }

  lemma FillerFits(q: nat, unused: nat, bases: set<nat>)
    requires q / 256 == unused / 256 && unused !in bases
    ensures FillerLabel(q, unused) < 256
    ensures var u := WithLabel(0, FillerLabel(q, unused)); !IsLeaf(u) && Xor(q, Label(u)) !in bases
  {
    hide Xor, Label, IsLeaf, WithLabel;
    XorSameBlock(q, unused);
    XorCancel(q, unused);
    ZeroUnit();
    LabelRoundTrip(0, Xor(q, unused));
  }

  /** If every offset of a block is in use, every slot of the block is reserved. */
  lemma FullBlock(owner: map<nat, nat>, bases: set<nat>, lo: nat)
    requires lo % 256 == 0 && forall b :: lo <= b < lo + 256 ==> b in bases
    requires forall b :: b in bases ==> Holds(owner, b)
    ensures forall q :: lo <= q < lo + 256 ==> q in owner
  {
    forall b: nat | lo <= b < lo + 256
      ensures OwnsOne(owner, lo, 256, b)
    {
      assert Holds(owner, b);
      var q :| q in owner && owner[q] == b && q / 256 == b / 256;
    }
    AllOwned(owner, lo, 256);
  }

  /** The block at `lo` after its unfixed slots have been filled: its records are given up. */
  function Dropped(m: Records, lo: nat): Records {
    map id | id in m && !(lo <= id < lo + 256) :: m[id]
  }

  /** While the block at `lo` is being fixed: its slots may be fillers already. */
  ghost predicate Fixing(units: seq<Word>, extras: Records, head: nat, lo: nat, free: seq<nat>, owner: map<nat, nat>,
                         bases: set<nat>) {
    && lo + 256 <= |units|
    && Ring(lo, |units|, extras, head, free)
    && (forall id: nat :: id in extras ==> (extras[id].isUsed <==> id in bases))
    && (forall q :: q in free ==> q < |units| && units[q] == 0 && q !in owner)
    && (forall q :: q in owner ==> q < |units|)
    && (forall q: nat :: lo <= q < |units| ==> q in free || q in owner || q < lo + 256)
    && (forall q: nat :: q < lo + 256 ==> q in free || q in owner || Filler(units, bases, q))
    && (forall b :: b in bases ==> b < |units| && Holds(owner, b))
  }

  lemma StartFixing(units: seq<Word>, extras: Records, head: nat, lo: nat, free: seq<nat>, owner: map<nat, nat>,
                    bases: set<nat>)
    requires Slots(units, extras, head, lo, free, owner, bases) && lo + 256 <= |units|
    ensures Fixing(units, extras, head, lo, free, owner, bases)
  {
    hide Ring, Holds, Filler;
  }

  lemma FixingHead(units: seq<Word>, extras: Records, head: nat, lo: nat, free: seq<nat>, owner: map<nat, nat>,
                   bases: set<nat>)
    requires Fixing(units, extras, head, lo, free, owner, bases)
    ensures lo <= head <= |units| && |units| % 256 == 0 && lo % 256 == 0
    ensures head < |units| ==> free != [] && head == free[0] && units[head] == 0 && head !in owner
    ensures forall q :: q in free ==> head <= q
    ensures forall q :: q in free ==> lo <= q < |units|
    ensures head < |units| ==> head in extras && extras[head].prev in extras && extras[head].next in extras
  {
    hide Holds, Filler;
    forall q | q in free ensures head <= q && lo <= q < |units| {
      var i :| 0 <= i < |free| && free[i] == q;
      assert free[i] in extras;
      assert i > 0 ==> free[0] < free[i];
    }
    if free != [] {
      assert free[0] in free;
      UnlinkKeepsRing(lo, |units|, extras, head, free, 0);
    }
  }

  /** The first unfixed slot becomes a filler. */
  lemma FixStep(units: seq<Word>, extras: Records, head: nat, lo: nat, free: seq<nat>, owner: map<nat, nat>,
                bases: set<nat>, unused: nat)
    requires Fixing(units, extras, head, lo, free, owner, bases) && head < lo + 256
    requires unused !in bases && lo <= unused < lo + 256
    ensures free != [] && head == free[0] && head < |units| && head in extras
    ensures extras[head].prev in extras && extras[head].next in extras
    ensures FillerLabel(head, unused) < 256
    ensures var next := extras[head].next;
      Fixing(units[head := WithLabel(0, FillerLabel(head, unused))], Unlink(extras, head),
             if next == head then |units| else next, lo, free[1..], owner, bases)
    ensures forall x :: x in free[1..] <==> x in free && x != free[0]
  {
    hide Ring, Holds, Unlink, Filler, FillerLabel, WithLabel, IsLeaf, Label, Xor;
    FixingHead(units, extras, head, lo, free, owner, bases);
    UnlinkKeepsRing(lo, |units|, extras, head, free, 0);
    RingParts(lo, |units|, extras, head, free);
    WithoutKeeps(free, 0);
    assert Without(free, 0) == free[1..];
    InOneBlock(lo, head, unused);
    FillerFits(head, unused, bases);
    var units' := units[head := WithLabel(0, FillerLabel(head, unused))];
    FillerHere(units', bases, head);
    FillersKept(units, units', lo, free, owner, bases);
  }

  lemma InOneBlock(lo: nat, a: nat, b: nat)
    requires lo % 256 == 0 && lo <= a < lo + 256 && lo <= b < lo + 256
    ensures a / 256 == b / 256
  {
  }

  /** The first unfixed slot is a filler now, and the others are still what they were. */
  lemma FillersKept(units: seq<Word>, units': seq<Word>, lo: nat, free: seq<nat>, owner: map<nat, nat>, bases: set<nat>)
    requires free != [] && free[0] < |units| == |units'| && lo + 256 <= |units|
    requires forall q: nat :: q < |units| && q != free[0] ==> units'[q] == units[q]
    requires Filler(units', bases, free[0]) && forall x :: x in free[1..] <==> x in free && x != free[0]
    requires forall q: nat :: q < lo + 256 ==> q in free || q in owner || Filler(units, bases, q)
    ensures forall q: nat :: q < lo + 256 ==> q in free[1..] || q in owner || Filler(units', bases, q)
  {
    hide Filler;
    forall q: nat | q < lo + 256 ensures q in free[1..] || q in owner || Filler(units', bases, q) {
      if q != free[0] { FillerSame(units, units', bases, q); }
    }
  }

  lemma FillerHere(units: seq<Word>, bases: set<nat>, q: nat)
    requires q < |units| && !IsLeaf(units[q]) && Xor(q, Label(units[q])) !in bases
    ensures Filler(units, bases, q)
  {
  }

  lemma RingParts(lo: nat, n: nat, m: Records, head: nat, free: seq<nat>)
    requires Ring(lo, n, m, head, free)
    ensures Increasing(free) && head == Head(n, free)
  {
    hide Linked, ListsFree, Covers;
  }

  /** When the block has no unfixed slot left, its records are given up. */
  lemma BlockFixed(units: seq<Word>, extras: Records, head: nat, lo: nat, free: seq<nat>, owner: map<nat, nat>,
                   bases: set<nat>)
    requires Fixing(units, extras, head, lo, free, owner, bases) && head >= lo + 256
    ensures Slots(units, Dropped(extras, lo), head, lo + 256, free, owner, bases)
  {
    hide Holds, Linked, ListsFree, Increasing, Filler;
    FixingHead(units, extras, head, lo, free, owner, bases);
    RetireKeepsRing(lo, |units|, extras, head, free, Dropped(extras, lo));
  }

  // A new block.

  function Cleared(id: nat): Extra {
    Extra(0, 0, false, false)
  }

  /** The records of a new block, not linked yet. */
  function NewRecords(m: Records, n: nat): Records {
    m + (map id: nat | n <= id < n + 256 :: Cleared(id))
  }

  lemma NewRecordsAre(lo: nat, n: nat, m: Records)
    requires Covers(lo, n, m) && lo <= n
    ensures var m0 := NewRecords(m, n);
      && Covers(lo, n + 256, m0) && (forall id :: id in m ==> m0[id] == m[id])
      && (forall id: nat :: n <= id < n + 256 ==> m0[id] == Extra(0, 0, false, false))
      && Chained(n, m0, n + 1, m0)
  {
  }

  function LinkNext(m: Records, id: nat, next: nat): Records
    requires id in m
  {
    m[id := m[id].(next := next)]
  }

  function LinkPrev(m: Records, id: nat, prev: nat): Records
    requires id in m
  {
    m[id := m[id].(prev := prev)]
  }

  /** The writes that join the new block to the list. */
  lemma JoinWrites(n: nat, head: nat, last: nat, m: Records)
    requires n in m && n + 255 in m && head in m && last in m
    requires if head == n then last == n + 255 else head < n && m[head].prev == last && last < n
    ensures var m1 := LinkNext(LinkPrev(m, n, n + 255), n + 255, n);
      && m1[head].prev == last
      && var m2 := LinkNext(LinkPrev(m1, n, m1[head].prev), n + 255, head);
         m2[head].prev == last && LinkPrev(LinkNext(m2, m2[head].prev, n), head, n + 255) == Join(n, head, last, m)
  {
    var m1 := LinkNext(LinkPrev(m, n, n + 255), n + 255, n);
    FirstWrites(n, head, last, m);
    var m2 := LinkNext(LinkPrev(m1, n, last), n + 255, head);
    Overwritten(n, head, last, m);
    assert m2 == LinkNext(LinkPrev(m, n, last), n + 255, head);
    assert m2[head].prev == last;
    JoinIs(n, head, last, m);
  }

  lemma FirstWrites(n: nat, head: nat, last: nat, m: Records)
    requires n in m && n + 255 in m && head in m && last in m
    requires if head == n then last == n + 255 else head < n && m[head].prev == last && last < n
    ensures LinkNext(LinkPrev(m, n, n + 255), n + 255, n)[head].prev == last
  {
  }

  lemma Overwritten(n: nat, head: nat, last: nat, m: Records)
    requires n in m && n + 255 in m
    ensures LinkNext(LinkPrev(LinkNext(LinkPrev(m, n, n + 255), n + 255, n), n, last), n + 255, head)
         == LinkNext(LinkPrev(m, n, last), n + 255, head)
  {
    var a := LinkNext(LinkPrev(LinkNext(LinkPrev(m, n, n + 255), n + 255, n), n, last), n + 255, head);
    var b := LinkNext(LinkPrev(m, n, last), n + 255, head);
    assert a.Keys == b.Keys;
    forall x | x in a ensures a[x] == b[x] {
    }
  }

  lemma JoinIs(n: nat, head: nat, last: nat, m: Records)
    requires n in m && n + 255 in m && head in m && last in m
    ensures LinkPrev(LinkNext(LinkNext(LinkPrev(m, n, last), n + 255, head), last, n), head, n + 255)
      == Join(n, head, last, m)
  {
  }

  lemma JoinBlock(lo: nat, n: nat, head: nat, free: seq<nat>, m: Records, m1: Records)
    requires Ring(lo, n, m, head, free) && Window(lo, n + 256) && Chained(n, NewRecords(m, n), n + 256, m1)
    ensures n in m1 && n + 255 in m1 && head in m1 && Last(n, free) in m1
    ensures if head == n then Last(n, free) == n + 255
            else head < n && m1[head].prev == Last(n, free) && Last(n, free) < n
    ensures Ring(lo, n + 256, Join(n, head, Last(n, free), m1), head, free + Block(n))
    ensures forall id: nat :: id in m1 ==> Join(n, head, Last(n, free), m1)[id].isUsed == (id in m && m[id].isUsed)
  {
    hide Ring, Linked, ListsFree, Succ, Pred, Join, Spliced, NewRecords, Head;
    RingCovers(lo, n, m, head, free);
    NewRecordsAre(lo, n, m);
    var m0 := NewRecords(m, n);
    JoinSplices(lo, n, m, head, free, m0, m1);
    SpliceKeepsRing(lo, n, m, head, free, Join(n, head, Last(n, free), m1));
    HeadAndLast(lo, n, m, head, free);
  }

  lemma RingCovers(lo: nat, n: nat, m: Records, head: nat, free: seq<nat>)
    requires Ring(lo, n, m, head, free)
    ensures Covers(lo, n, m) && Window(lo, n) && lo <= n
  {
    hide Linked, ListsFree;
  }

  lemma HeadAndLast(lo: nat, n: nat, m: Records, head: nat, free: seq<nat>)
    requires Ring(lo, n, m, head, free)
    ensures if head == n then Last(n, free) == n + 255
            else head in m && head < n && m[head].prev == Last(n, free) && Last(n, free) < n && Last(n, free) in m
  {
    hide ListsFree;
    if free != [] {
      assert free[0] in m && m[free[0]].prev == Pred(free, 0);
      assert free[|free| - 1] in m;
    }
  }

  lemma SlotsGrow(units: seq<Word>, extras: Records, head: nat, lo: nat, free: seq<nat>, owner: map<nat, nat>,
                  bases: set<nat>, m: Records)
    requires Slots(units, extras, head, lo, free, owner, bases)
    requires Ring(lo, |units| + 256, m, head, free + Block(|units|))
    requires forall id: nat :: id in m ==> (m[id].isUsed <==> id in extras && extras[id].isUsed)
    ensures Slots(units + Zeros(256), m, head, lo, free + Block(|units|), owner, bases)
  {
    hide Holds, Filler, Linked, ListsFree, Increasing;
    var units' := units + Zeros(256);
    BlockMembers(|units|);
    SlotsRange(units, extras, head, lo, free, owner, bases);
    RingCovers(lo, |units| + 256, m, head, free + Block(|units|));
    forall q | q in free + Block(|units|) ensures q < |units'| && units'[q] == 0 && q !in owner {
      if q !in free { assert q in Block(|units|); }
    }
    forall q: nat | lo <= q < |units'| ensures q in free + Block(|units|) || q in owner {
      if q >= |units| { assert q in Block(|units|); }
    }
    forall q: nat | q < lo ensures q in owner || Filler(units', bases, q) {
      FillerSame(units, units', bases, q);
    }
    forall id: nat | id in m ensures m[id].isUsed <==> id in bases {
    }
  }

  lemma FillerSame(units: seq<Word>, units': seq<Word>, bases: set<nat>, q: nat)
    requires q < |units| && q < |units'| && units[q] == units'[q]
    ensures Filler(units, bases, q) <==> Filler(units', bases, q)
  {
  }

  // Offsets.

  /** The distances the scan allows: the lower or the upper bits are clear. */
  predicate Allowed(offset: nat) {
    offset % OFFSET_MAX == 0 || offset / OFFSET_MAX == 0
  }

  ghost predicate Works(free: seq<nat>, bases: set<nat>, labels: seq<nat>, index: nat, first: nat)
    requires labels != []
  {
    var b := Xor(first, labels[0]);
    b !in bases && Allowed(Xor(index, b)) && forall i :: 1 <= i < |labels| ==> Xor(b, labels[i]) in free
  }

  ghost predicate FirstFit(free: seq<nat>, bases: set<nat>, labels: seq<nat>, index: nat, j: nat)
    requires labels != [] && j <= |free|
  {
    && (forall e :: 0 <= e < j ==> !Works(free, bases, labels, index, free[e]))
    && (j < |free| ==> Works(free, bases, labels, index, free[j]))
  }

  function Chosen(n: nat, free: seq<nat>, labels: seq<nat>, index: nat, j: nat): nat
    requires labels != [] && j <= |free|
  {
    if j < |free| then Xor(free[j], labels[0]) else n + index % 256
  }

  /** The slots of all labels can be reserved: they are unfixed, or lie in the block to come. */
  ghost predicate Room(n: nat, free: seq<nat>, labels: seq<nat>, b: nat) {
    || (forall i :: 0 <= i < |labels| ==> Xor(b, labels[i]) in free)
    || (b / 256 == n / 256)
  }

  lemma SameBlock(b: nat, c: nat)
    requires c < 256
    ensures Xor(b, c) / 256 == b / 256
  {
    hide Xor;
    XorBlock(b, c);
  }

  /** A distance below 2^29 that was chosen can be stored. */
  lemma ChosenStorable(index: nat, b: nat, n: nat)
    requires n % 256 == 0 && (Allowed(Xor(index, b)) || b == n + index % 256) && Xor(index, b) < OFFSET_MAX * 256
    ensures Storable(Xor(index, b))
  {
    hide Xor;
    if b == n + index % 256 {
      XorSameByte(index, b);
    } else if Xor(index, b) % OFFSET_MAX == 0 {
      var k := Xor(index, b) / OFFSET_MAX;
      assert Xor(index, b) == 256 * (8192 * k);
    }
  }

  lemma SlotsRing(units: seq<Word>, extras: Records, head: nat, lo: nat, free: seq<nat>, owner: map<nat, nat>,
                  bases: set<nat>)
    requires Slots(units, extras, head, lo, free, owner, bases)
    ensures Ring(lo, |units|, extras, head, free)
  {
    hide Ring, Holds, Filler;
  }

  lemma NextInList(units: seq<Word>, extras: Records, head: nat, lo: nat, free: seq<nat>, owner: map<nat, nat>,
                   bases: set<nat>, j: nat)
    requires Slots(units, extras, head, lo, free, owner, bases) && j < |free|
    ensures free[j] in extras && extras[free[j]].next == Succ(free, j)
    ensures extras[free[j]].next == head <==> j + 1 == |free|
  {
    hide Holds, Filler, ListsFree;
  }
}
