/** The builder of the array with tails. */
module CloneBuilder {
  import opened Bits
  import opened Language
  import opened CloneUnit
  import opened FreeRing
  import opened CloneSlots
  import opened CloneTrie
  import opened CloneWork
  import opened CloneTail
  import opened CloneArray

  class CloneBuilder {
    var units: seq<Word>
    var extras: Records
    var unfixedIndex: nat
    var numUnusedIndices: nat
    var keys: seq<KeyRec>
    const ids: nat
    var tail: seq<nat>
    ghost var scheme: Scheme
    ghost var done: set<nat>
    ghost var lo: nat
    ghost var free: seq<nat>
    ghost var owner: map<nat, nat>
    ghost var bases: set<nat>

    constructor (keys: seq<KeyRec>, ids: nat)
      requires IsIds(ids)
      ensures SlotsOk() && Counted() && lo == LiveFrom(|units|) && units == [] && owner == map[] && bases == {}
      ensures this.keys == keys && this.ids == ids && tail == []
    {
      this.ids, tail := ids, [];
      units, extras, unfixedIndex, numUnusedIndices := [], map[], 0, 0;
      lo, free, owner, bases := 0, [], map[], {};
      this.keys := keys;
      scheme, done := Scheme(map[], map[], map[], {}), {};
    }

    ghost predicate SlotsOk()
      reads `units, `extras, `unfixedIndex, `lo, `free, `owner, `bases
    {
      Slots(units, extras, unfixedIndex, lo, free, owner, bases)
    }

    /** Every slot is unfixed, reserved or counted as unused. */
    ghost predicate Counted()
      reads `units, `numUnusedIndices, `free, `owner
    {
      Tally(numUnusedIndices, free, owner, |units|)
    }

    /** The record of a slot leaves the list. */
    method UnlinkRecord(index: nat)
      requires index in extras && extras[index].prev in extras && extras[index].next in extras
      modifies `extras, `unfixedIndex
      ensures extras == Unlink(old(extras), index)
      ensures var next := old(extras[index].next);
        unfixedIndex == if index == old(unfixedIndex) then (if next == index then |units| else next)
          else old(unfixedIndex)
    {
      if index == unfixedIndex {
        unfixedIndex := extras[index].next;
        if unfixedIndex == index {
          unfixedIndex := |units|;
        }
      }
      ghost var p, q := extras[index].prev, extras[index].next;
      extras := LinkNext(extras, extras[index].prev, extras[index].next);
      extras := LinkPrev(extras, extras[index].next, extras[index].prev);
      extras := extras[index := extras[index].(isFixed := true)];
    }

    /** `reserve_index` for a slot that exists; the slot goes to the base `b`. */
    method Unfix(index: nat, ghost b: nat)
      requires Counted()
      requires SlotsOk() && index in free
      modifies `extras, `unfixedIndex, `free, `owner
      ensures Counted()
      ensures SlotsOk() && owner == old(owner)[index := b]
      ensures forall x :: x in free <==> x in old(free) && x != index
    {
      hide Tally, Slots, Without, Unlink;
      SlotsRange(units, extras, unfixedIndex, lo, free, owner, bases);
      ghost var j: nat :| j < |free| && free[j] == index;
      ReserveOne(units, extras, unfixedIndex, lo, free, owner, bases, j, b);
      UnlinkRecord(index);
      TallyReserved(numUnusedIndices, free, j, owner, b, |units|);
      free := Without(free, j);
      owner := owner[index := b];
    }

    /** The first offset of a block that is not in use, or 0. */
    method UnusedOffset(begin: nat) returns (unused: nat)
      requires SlotsOk() && lo == begin && lo + 256 <= |units|
      ensures FirstUnused(bases, lo, unused) || forall q :: lo <= q < lo + 256 ==> q !in free
    {
      hide Slots;
      SlotsRange(units, extras, unfixedIndex, lo, free, owner, bases);
      unused := 0;
      var offset := begin;
      while offset != begin + 256
        invariant begin <= offset <= begin + 256
        invariant forall b :: begin <= b < offset ==> b in bases
      {
        SlotFlags(units, extras, unfixedIndex, lo, free, owner, bases, offset);
        if !extras[offset].isUsed {
          return offset;
        }
        offset := offset + 1;
      }
      AllHold(units, extras, unfixedIndex, lo, free, owner, bases);
      FullBlock(owner, bases, lo);
    }

    /** The first unfixed slot becomes a filler for `unusedOffset`. */
    method FixOne(unusedOffset: nat)
      requires Counted()
      requires Fixing(units, extras, unfixedIndex, lo, free, owner, bases) && unfixedIndex < lo + 256
      requires FirstUnused(bases, lo, unusedOffset)
      modifies `units, `extras, `unfixedIndex, `numUnusedIndices, `free
      ensures Counted()
      ensures Fixing(units, extras, unfixedIndex, lo, free, owner, bases)
      ensures old(free) != [] && free == old(free)[1..] && old(free)[0] == old(unfixedIndex)
      ensures forall x :: x in free <==> x in old(free) && x != old(unfixedIndex)
      ensures |units| == |old(units)|
        && forall q :: 0 <= q < |units| && q != old(unfixedIndex) ==> units[q] == old(units[q])
      ensures old(unfixedIndex) < |units| && units[old(unfixedIndex)] == FillerUnit(old(unfixedIndex), unusedOffset)
    {
      hide Tally, Fixing, Unlink, WithLabel, FillerLabel;
      var index := unfixedIndex;
      FixStep(units, extras, unfixedIndex, lo, free, owner, bases, unusedOffset);
      FixingHead(units, extras, unfixedIndex, lo, free, owner, bases);
      UnlinkRecord(index);
      TallyFixed(numUnusedIndices, free, owner, |units|);
      free := free[1..];
      units := units[index := WithLabel(units[index], FillerLabel(index, unusedOffset))];
      numUnusedIndices := numUnusedIndices + 1;
    }

    /** The loop over the unfixed slots of the oldest block. */
    method FillSlots(end: nat, unusedOffset: nat)
      requires Counted()
      requires Fixing(units, extras, unfixedIndex, lo, free, owner, bases) && end == lo + 256
      requires FirstUnused(bases, lo, unusedOffset)
      modifies `units, `extras, `unfixedIndex, `numUnusedIndices, `free
      ensures Counted()
      ensures Fixing(units, extras, unfixedIndex, lo, free, owner, bases) && unfixedIndex >= end
        && |units| == |old(units)|
      ensures forall x :: x in free <==> x in old(free) && x >= end
      ensures forall q :: 0 <= q < |units| && (q !in old(free) || q >= end) ==> units[q] == old(units[q])
      ensures forall q :: q in old(free) && q < end ==> q < |units| && units[q] == FillerUnit(q, unusedOffset)
    {
      hide Tally, Fixing, FillerUnit, FirstUnused;
      ghost var units0, free0 := units, free;
      FixingHead(units, extras, unfixedIndex, lo, free, owner, bases);
      while unfixedIndex < end
        invariant Fixing(units, extras, unfixedIndex, lo, free, owner, bases) && |units| == |units0| && Counted()
        invariant forall x :: x in free ==> x in free0
        invariant forall x :: x in free0 && x !in free ==> x < end
        invariant forall q :: 0 <= q < |units| && (q !in free0 || q >= end) ==> units[q] == units0[q]
        invariant forall q :: q in free0 && q !in free ==> q < |units| && units[q] == FillerUnit(q, unusedOffset)
        decreases |free|
      {
        FixOne(unusedOffset);
      }
      FixingHead(units, extras, unfixedIndex, lo, free, owner, bases);
    }

    /** `fix_block`: the unfixed slots of the oldest block, which come first in the list, get
        labels that never match: they lead to the block's first offset that is not in use. */
    method FixBlock(block: nat) returns (ghost unused: nat)
      requires Counted()
      requires SlotsOk() && lo == block * 256 && lo + 256 <= |units|
      modifies `units, `extras, `unfixedIndex, `numUnusedIndices, `lo, `free
      ensures Counted()
      ensures SlotsOk() && |units| == |old(units)| && lo == old(lo) + 256
      ensures forall x :: x in free <==> x in old(free) && x >= lo
      ensures forall q :: 0 <= q < |units| && (q in owner || q < old(lo) || q >= lo) ==> units[q] == old(units[q])
      ensures Filled(units, owner, bases, old(lo), unused)
    {
      hide Tally, Slots, Fixing, Unlink, Dropped, FillerUnit, FirstUnused;
      var begin := block * 256;
      var end := begin + 256;
      unused := 0;
      SlotsRange(units, extras, unfixedIndex, lo, free, owner, bases);
      StartFixing(units, extras, unfixedIndex, lo, free, owner, bases);
      FixingHead(units, extras, unfixedIndex, lo, free, owner, bases);
      if unfixedIndex < end {
        assert unfixedIndex in free;
        var unusedOffset := UnusedOffset(begin);
        unused := unusedOffset;
        FillSlots(end, unusedOffset);
      }
      FixingHead(units, extras, unfixedIndex, lo, free, owner, bases);
      BlockFixed(units, extras, unfixedIndex, lo, free, owner, bases);
      extras := Dropped(extras, begin);
      lo := lo + 256;
    }

    /** Links the records of the block at `n` to each other and to the list. */
    method LinkBlock(n: nat, ghost m: Records)
      requires Ring(lo, n, m, unfixedIndex, free) && Window(lo, n + 256) && extras == NewRecords(m, n)
      modifies `extras
      ensures Ring(lo, n + 256, extras, unfixedIndex, free + Block(n))
      ensures forall id: nat :: id in extras ==> extras[id].isUsed == (id in m && m[id].isUsed)
    {
      hide Ring, Chained, NewRecords, Join, Linked;
      ghost var m0 := extras;
      RingCovers(lo, n, m, unfixedIndex, free);
      NewRecordsAre(lo, n, m);
      var i := n + 1;
      while i < n + 256
        invariant n < i <= n + 256 && Chained(n, m0, i, extras)
      {
        ChainedStep(n, m0, i, extras);
        extras := LinkNext(extras, i - 1, i);
        extras := LinkPrev(extras, i, i - 1);
        i := i + 1;
      }
      JoinBlock(lo, n, unfixedIndex, free, m, extras);
      JoinKeys(n, unfixedIndex, Last(n, free), extras);
      JoinToList(n, Last(n, free));
    }

    /** The last writes of `expand_trie`; `last` is the end of the list. */
    method JoinToList(n: nat, ghost last: nat)
      requires n in extras && n + 255 in extras && unfixedIndex in extras && last in extras
      requires if unfixedIndex == n then last == n + 255
               else unfixedIndex < n && extras[unfixedIndex].prev == last && last < n
      modifies `extras
      ensures extras == Join(n, unfixedIndex, last, old(extras))
    {
      hide Join, LinkNext, LinkPrev;
      JoinWrites(n, unfixedIndex, last, extras);
      LinkKeys();
      extras := LinkPrev(extras, n, n + 255);
      extras := LinkNext(extras, n + 255, n);
      extras := LinkPrev(extras, n, extras[unfixedIndex].prev);
      extras := LinkNext(extras, n + 255, unfixedIndex);
      extras := LinkNext(extras, extras[unfixedIndex].prev, n);
      extras := LinkPrev(extras, unfixedIndex, n + 255);
    }

    lemma LinkKeys()
      ensures forall m: Records, id: nat, x: nat {:trigger LinkNext(m, id, x)} ::
        id in m
        ==> LinkNext(m, id, x).Keys == m.Keys
      ensures forall m: Records, id: nat, x: nat {:trigger LinkPrev(m, id, x)} ::
        id in m
        ==> LinkPrev(m, id, x).Keys == m.Keys
    {
    }

    /** `expand_trie`: adds a block; when 16 blocks are live, the oldest one is fixed first. */
    method ExpandTrie()
      requires Counted()
      requires SlotsOk() && lo == LiveFrom(|units|)
      modifies `units, `extras, `unfixedIndex, `numUnusedIndices, `lo, `free
      ensures Counted()
      ensures SlotsOk() && lo == LiveFrom(|units|) && |units| == |old(units)| + 256 && lo >= old(lo)
      ensures forall x :: x in free <==> (x in old(free) && x >= lo) || |old(units)| <= x < |units|
      ensures forall q :: q in owner ==> q < |old(units)| && units[q] == old(units[q])
    {
      hide Tally, Slots, Ring, NewRecords;
      var n := |units|;
      var numBlocks := n / 256;
      SlotsRange(units, extras, unfixedIndex, lo, free, owner, bases);
      WindowSize(lo, n);
      if numBlocks + 1 > 16 {
        var _ := FixBlock(numBlocks - 16);
      }
      SlotsRange(units, extras, unfixedIndex, lo, free, owner, bases);
      SlotsRing(units, extras, unfixedIndex, lo, free, owner, bases);
      ghost var units1, m := units, extras;
      units := units + Zeros(256);
      extras := NewRecords(extras, n);
      LinkBlock(n, m);
      SlotsGrow(units1, m, unfixedIndex, lo, free, owner, bases, extras);
      BlockMembers(n);
      TallyGrown(numUnusedIndices, free, owner, n);
      free := free + Block(n);
    }

    lemma WindowSize(lo: nat, n: nat)
      requires Window(lo, n) && lo == LiveFrom(n)
      ensures n / 256 + 1 > 16 <==> n >= NUM_EXTRAS
      ensures n >= NUM_EXTRAS ==>
        lo == (n / 256 - 16) * 256 && Window(lo + 256, n + 256)
        && lo + 256 == LiveFrom(n + 256)
      ensures n < NUM_EXTRAS ==> lo == 0 == LiveFrom(n + 256) && Window(lo, n + 256)
    {
    }

    /** `reserve_index`: takes a slot out of the list, adding its block first if need be. */
    method ReserveIndex(index: nat, ghost b: nat)
      requires Counted()
      requires SlotsOk() && lo == LiveFrom(|units|)
      requires index in free || |units| <= index < |units| + 256
      modifies `units, `extras, `unfixedIndex, `numUnusedIndices, `lo, `free, `owner
      ensures Counted()
      ensures SlotsOk() && lo == LiveFrom(|units|) && owner == old(owner)[index := b]
      ensures index < |units| && |old(units)| <= |units| && units[index] == 0 && index !in old(owner) && index !in free
      ensures |units| == (if index < |old(units)| then |old(units)| else |old(units)| + 256)
        && old(lo) <= lo <= |old(units)|
      ensures index < |old(units)| ==> lo == old(lo) && forall x :: x in free <==> x in old(free) && x != index
      ensures index >= |old(units)| ==> forall x :: |old(units)| <= x < |units| && x != index ==> x in free
      ensures forall q :: q in old(owner) ==> q < |old(units)| && units[q] == old(units[q])
    {
      hide Tally, Slots;
      SlotsRange(units, extras, unfixedIndex, lo, free, owner, bases);
      if index >= |units| {
        ExpandTrie();
        SlotsRange(units, extras, unfixedIndex, lo, free, owner, bases);
      }
      Unfix(index, b);
    }

    /** Marks an offset as used once it owns its slots. */
    method SetUsed(b: nat)
      requires SlotsOk() && lo <= b < |units| && Holds(owner, b)
      modifies `extras, `bases
      ensures SlotsOk() && bases == old(bases) + {b}
    {
      hide Tally, Slots, Holds;
      UseOne(units, extras, unfixedIndex, lo, free, owner, bases, b);
      extras := extras[b := extras[b].(isUsed := true)];
      bases := bases + {b};
    }

    /** `fix_all_blocks` */
    method FixAllBlocks() returns (ghost unused: map<nat, nat>)
      requires Counted()
      requires SlotsOk() && lo == LiveFrom(|units|)
      modifies `units, `extras, `unfixedIndex, `numUnusedIndices, `lo, `free
      ensures Counted()
      ensures SlotsOk() && lo == |units| == |old(units)|
      ensures forall q :: 0 <= q < |units| && (q in owner || q < old(lo)) ==> units[q] == old(units[q])
      ensures forall at: nat ::
        old(lo) <= at < |units| && at % 256 == 0
        ==> at in unused && Filled(units, owner, bases, at, unused[at])
    {
      hide Tally, Slots, Filled;
      SlotsRange(units, extras, unfixedIndex, lo, free, owner, bases);
      var numBlocks := |units| / 256;
      var block := if numBlocks > 16 then numBlocks - 16 else 0;
      unused := map[];
      while block != numBlocks
        invariant block <= numBlocks && lo == 256 * block && |units| == |old(units)| && SlotsOk() && Counted()
        invariant forall q :: 0 <= q < |units| && (q in owner || q < old(lo)) ==> units[q] == old(units[q])
        invariant old(lo) <= lo && forall at: nat :: old(lo) <= at < lo && at % 256 == 0 ==>
          at in unused && Filled(units, owner, bases, at, unused[at])
      {
        ghost var units0, at := units, lo;
        var u := FixBlock(block);
        KeepFilled(units0, units, owner, bases, at, unused);
        unused := unused[at := u];
        block := block + 1;
      }
    }

    // Offsets.

    /** `find_offset_index`: the offset that puts the first label into the first unfixed slot
        that works, or one in the next block if none does. */
    method FindOffsetIndex(index: nat, labels: seq<nat>) returns (b: nat)
      requires SlotsOk() && labels != [] && forall i :: 0 <= i < |labels| ==> labels[i] < 256
      ensures b == |units| + index % 256 || (Allowed(Xor(index, b)) && b !in bases && lo <= b < |units|)
      ensures b == |units| + index % 256 || forall i :: 0 <= i < |labels| ==> Xor(b, labels[i]) in free
      ensures exists j: nat ::
        j <= |free| && FirstFit(free, bases, labels, index, j)
        && b == Chosen(|units|, free, labels, index, j)
    {
      hide Slots, Xor, Allowed;
      SlotsRange(units, extras, unfixedIndex, lo, free, owner, bases);
      if unfixedIndex < |units| {
        var first := unfixedIndex;
        ghost var j: nat := 0;
        while true
          invariant j < |free| && first == free[j]
          invariant forall e :: 0 <= e < j ==> !Works(free, bases, labels, index, free[e])
          decreases |free| - j
        {
          b := Xor(first, labels[0]);
          assert first in free;
          var works := IsFree(index, first, labels);
          if works {
            assert FirstFit(free, bases, labels, index, j);
            return;
          }
          NextInList(units, extras, unfixedIndex, lo, free, owner, bases, j);
          first := extras[first].next;
          if first == unfixedIndex {
            break;
          }
          j := j + 1;
        }
      }
      assert FirstFit(free, bases, labels, index, |free|);
      b := |units| + index % 256;
    }

    /** Whether the offset that puts the first label into slot `first` can be taken. */
    method IsFree(index: nat, first: nat, labels: seq<nat>) returns (works: bool)
      requires SlotsOk() && first in free && labels != [] && forall i :: 0 <= i < |labels| ==> labels[i] < 256
      ensures works <==> Works(free, bases, labels, index, first)
      ensures Xor(Xor(first, labels[0]), labels[0]) == first && lo <= Xor(first, labels[0]) < |units|
    {
      hide Slots, Xor, Allowed;
      SlotsRange(units, extras, unfixedIndex, lo, free, owner, bases);
      var b := Xor(first, labels[0]);
      SameBlock(first, labels[0]);
      XorCancel(first, labels[0]);
      SlotFlags(units, extras, unfixedIndex, lo, free, owner, bases, b);
      if extras[b].isUsed || !Allowed(Xor(index, b)) {
        return false;
      }
      for i := 1 to |labels|
        invariant forall j :: 1 <= j < i ==> Xor(b, labels[j]) in free
      {
        SameBlock(b, labels[i]);
        SlotFlags(units, extras, unfixedIndex, lo, free, owner, bases, Xor(b, labels[i]));
        if extras[Xor(b, labels[i])].isFixed {
          return false;
        }
      }
      return true;
    }

    // The trie.

    /** Between two steps of the builder. */
    ghost predicate Growing()
      reads `units, `extras, `unfixedIndex, `numUnusedIndices, `lo, `free, `owner, `bases, `keys, `scheme, `done
    {
      && SlotsOk() && Counted() && lo == LiveFrom(|units|)
      && AreKeys(Texts(keys)) && TrieOk(units, Texts(keys), scheme) && Placement(keys, scheme, done)
      && owner == scheme.owner && bases == scheme.node.Keys + {0}
    }

    /** Lists the labels of a span and the runs of keys behind them; the keys go on by one byte. */
    method ListLabels(begin: nat, end: nat, ghost s: Span) returns (labels: seq<nat>, ranges: seq<(nat, nat)>)
      requires AreKeys(Texts(keys)) && SpanOk(Texts(keys), s) && s.begin == begin && s.end == end
      requires forall i :: begin <= i < end ==> keys[i].pos == s.depth
      modifies `keys
      ensures begin < end <= |old(keys)| && keys == Advanced(old(keys), begin, end)
      ensures Runs(Texts(old(keys)), s, labels, ranges, s.end)
    {
      hide AreKeys, SpanOk, Runs;
      ghost var texts := Texts(keys);
      SpanBounds(texts, s);
      InSpan(texts, s, begin);
      labels, ranges := [keys[begin].Head()], [];
      var nextBegin, it := begin, begin;
      while it != end
        invariant begin <= it <= end && begin <= nextBegin <= it && keys == Advanced(old(keys), begin, it)
          && labels != []
        invariant it == begin ==> labels == [ByteAt(texts[begin], s.depth)] && ranges == [] && nextBegin == begin
        invariant it > begin ==> Runs(texts, s, labels, ranges + [(nextBegin, it)], it)
      {
        InSpan(texts, s, it);
        assert keys[it] == old(keys)[it];
        if keys[it].Head() != labels[|labels| - 1] {
          RunStarts(texts, s, labels, ranges, nextBegin, it);
          labels := labels + [keys[it].Head()];
          ranges := ranges + [(nextBegin, it)];
          nextBegin := it;
        } else if it == begin {
          FirstRun(texts, s, labels[0]);
          assert [] + [(begin, begin + 1)] == [(begin, begin + 1)];
        } else {
          RunGoesOn(texts, s, labels, ranges, nextBegin, it);
        }
        keys := keys[it := keys[it].(pos := keys[it].pos + 1)];
        it := it + 1;
      }
      ranges := ranges + [(nextBegin, end)];
    }

    /** The unit of a node gets its end flag and its offset; an offset of 2^29 or more cannot be stored. */
    method LinkNode(x: nat, labels: seq<nat>, ghost s: Span, ghost ranges: seq<(nat, nat)>) returns (ok: bool, b: nat)
      requires SlotsOk() && lo == LiveFrom(|units|) && bases == scheme.node.Keys + {0} && owner == scheme.owner
      requires AreKeys(Texts(keys)) && TrieOk(units, Texts(keys), scheme) && x in scheme.waiting && x in scheme.child
      requires SpanOk(Texts(keys), s) && Runs(Texts(keys), s, labels, ranges, s.end)
      modifies `units
      ensures !ok ==> |units| + 256 > OFFSET_MAX * 256
      ensures |units| == |old(units)| && forall q :: 0 <= q < |units| && q != x ==> units[q] == old(units[q])
      ensures ok ==> SlotsOk() && x in owner && x != 1 && TrieBut(units, Texts(keys), scheme, x)
      ensures ok ==> Room(|units|, free, labels, b) && CanPlace(scheme, x, b, labels) && (b >= lo)
      ensures ok ==> x < |units| && NodeUnit(units[x], x, b, scheme.LabelOf(x), labels)
    {
      hide Tally, Slots, TrieOk, TrieBut, AreKeys, SpanOk, Runs, Room, CanPlace, WithEnd, WithOffset, IsEnd, IsLeaf,
        Label, Offset, Allowed, Xor, Storable, LiveFrom;
      ghost var texts := Texts(keys);
      ChildKeys(units, texts, scheme);
      TrieParts(units, texts, scheme, x);
      SlotsRange(units, extras, unfixedIndex, lo, free, owner, bases);
      RunLabels(texts, s, labels, ranges);
      ghost var units0 := units;
      WaitingUnit(units, texts, scheme, x);
      if labels[0] == 0 {
        EndRoundTrip(units[x]);
        units := units[x := WithEnd(units[x])];
      }
      FirstIsZero(labels);
      SlotsWrite(units0, units, extras, unfixedIndex, lo, free, owner, bases);
      b := FindOffsetIndex(x, labels);
      if Xor(x, b) >= OFFSET_MAX * 256 {
        XorSmall(x, b);
        SlotsRange(units, extras, unfixedIndex, lo, free, owner, bases);
        ok := false;
        return;
      }
      ok := true;
      ChosenStorable(x, b, |units|);
      OffsetRoundTrip(units[x], Xor(x, b));
      ghost var units1 := units;
      units := units[x := WithOffset(units[x], Xor(x, b))];
      SlotsWrite(units1, units, extras, unfixedIndex, lo, free, owner, bases);
      FrameTrie(units0, units, texts, scheme, x);
      XorCancel(x, b);
      ChosenPlace(units, extras, unfixedIndex, lo, free, owner, bases, x, b, labels, scheme);
    }

    /** A child unit: a reserved slot with its label. */
    method ReserveChild(child: nat, c: nat, ghost b: nat)
      requires Counted()
      requires SlotsOk() && lo == LiveFrom(|units|) && c < 256
      requires child in free || |units| <= child < |units| + 256
      modifies `units, `extras, `unfixedIndex, `numUnusedIndices, `lo, `free, `owner
      ensures Counted()
      ensures SlotsOk() && lo == LiveFrom(|units|) && owner == old(owner)[child := b]
      ensures child < |units| && |old(units)| <= |units| && child !in old(owner) && FreshUnit(units[child], c)
      ensures |units| == (if child < |old(units)| then |old(units)| else |old(units)| + 256)
        && old(lo) <= lo <= |old(units)|
      ensures child < |old(units)| ==> lo == old(lo) && forall x :: x in free <==> x in old(free) && x != child
      ensures child >= |old(units)| ==> forall x :: |old(units)| <= x < |units| && x != child ==> x in free
      ensures forall q :: q in old(owner) ==> q < |old(units)| && units[q] == old(units[q])
    {
      hide Tally, Slots, WithLabel, IsLeaf, IsEnd, Label;
      ReserveIndex(child, b);
      ZeroUnit();
      LabelRoundTrip(0, c);
      SlotsWrite(units, units[child := WithLabel(units[child], c)], extras, unfixedIndex, lo, free, owner, bases);
      units := units[child := WithLabel(units[child], c)];
    }

    /** Reserves the units of all edges of a node, the last label first, and lists the work below them. */
    method ReserveChildren(b: nat, labels: seq<nat>, ranges: seq<(nat, nat)>) returns (tasks: seq<Task>)
      requires Counted()
      requires SlotsOk() && lo == LiveFrom(|units|) && |labels| == |ranges| && Increasing(labels) && labels != []
      requires forall j :: 0 <= j < |labels| ==> labels[j] < 256
      requires Room(|units|, free, labels, b)
      modifies `units, `extras, `unfixedIndex, `numUnusedIndices, `lo, `free, `owner
      ensures Counted()
      ensures SlotsOk() && lo == LiveFrom(|units|) && old(lo) <= lo && |old(units)| <= |units|
      ensures owner == Owned(old(owner), b, labels, 0) && tasks == Tasks(b, labels, ranges, 0)
      ensures forall j :: 0 <= j < |labels| ==>
        Xor(b, labels[j]) < |units|
        && FreshUnit(units[Xor(b, labels[j])], labels[j])
      ensures forall q :: q in old(owner) ==> q < |old(units)| && units[q] == old(units[q])
      ensures lo <= Xor(b, labels[0])
    {
      hide Tally, Slots, Xor, FreshUnit, Owned, Tasks, Ahead, Taken, Room;
      ghost var n := |units|;
      SlotsRange(units, extras, unfixedIndex, lo, free, owner, bases);
      AllAhead(n, free, b, labels);
      NoneTaken(units, lo, owner, b, labels);
      tasks := [];
      NoneYet(owner, b, labels, ranges);
      var i: nat := |labels|;
      while i > 0
        invariant i <= |labels| && SlotsOk() && Counted() && lo == LiveFrom(|units|) && n <= |units| && old(lo) <= lo
        invariant owner == Owned(old(owner), b, labels, i) && tasks == Tasks(b, labels, ranges, i)
        invariant Ahead(|units|, free, b, labels, i) && Taken(units, lo, owner, b, labels, i)
        invariant forall q :: q in old(owner) ==> q in owner && q < n && units[q] == old(units[q])
      {
        i := i - 1;
        ghost var units0, owner0, free0, lo0 := units, owner, free, lo;
        NextAhead(|units|, free, b, labels, i);
        SlotsRange(units, extras, unfixedIndex, lo, free, owner, bases);
        ReserveChild(Xor(b, labels[i]), labels[i], b);
        StillAhead(|units0|, |units|, free0, free, b, labels, i);
        StillTaken(units0, units, lo0, lo, owner0, owner, b, labels, i);
        tasks := tasks + [Task(ranges[i].0, ranges[i].1, Xor(b, labels[i]))];
        OneMore(old(owner), b, labels, ranges, i);
      }
      SlotsRange(units, extras, unfixedIndex, lo, free, owner, bases);
      AllTaken(units, lo, owner, b, labels);
    }

    /** Gives a node its offset and reserves its children. */
    method PlaceUnits(x: nat, labels: seq<nat>, ranges: seq<(nat, nat)>, ghost s: Span)
      returns (ok: bool, b: nat, tasks: seq<Task>)
      requires Counted()
      requires SlotsOk() && lo == LiveFrom(|units|) && bases == scheme.node.Keys + {0} && owner == scheme.owner
      requires AreKeys(Texts(keys)) && TrieOk(units, Texts(keys), scheme) && x in scheme.waiting && x in scheme.child
      requires SpanOk(Texts(keys), s) && Runs(Texts(keys), s, labels, ranges, s.end) && |labels| == |ranges|
      modifies `units, `extras, `unfixedIndex, `numUnusedIndices, `lo, `free, `owner, `bases
      ensures Counted()
      ensures !ok ==> |units| + 256 > OFFSET_MAX * 256
      ensures ok ==>
        SlotsOk() && lo == LiveFrom(|units|) && bases == old(bases) + {b}
        && owner == Owned(scheme.owner, b, labels, 0)
      ensures ok ==>
        TrieBut(units, Texts(keys), scheme, x) && CanPlace(scheme, x, b, labels)
        && tasks == Tasks(b, labels, ranges, 0)
      ensures ok ==> ChildUnits(units, b, labels)
      ensures x in scheme.owner && x != 1
      ensures ok ==> x < |units| && NodeUnit(units[x], x, b, scheme.LabelOf(x), labels)
    {
      hide Tally, Slots, TrieOk, TrieBut, AreKeys, SpanOk, Runs, Room, CanPlace, LiveFrom, Xor, FreshUnit, NodeUnit,
        Owned, SlotSet, Tasks, IsLeaf, Label, IsEnd;
      ghost var texts := Texts(keys);
      WaitingUnit(units, texts, scheme, x);
      ok, b := LinkNode(x, labels, s, ranges);
      tasks := [];
      if !ok {
        return;
      }
      RunLabels(texts, s, labels, ranges);
      ghost var units1, owner1 := units, owner;
      tasks := ReserveChildren(b, labels, ranges);
      SlotsRange(units, extras, unfixedIndex, lo, free, owner, bases);
      ChildHolds(owner1, b, labels);
      SameBlock(b, labels[0]);
      SetUsed(b);
      FrameTrie(units1, units, texts, scheme, x);
    }

    /** One inner node: lists its labels, places it, and goes on to its children. */
    method PlaceNode(t: Task, ghost stack: seq<Task>) returns (ok: bool, tasks: seq<Task>)
      requires Growing() && stack != [] && stack[|stack| - 1] == t && StackIs(stack, scheme)
      requires t.index == 0 || t.end - t.begin != 1
      modifies `units, `extras, `unfixedIndex, `numUnusedIndices, `lo, `free, `owner, `bases, `keys, `scheme
      ensures SameRecs(old(keys), keys)
      ensures !ok ==> |units| + 256 > OFFSET_MAX * 256
      ensures ok ==> Growing() && StackIs(stack[..|stack| - 1] + tasks, scheme)
      ensures ok ==> Left(keys, done, |keys|) < Left(old(keys), done, |old(keys)|)
    {
      hide Tally, Slots, TrieOk, TrieBut, AreKeys, SpanOk, Runs, Room, CanPlace, StackIs, Placement, Left, Advanced,
        LiveFrom, Xor, ChildUnits, NodeUnit, Placed, Owned, SlotSet, Tasks, SameRecs, NodeDone;
      ghost var texts, recs := Texts(keys), keys;
      var x := t.index;
      TopTask(stack, keys, scheme, done);
      ghost var s := scheme.child[x];
      InnerSpan(units, texts, scheme, x);
      var labels, ranges := ListLabels(t.begin, t.end, s);
      AdvancedTexts(recs, t.begin, t.end);
      AdvancedSame(recs, t.begin, t.end);
      RunLabels(texts, s, labels, ranges);
      var b: nat;
      ok, b, tasks := PlaceUnits(x, labels, ranges, s);
      if ok {
        OwnedIsPlaced(scheme, x, b, labels, ranges);
        AfterNode(units, recs, scheme, done, stack, x, b, labels, ranges);
        scheme := Placed(scheme, x, b, labels, ranges);
      }
    }

    /** An edge that only one key takes becomes a leaf; the key goes back to the edge's label. */
    method MarkLeaf(t: Task, ghost stack: seq<Task>)
      requires Growing() && stack != [] && stack[|stack| - 1] == t && StackIs(stack, scheme)
      requires t.index != 0 && t.end - t.begin == 1
      modifies `units, `keys, `scheme, `done
      ensures Growing() && SameRecs(old(keys), keys) && StackIs(stack[..|stack| - 1], scheme)
      ensures Left(keys, done, |keys|) < Left(old(keys), old(done), |old(keys)|)
    {
      hide Tally, Slots, TrieOk, AreKeys, StackIs, Placement, Left, LiveFrom, WithLeaf, SameRecs, LeafIs, WaitingOk;
      ghost var texts, recs, x, i := Texts(keys), keys, t.index, t.begin;
      TopTask(stack, keys, scheme, done);
      ChildKeys(units, texts, scheme);
      ChildDepth(units, texts, scheme, x);
      PosBound(keys, scheme, done, i);
      LeafPlaced(keys, scheme, done, x);
      LeafKeeps(units, texts, scheme, x);
      StackAfterLeaf(stack, scheme, x);
      StepBackSame(keys, i, x);
      SlotsWrite(units, units[x := WithLeaf(units[x])], extras, unfixedIndex, lo, free, owner, bases);
      keys := keys[t.begin := keys[t.begin].(pos := keys[t.begin].pos - 1)];
      keys := keys[t.begin := keys[t.begin].(index := t.index)];
      units := units[t.index := WithLeaf(units[t.index])];
      assert keys == StepBack(recs, i, x);
      scheme := Finished(scheme, x);
      done := done + {i};
    }

    /** `build_trie_subroutine`: works until nothing is left on the stack. */
    method BuildTrieSubroutine() returns (ok: bool)
      requires Growing() && scheme.waiting == {0} && 0 in scheme.child && scheme.child[0] == Span(0, |keys|, 0)
      modifies `units, `extras, `unfixedIndex, `numUnusedIndices, `lo, `free, `owner, `bases, `keys, `scheme, `done
      ensures SameRecs(old(keys), keys)
      ensures !ok ==> |units| + 256 > OFFSET_MAX * 256
      ensures ok ==> Growing() && scheme.waiting == {}
    {
      hide Growing, StackIs, Left;
      var stack := [Task(0, |keys|, 0)];
      FirstStack(scheme, |keys|);
      ok := true;
      while stack != []
        invariant Growing() && StackIs(stack, scheme) && SameRecs(old(keys), keys)
        decreases Left(keys, done, |keys|)
      {
        var t := stack[|stack| - 1];
        ghost var stack0 := stack;
        stack := stack[..|stack| - 1];
        if t.index != 0 && t.end - t.begin == 1 {
          MarkLeaf(t, stack0);
        } else {
          var tasks: seq<Task>;
          ok, tasks := PlaceNode(t, stack0);
          if !ok {
            return;
          }
          stack := stack + tasks;
        }
      }
      NothingWaits(scheme);
    }

    /** Slots 0 and 1 are taken before everything else: 0 is the root, 1 tells where the tail begins. */
    method ReserveRoot()
      requires Counted()
      requires SlotsOk() && lo == LiveFrom(|units|) && units == [] && owner == map[] && bases == {}
      modifies `units, `extras, `unfixedIndex, `numUnusedIndices, `lo, `free, `owner, `bases, `scheme, `done
      ensures Counted()
      ensures SlotsOk() && lo == LiveFrom(|units|) && |units| == 256
      ensures TrieOk(units, Texts(keys), scheme) && owner == scheme.owner && bases == scheme.node.Keys + {0}
      ensures scheme == Scheme(map[0 := 0, 1 := 0], map[], map[0 := Span(0, |keys|, 0)], {0}) && done == {}
      ensures units[0] == WithLabel(WithOffset(0, 1), 0) && units[1] == WithLabel(0, 1)
    {
      hide Tally, Slots, TrieOk, WithLabel, WithOffset, Holds, Texts;
      ReserveIndex(0, 0);
      ReserveIndex(1, 0);
      assert owner == map[0 := 0, 1 := 0];
      RootHolds(owner);
      SetUsed(0);
      assert units[0] == 0 && units[1] == 0;
      ghost var units0 := units;
      units := units[0 := WithOffset(units[0], 1)];
      units := units[0 := WithLabel(units[0], 0)];
      units := units[1 := WithLabel(units[1], 1)];
      SlotsWrite(units0, units, extras, unfixedIndex, lo, free, owner, bases);
      StartTrie(units, Texts(keys));
      scheme := Scheme(map[0 := 0, 1 := 0], map[], map[0 := Span(0, |keys|, 0)], {0});
      done := {};
    }

    /** The end of `build_trie`: fixes all blocks and stores the number of units. */
    method FinishTrie() returns (ok: bool)
      requires SlotsOk() && Counted() && lo == LiveFrom(|units|) && AreKeys(Texts(keys))
      requires TrieOk(units, Texts(keys), scheme) && owner == scheme.owner && bases == scheme.node.Keys + {0}
      requires if keys != [] then scheme.waiting == {} else RootOnly(units, owner, bases)
      modifies `units, `extras, `unfixedIndex, `numUnusedIndices, `lo, `free
      ensures !ok ==> |units| + 256 > OFFSET_MAX * 256
      ensures ok && keys != [] ==> Built(units, Texts(keys), scheme)
      ensures ok ==> numUnusedIndices + |scheme.owner| == |units|
      ensures ok && keys == [] ==> EmptyArray(units)
    {
      hide Tally, Slots, TrieOk, AreKeys, FillerUnit, FirstUnused, WithOffset, WithLabel, IsLeaf, Label, Offset,
        Storable, Built, Filled;
      ghost var units0 := units;
      RootOwned(units, Texts(keys), scheme);
      SlotsRange(units, extras, unfixedIndex, lo, free, owner, bases);
      var unused := FixAllBlocks();
      SlotsRange(units, extras, unfixedIndex, lo, free, owner, bases);
      NoneLeft(free, |units|);
      TallyEnd(numUnusedIndices, owner, |units|);
      FrameTrieOk(units0, units, Texts(keys), scheme);
      if |units| >= OFFSET_MAX * 256 {
        return false;
      }
      ok := true;
      SizeStorable(|units|);
      ghost var units1 := units;
      units := units[1 := WithOffset(units[1], |units|)];
      SlotsWrite(units1, units, extras, unfixedIndex, lo, free, owner, bases);
      SizeWritten(units1, units, Texts(keys), scheme);
      if keys != [] {
        BuiltOk(units, extras, unfixedIndex, lo, free, owner, bases, Texts(keys), scheme);
      } else {
        EmptyOk(units, units1, owner, bases, unused[0]);
      }
    }

    /** `build_trie`: an array for the keys, or a failure when it grows beyond 2^29 units.  Every
        slot is reserved or was counted as unused. */
    method BuildTrie() returns (ok: bool)
      requires SlotsOk() && Counted() && lo == LiveFrom(|units|) && units == [] && owner == map[] && bases == {}
      requires AreKeys(Texts(keys)) && forall i :: 0 <= i < |keys| ==> keys[i].pos == 0
      modifies `units, `extras, `unfixedIndex, `numUnusedIndices, `lo, `free, `owner, `bases, `keys, `scheme, `done
      ensures SameRecs(old(keys), keys)
      ensures !ok ==> |units| + 256 > OFFSET_MAX * 256
      ensures ok && keys != [] ==> Built(units, Texts(keys), scheme) && Placement(keys, scheme, done)
      ensures ok ==> numUnusedIndices + |scheme.owner| == |units|
      ensures ok && keys == [] ==> EmptyArray(units)
    {
      hide Tally, Slots, TrieOk, AreKeys, Placement, SameRecs, WithOffset, WithLabel, Built, EmptyArray;
      ghost var keys0 := keys;
      SameRefl(keys);
      ReserveRoot();
      if keys != [] {
        FirstPlacement(keys, scheme);
        ok := BuildTrieSubroutine();
        if !ok {
          return;
        }
      }
      SameTexts(keys0, keys);
      ok := FinishTrie();
    }

    // The tail.

    /** `append_suffix`: the rest of a key with its NUL. */
    method AppendSuffix(rest: Key)
      requires IsText(rest)
      modifies `tail
      ensures tail == old(tail) + rest + [0]
    {
      var i: nat := 0;
      tail := tail + [ByteAt(rest, i)];
      while ByteAt(rest, i) != 0
        invariant i <= |rest| && tail == old(tail) + rest[..i] + [ByteAt(rest, i)]
        decreases |rest| - i
      {
        i := i + 1;
        tail := tail + [ByteAt(rest, i)];
      }
    }

    /** `append_value` */
    method AppendValue(value: int)
      requires IsInt32(value)
      modifies `tail
      ensures tail == old(tail) + ValueBytes(value)
    {
      var bytes := ValueBytes(value);
      for i := 0 to 4
        invariant tail == old(tail) + bytes[..i]
      {
        tail := tail + [bytes[i]];
      }
      assert bytes[..4] == bytes;
    }

    /** The first number that stands for a value, or the number of values. */
    method FindValue(values: seq<int>, value: int) returns (id: nat)
      ensures id <= |values| && (id < |values| ==> values[id] == value)
      ensures forall j :: 0 <= j < id ==> values[j] != value
    {
      id := 0;
      while id < |values| && values[id] != value
        invariant id <= |values| && forall j :: 0 <= j < id ==> values[j] != value
      {
        id := id + 1;
      }
    }

    /** Where the rest of the `i`-th key is stored: in the last group if it is a suffix of the
        rest before it and its value has a number there, in a new group otherwise. */
    method ChooseGroup(i: nat, base: nat, values: seq<int>, ghost top: Key)
      returns (base': nat, values': seq<int>, id: nat, ghost top': Key)
      requires LeavesReady(units, keys) && i < |keys| && LastGroup(units, tail, ids, keys, i, base, values, top)
        && IsIds(ids)
      modifies `tail
      ensures keys[i].pos <= |keys[i].text| && (tail == old(tail) || tail == old(tail) + Rest(keys[i]) + [0])
      ensures GroupOk(tail, base', values', top', ids) && IsSuffix(Rest(keys[i]), top')
      ensures id <= |values'| && id < ids && (id < |values'| ==> values'[id] == keys[i].value)
      ensures i > 0 ==> keys[i - 1].pos <= |keys[i - 1].text|
      ensures i > 0 && IsSuffix(Rest(keys[i]), Rest(keys[i - 1]))
        ==> base' == base || Full(tail, base, ids, keys[i].value)
    {
      hide LeavesReady, GroupOk, IsSuffix, Full, KeyLinked;
      ReadyKey(units, keys, i);
      var rest := Rest(keys[i]);
      var isSuffix := false;
      if i > 0 {
        ReadyKey(units, keys, i - 1);
        isSuffix := IsSuffixOf(rest, Rest(keys[i - 1]));
        GroupLength(tail, base, values, top, ids);
      }
      id := 0;
      if isSuffix {
        id := FindValue(values, keys[i].value);
        SuffixTransitive(rest, Rest(keys[i - 1]), top);
      }
      base', values', top' := base, values, top;
      if !isSuffix || id >= ids {
        base' := base' + 4 * |values|;
        base' := base' + |rest| + 1;
        values', id, top' := [], 0, rest;
        if isSuffix { GroupIsFull(tail, base, values, top, ids, keys[i].value); }
        NewGroup(tail, rest, ids);
        ghost var tail0 := tail;
        AppendSuffix(rest);
        SelfSuffix(rest);
        if isSuffix { FullLonger(tail0, tail, base, ids, keys[i].value); }
      }
    }

    /** Links the leaf of the `i`-th key to its rest and its value. */
    method ArrangeOne(i: nat, base: nat, values: seq<int>, ghost top: Key, ghost n: nat)
      returns (ok: bool, base': nat, values': seq<int>, ghost top': Key)
      requires LeavesReady(units, keys) && i < |keys| && LinkedUpTo(units, tail, ids, keys, i) && IsIds(ids)
      requires LastGroup(units, tail, ids, keys, i, base, values, top) && Bounded(tail, n)
      modifies `units, `tail
      ensures |units| == |old(units)|
        && forall q :: 0 <= q < |units| && q != keys[i].index ==> units[q] == old(units[q])
      ensures !ok ==> |tail| > LinkMax(ids)
      ensures Bounded(tail, n + |keys[i].text| + 5)
      ensures ok ==> LeavesReady(units, keys) && LinkedUpTo(units, tail, ids, keys, i + 1)
      ensures ok ==> LastGroup(units, tail, ids, keys, i + 1, base', values', top')
    {
      hide LeavesReady, LinkedUpTo, GroupOk, IsSuffix, Full, WithTail, LinkMax, KeyLinked, KeyEnd, LeafReady,
        StoredAt, ValueIs, Bounded, ValueBytes;
      var id: nat;
      base', values', id, top' := ChooseGroup(i, base, values, top);
      ReadyKey(units, keys, i);
      if i > 0 { ReadyKey(units, keys, i - 1); }
      GroupLength(tail, base', values', top', ids);
      SuffixIsStored(tail, base', values', top', ids, Rest(keys[i]));
      GrownTail(old(tail), tail, keys[i], n);
      var link := base' - |Rest(keys[i])| - 1;
      ok := link < LinkMax(ids);
      if !ok {
        return;
      }
      ghost var units0, tail0 := units, tail;
      units := units[keys[i].index := WithTail(units[keys[i].index], ids, id, link)];
      if id == |values'| {
        GroupGrows(tail, base', values', top', ids, keys[i].value);
        values' := values' + [keys[i].value];
        AppendValue(keys[i].value);
        SuffixIsStored(tail, base', values', top', ids, Rest(keys[i]));
      } else {
        GroupValue(tail, base', values', top', ids, id);
      }
      LeafRewritten(units0, ids, keys[i], id, link, tail, base');
      if i > 0 {
        ShareOrFull(units0, units, tail0, tail, ids, keys, i, base, base');
      }
      LinkedOneMore(units0, units, old(tail), tail, ids, keys, i);
    }

    /** `arrange_suffixes`: fails when a link would not fit into its unit. */
    method ArrangeSuffixes() returns (ok: bool)
      requires LeavesReady(units, keys) && IsIds(ids) && tail == []
      modifies `units, `keys, `tail
      ensures |units| == |old(units)|
      ensures forall q ::
        0 <= q < |units| && (forall r :: r in old(keys) ==> r.index != q)
        ==> units[q] == old(units[q])
      ensures keys == if ids == 8 then StableSorted(old(keys)) else old(keys)
      ensures !ok ==> |tail| > LinkMax(ids)
      ensures Bounded(tail, TailSize(Texts(old(keys))))
      ensures ok ==> forall r :: r in old(keys) ==> KeyLinked(units, tail, ids, r)
      ensures ok ==> forall k :: 0 < k < |keys| ==> Shares(units, tail, ids, keys[k], keys[k - 1])
    {
      hide LeavesReady, LinkedUpTo, LastGroup, Full, LinkMax, KeyLinked, StableSorted, Shares, TailSize, Texts, Bounded;
      EmptyBounded();
      MoreRoom([], 0, TailSize(Texts(keys)));
      if keys == [] {
        return true;
      }
      if ids == 8 {
        ReadyRests(units, keys);
        SortedReady(units, keys);
        SortedSize(keys);
        keys := StableSorted(keys);
      }
      var base, values := 0, [];
      ghost var top := [];
      NothingLinked(units, tail, ids, keys);
      var i := 0;
      ghost var n: nat := 0;
      assert keys[0..] == keys;
      while i < |keys|
        invariant 0 <= i <= |keys| && Bounded(tail, n) && n + TailSize(Texts(keys[i..])) == TailSize(Texts(old(keys)))
        invariant 0 <= i <= |keys| && |units| == |old(units)|
          && keys == (if ids == 8 then StableSorted(old(keys)) else old(keys))
        invariant LeavesReady(units, keys) && LinkedUpTo(units, tail, ids, keys, i)
        invariant LastGroup(units, tail, ids, keys, i, base, values, top)
        invariant forall q :: 0 <= q < |units| && (forall r :: r in keys ==> r.index != q) ==> units[q] == old(units[q])
      {
        assert keys[i] in keys;
        TailSizeSplit(keys, i);
        ok, base, values, top := ArrangeOne(i, base, values, top, n);
        n := n + |keys[i].text| + 5;
        if !ok {
          MoreRoom(tail, n, TailSize(Texts(old(keys))));
          return;
        }
        i := i + 1;
      }
      ok := true;
      MoreRoom(tail, n, TailSize(Texts(old(keys))));
      AllLinked(units, tail, ids, keys);
    }

    /** Builds the whole array.  It fails when the array would exceed 2^29 units or when the tail
        would become too long for a link. */
    method Build() returns (ok: bool)
      requires SlotsOk() && Counted() && lo == LiveFrom(|units|) && units == [] && owner == map[] && bases == {}
      requires AreKeys(Texts(keys)) && forall i :: 0 <= i < |keys| ==> keys[i].pos == 0 && IsInt32(keys[i].value)
      requires IsIds(ids) && tail == []
      modifies `units, `extras, `unfixedIndex, `numUnusedIndices, `lo, `free, `owner, `bases, `keys, `scheme, `done,
        `tail
      ensures !ok ==> |units| + 256 > OFFSET_MAX * 256 || |tail| > LinkMax(ids)
      ensures Bounded(tail, TailSize(Texts(old(keys))))
      ensures ok && old(keys) != [] ==> Whole(units, tail, ids, Texts(old(keys)), Values(old(keys)), scheme)
      ensures ok && old(keys) == [] ==> EmptyArray(units)
    {
      hide Tally, Slots, AreKeys, Built, Placement, SameRecs, EmptyArray, LeavesReady, Whole, LinkMax, Shares,
        KeyLinked, StableSorted, Texts, Bounded, TailSize;
      ghost var keys0 := keys;
      EmptyBounded();
      MoreRoom([], 0, TailSize(Texts(keys)));
      ok := BuildTrie();
      SameValues(keys0, keys);
      if !ok {
        return;
      }
      ghost var keys1, units1 := keys, units;
      if keys == [] {
        NoLeaves(units);
      } else {
        TrieReady(units, keys, scheme, done);
      }
      ok := ArrangeSuffixes();
      if ok && keys0 != [] {
        LeavesStored(units1, units, tail, ids, keys1, scheme, done);
      }
      if keys0 == [] {
        assert units == units1;
      }
    }
  }

  lemma EmptyBounded()
    ensures Bounded([], 0)
  {
  }

  lemma MoreRoom(tail: seq<nat>, n: nat, m: nat)
    requires Bounded(tail, n) && n <= m
    ensures Bounded(tail, m)
  {
  }

  /** What one key adds to the tail. */
  lemma GrownTail(tail0: seq<nat>, tail: seq<nat>, r: KeyRec, n: nat)
    requires r.pos <= |r.text| && IsText(Rest(r)) && IsInt32(r.value) && Bounded(tail0, n)
    requires tail == tail0 || tail == tail0 + Rest(r) + [0]
    ensures Bounded(tail, n + |r.text| + 5) && Bounded(tail + ValueBytes(r.value), n + |r.text| + 5)
  {
    hide ValueBytes, Bounded;
    var m := n + |r.text| + 1;
    if tail == tail0 {
      MoreRoom(tail, n, m);
    } else {
      RestBounded(tail0, Rest(r), n);
      MoreRoom(tail, n + |Rest(r)| + 1, m);
    }
    ValueBounded(tail, r.value, m);
    MoreRoom(tail, m, n + |r.text| + 5);
  }

  lemma SpanBounds(keys: seq<Key>, s: Span)
    requires SpanOk(keys, s)
    ensures s.begin < s.end <= |keys|
  {
  }

  ghost predicate Tally(unused: nat, free: seq<nat>, owner: map<nat, nat>, n: nat) {
    unused + |free| + |owner| == n
  }

  lemma TallyReserved(unused: nat, free: seq<nat>, j: nat, owner: map<nat, nat>, b: nat, n: nat)
    requires Tally(unused, free, owner, n) && j < |free| && free[j] !in owner
    ensures Tally(unused, Without(free, j), owner[free[j] := b], n)
  {
    var owner' := owner[free[j] := b];
    assert owner'.Keys == owner.Keys + {free[j]};
    assert |owner'| == |owner'.Keys| && |owner| == |owner.Keys|;
  }

  lemma TallyFixed(unused: nat, free: seq<nat>, owner: map<nat, nat>, n: nat)
    requires Tally(unused, free, owner, n) && free != []
    ensures Tally(unused + 1, free[1..], owner, n)
  {
  }

  lemma TallyGrown(unused: nat, free: seq<nat>, owner: map<nat, nat>, n: nat)
    requires Tally(unused, free, owner, n)
    ensures Tally(unused, free + Block(n), owner, n + 256)
  {
  }

  /** When no slot is unfixed, every slot is reserved or counted as unused. */
  lemma TallyEnd(unused: nat, owner: map<nat, nat>, n: nat)
    requires Tally(unused, [], owner, n)
    ensures unused + |owner| == n
  {
  }

  lemma NoneLeft(free: seq<nat>, n: nat)
    requires forall q :: q in free ==> n <= q < n
    ensures free == []
  {
    if free != [] {
      var q := SomeMember(free);
    }
  }

  lemma SomeMember(free: seq<nat>) returns (q: nat)
    requires free != []
    ensures q in free
  {
    q := free[0];
  }

  lemma RootHolds(owner: map<nat, nat>)
    requires 0 in owner && owner[0] == 0
    ensures Holds(owner, 0)
  {
  }

  /** Without keys only the root and the unit of the size are reserved. */
  ghost predicate RootOnly(units: seq<Word>, owner: map<nat, nat>, bases: set<nat>) {
    && |units| == 256 && units[0] == WithLabel(WithOffset(0, 1), 0) && units[1] == WithLabel(0, 1)
    && owner == map[0 := 0, 1 := 0] && bases == {0}
  }

  ghost predicate FirstUnused(bases: set<nat>, lo: nat, unused: nat) {
    unused !in bases && lo <= unused < lo + 256 && forall b: nat :: lo <= b < unused ==> b in bases
  }

  /** The slots of the block at `lo` that nobody owns lead to its first unused offset. */
  ghost predicate Filled(units: seq<Word>, owner: map<nat, nat>, bases: set<nat>, lo: nat, unused: nat) {
    lo + 256 <= |units| && forall q: nat :: lo <= q < lo + 256 && q !in owner ==>
      FirstUnused(bases, lo, unused) && units[q] == FillerUnit(q, unused)
  }

  lemma KeepFilled(units: seq<Word>, units': seq<Word>, owner: map<nat, nat>, bases: set<nat>, lo: nat,
                   unused: map<nat, nat>)
    requires |units'| == |units| && lo % 256 == 0 && forall q: nat :: q < lo && q < |units| ==> units'[q] == units[q]
    ensures forall at: nat ::
      at < lo && at % 256 == 0 && at in unused && Filled(units, owner, bases, at, unused[at])
      ==> Filled(units', owner, bases, at, unused[at])
  {
    hide FirstUnused, FillerUnit;
  }

  /** Only positions and leaves differ. */
  ghost predicate SameRecs(a: seq<KeyRec>, b: seq<KeyRec>) {
    |a| == |b| && forall i :: 0 <= i < |a| ==> b[i].text == a[i].text && b[i].value == a[i].value
  }

  /** The owners after the slots of all labels from the `i`-th on have gone to `b`. */
  ghost function Owned(owner: map<nat, nat>, b: nat, labels: seq<nat>, i: nat): map<nat, nat>
    requires i <= |labels|
    decreases |labels| - i
  {
    if i == |labels| then owner else Owned(owner, b, labels, i + 1)[Xor(b, labels[i]) := b]
  }

  lemma NoneYet(owner: map<nat, nat>, b: nat, labels: seq<nat>, ranges: seq<(nat, nat)>)
    requires |ranges| == |labels|
    ensures Owned(owner, b, labels, |labels|) == owner && Tasks(b, labels, ranges, |labels|) == []
  {
  }

  lemma OneMore(owner: map<nat, nat>, b: nat, labels: seq<nat>, ranges: seq<(nat, nat)>, i: nat)
    requires i < |labels| == |ranges|
    ensures Owned(owner, b, labels, i) == Owned(owner, b, labels, i + 1)[Xor(b, labels[i]) := b]
    ensures Tasks(b, labels, ranges, i)
      == Tasks(b, labels, ranges, i + 1) + [Task(ranges[i].0, ranges[i].1, Xor(b, labels[i]))]
  {
    hide Xor;
  }

  ghost predicate SlotFrom(b: nat, labels: seq<nat>, i: nat, q: nat) {
    exists j :: i <= j < |labels| && Xor(b, labels[j]) == q
  }

  lemma SlotFromNext(b: nat, labels: seq<nat>, i: nat, q: nat)
    requires i < |labels|
    ensures SlotFrom(b, labels, i, q) <==> SlotFrom(b, labels, i + 1, q) || q == Xor(b, labels[i])
  {
    hide Xor;
    if SlotFrom(b, labels, i, q) {
      var j :| i <= j < |labels| && Xor(b, labels[j]) == q;
      assert j == i || SlotFrom(b, labels, i + 1, q);
    }
    if SlotFrom(b, labels, i + 1, q) {
      var j :| i + 1 <= j < |labels| && Xor(b, labels[j]) == q;
    }
  }

  lemma {:induction false} OwnedIs(owner: map<nat, nat>, b: nat, labels: seq<nat>, i: nat, q: nat)
    requires i <= |labels|
    ensures var o := Owned(owner, b, labels, i);
      && (q in o <==> q in owner || SlotFrom(b, labels, i, q))
      && (q in o ==> o[q] == if SlotFrom(b, labels, i, q) then b else owner[q])
    decreases |labels| - i
  {
    hide Xor;
    if i < |labels| {
      OwnedIs(owner, b, labels, i + 1, q);
      hide SlotFrom;
      SlotFromNext(b, labels, i, q);
    }
  }

  /** The owners of the scheme with the node placed. */
  lemma OwnedIsPlaced(sch: Scheme, x: nat, b: nat, labels: seq<nat>, ranges: seq<(nat, nat)>)
    requires x in sch.child && |ranges| == |labels|
    ensures Owned(sch.owner, b, labels, 0) == Placed(sch, x, b, labels, ranges).owner
  {
    hide Xor, SpanAt, Owned, SlotFrom, SlotSet;
    var o, o' := Owned(sch.owner, b, labels, 0), Placed(sch, x, b, labels, ranges).owner;
    forall q: nat ensures (q in o <==> q in o') && (q in o ==> o[q] == o'[q]) {
      OwnedIs(sch.owner, b, labels, 0, q);
      SlotsFromStart(b, labels, q);
    }
  }

  lemma SlotsFromStart(b: nat, labels: seq<nat>, q: nat)
    ensures SlotFrom(b, labels, 0, q) <==> q in SlotSet(b, labels)
  {
    hide Xor;
  }

  /** The slots of the first `i` labels can still be taken. */
  ghost predicate Ahead(n: nat, free: seq<nat>, b: nat, labels: seq<nat>, i: nat)
    requires i <= |labels|
  {
    forall j :: 0 <= j < i ==> Xor(b, labels[j]) in free || (i == |labels| && n <= Xor(b, labels[j]) < n + 256)
  }

  /** The slots of the other labels have been taken. */
  ghost predicate Taken(units: seq<Word>, lo: nat, owner: map<nat, nat>, b: nat, labels: seq<nat>, i: nat)
    requires i <= |labels|
  {
    && (forall j :: i <= j < |labels| ==> TakenSlot(units, owner, Xor(b, labels[j]), labels[j]))
    && (i < |labels| ==> lo <= Xor(b, labels[|labels| - 1]))
  }

  ghost predicate TakenSlot(units: seq<Word>, owner: map<nat, nat>, q: nat, c: nat) {
    q < |units| && q in owner && FreshUnit(units[q], c)
  }

  lemma AllAhead(n: nat, free: seq<nat>, b: nat, labels: seq<nat>)
    requires n % 256 == 0 && Room(n, free, labels, b) && forall j :: 0 <= j < |labels| ==> labels[j] < 256
    ensures Ahead(n, free, b, labels, |labels|)
  {
    hide Xor;
    InNewBlock(n, b, labels);
  }

  lemma NoneTaken(units: seq<Word>, lo: nat, owner: map<nat, nat>, b: nat, labels: seq<nat>)
    ensures Taken(units, lo, owner, b, labels, |labels|)
  {
  }

  lemma NextAhead(n: nat, free: seq<nat>, b: nat, labels: seq<nat>, i: nat)
    requires i < |labels| && Ahead(n, free, b, labels, i + 1)
    ensures Xor(b, labels[i]) in free || (i + 1 == |labels| && n <= Xor(b, labels[i]) < n + 256)
  {
    hide Xor;
  }

  lemma StillAhead(n: nat, n': nat, free: seq<nat>, free': seq<nat>, b: nat, labels: seq<nat>, i: nat)
    requires i < |labels| && Increasing(labels) && Ahead(n, free, b, labels, i + 1)
    requires n % 256 == 0 && forall j :: 0 <= j < |labels| ==> labels[j] < 256
    requires forall x :: x in free ==> x < n
    requires Xor(b, labels[i]) < n ==> forall x :: x in free && x != Xor(b, labels[i]) ==> x in free'
    requires Xor(b, labels[i]) >= n ==>
      n' == n + 256
      && forall x :: n <= x < n' && x != Xor(b, labels[i]) ==> x in free'
    ensures Ahead(n', free', b, labels, i)
  {
    hide Xor;
    DistinctSlots(b, labels, i);
    var q := Xor(b, labels[i]);
    SameBlock(b, labels[i]);
    forall j | 0 <= j < i ensures Xor(b, labels[j]) in free' {
      SameBlock(b, labels[j]);
    }
  }

  lemma StillTaken(units: seq<Word>, units': seq<Word>, lo: nat, lo': nat, owner: map<nat, nat>, owner': map<nat, nat>,
                   b: nat, labels: seq<nat>, i: nat)
    requires i < |labels| && Taken(units, lo, owner, b, labels, i + 1)
      && TakenSlot(units', owner', Xor(b, labels[i]), labels[i])
    requires |units| <= |units'| && forall q :: q in owner && q < |units| ==> q in owner' && units'[q] == units[q]
    requires if i + 1 == |labels| then lo' <= Xor(b, labels[i]) else lo' <= lo
    ensures Taken(units', lo', owner', b, labels, i)
  {
    hide Xor, FreshUnit;
  }

  lemma AllTaken(units: seq<Word>, lo: nat, owner: map<nat, nat>, b: nat, labels: seq<nat>)
    requires labels != [] && lo % 256 == 0 && Taken(units, lo, owner, b, labels, 0)
    requires forall j :: 0 <= j < |labels| ==> labels[j] < 256
    ensures forall j :: 0 <= j < |labels| ==>
      Xor(b, labels[j]) < |units|
      && FreshUnit(units[Xor(b, labels[j])], labels[j])
    ensures lo <= Xor(b, labels[0])
  {
    hide Xor, FreshUnit;
    var k := |labels| - 1;
    SameBlock(b, labels[0]);
    SameBlock(b, labels[k]);
    assert TakenSlot(units, owner, Xor(b, labels[k]), labels[k]);
  }

  /** The slots of different labels differ. */
  lemma DistinctSlots(b: nat, labels: seq<nat>, i: nat)
    requires Increasing(labels) && i < |labels|
    ensures forall j :: 0 <= j < |labels| && j != i ==> Xor(b, labels[j]) != Xor(b, labels[i])
  {
    hide Xor;
    forall j | 0 <= j < |labels| && j != i ensures Xor(b, labels[j]) != Xor(b, labels[i]) {
      if Xor(b, labels[j]) == Xor(b, labels[i]) { XorInjective(b, labels[j], labels[i]); }
    }
  }

  /** The slots of a base in the block to come lie there. */
  lemma InNewBlock(n: nat, b: nat, labels: seq<nat>)
    requires n % 256 == 0 && forall j :: 0 <= j < |labels| ==> labels[j] < 256
    ensures b / 256 == n / 256 ==> forall j :: 0 <= j < |labels| ==> n <= Xor(b, labels[j]) < n + 256
  {
    hide Xor;
    forall j | 0 <= j < |labels| ensures b / 256 == n / 256 ==> n <= Xor(b, labels[j]) < n + 256 {
      SameBlock(b, labels[j]);
    }
  }

  /** The unit of a node at `b` whose edges carry the labels. */
  ghost predicate NodeUnit(u: Word, x: nat, b: nat, c: nat, labels: seq<nat>) {
    !IsLeaf(u) && Label(u) == c && Xor(x, Offset(u)) == b && (IsEnd(u) <==> 0 in labels)
  }

  lemma WaitingUnit(units: seq<Word>, keys: seq<Key>, sch: Scheme, x: nat)
    requires TrieOk(units, keys, sch) && x in sch.waiting
    ensures x in sch.owner && x != 1 && x < |units|
    ensures !IsLeaf(units[x]) && !IsEnd(units[x]) && Label(units[x]) == sch.LabelOf(x)
  {
    hide IsLeaf, IsEnd, Label, NodeOk, SlotOwned, LinksTo, Xor;
    ChildKeys(units, keys, sch);
    assert UnitOk(units, keys, sch, x);
  }

  lemma RunLabels(keys: seq<Key>, s: Span, labels: seq<nat>, ranges: seq<(nat, nat)>)
    requires AreKeys(keys) && SpanOk(keys, s) && Runs(keys, s, labels, ranges, s.end)
    ensures labels != [] && |labels| == |ranges| && Increasing(labels)
      && forall j :: 0 <= j < |labels| ==> labels[j] < 256
  {
    hide AreKeys, SpanOk;
    forall j | 0 <= j < |labels| ensures labels[j] < 256 {
      RunIsChild(keys, s, labels, ranges, j);
    }
  }

  lemma FirstIsZero(labels: seq<nat>)
    requires labels != [] && Increasing(labels)
    ensures labels[0] == 0 <==> 0 in labels
  {
    if 0 in labels {
      var j :| 0 <= j < |labels| && labels[j] == 0;
      var first := labels[0];
    }
  }

  /** The offset that was found is new, and so are its slots. */
  lemma ChosenPlace(units: seq<Word>, extras: Records, head: nat, lo: nat, free: seq<nat>, owner: map<nat, nat>,
                    bases: set<nat>, x: nat, b: nat, labels: seq<nat>, sch: Scheme)
    requires Slots(units, extras, head, lo, free, owner, bases) && owner == sch.owner && bases == sch.node.Keys + {0}
    requires b == |units| + x % 256 || (b !in bases && lo <= b < |units|)
    requires b == |units| + x % 256 || forall i :: 0 <= i < |labels| ==> Xor(b, labels[i]) in free
    requires forall j :: 0 <= j < |labels| ==> labels[j] < 256
    ensures Room(|units|, free, labels, b) && CanPlace(sch, x, b, labels) && b >= lo
  {
    hide Ring, Filler, Holds, Xor;
    SlotsRange(units, extras, head, lo, free, owner, bases);
    if b == |units| + x % 256 { InNewBlock(|units|, b, labels); }
    forall q | q in SlotSet(b, labels) ensures q !in sch.owner {
      var j :| 0 <= j < |labels| && Xor(b, labels[j]) == q;
    }
  }

  lemma AdvancedSame(recs: seq<KeyRec>, begin: nat, at: nat)
    requires begin <= at <= |recs|
    ensures SameRecs(recs, Advanced(recs, begin, at))
  {
  }

  lemma ChildHolds(owner: map<nat, nat>, b: nat, labels: seq<nat>)
    requires labels != [] && labels[0] < 256
    ensures Holds(Owned(owner, b, labels, 0), b)
  {
    hide Xor;
    OwnedIs(owner, b, labels, 0, Xor(b, labels[0]));
    SameBlock(b, labels[0]);
  }

  lemma TrieOwns(units: seq<Word>, keys: seq<Key>, sch: Scheme, x: nat)
    requires TrieBut(units, keys, sch, x)
    ensures 0 in sch.owner && 1 in sch.owner && sch.waiting <= sch.owner.Keys && sch.child.Keys <= sch.owner.Keys
  {
    hide UnitOk, NodeOk, SlotOwned;
  }

  lemma IsReady(units: seq<Word>, keys: seq<Key>, sch: Scheme, x: nat, b: nat, labels: seq<nat>,
                ranges: seq<(nat, nat)>)
    requires |ranges| == |labels| && AreKeys(keys) && TrieBut(units, keys, sch, x) && x in sch.child && x in sch.owner
      && x != 1
    requires SpanOk(keys, sch.child[x]) && Runs(keys, sch.child[x], labels, ranges, sch.child[x].end)
    requires CanPlace(sch, x, b, labels)
    requires forall j :: 0 <= j < |labels| ==>
      Xor(b, labels[j]) < |units|
      && FreshUnit(units[Xor(b, labels[j])], labels[j])
    requires x == 0 || sch.child[x].end > sch.child[x].begin + 1
    requires x < |units| && NodeUnit(units[x], x, b, sch.LabelOf(x), labels)
    ensures ReadyToPlace(units, keys, sch, x, b, labels, ranges)
  {
    hide AreKeys, TrieBut, SpanOk, Runs, CanPlace, FreshUnit, Xor, IsLeaf, IsEnd, Label, Offset;
  }

  lemma IsDone(recs: seq<KeyRec>, sch: Scheme, x: nat, b: nat, labels: seq<nat>, ranges: seq<(nat, nat)>)
    requires x in sch.waiting && x in sch.child && |labels| == |ranges| && CanPlace(sch, x, b, labels)
    requires SpanOk(Texts(recs), sch.child[x]) && Runs(Texts(recs), sch.child[x], labels, ranges, sch.child[x].end)
    requires 0 in sch.owner && sch.waiting <= sch.owner.Keys && sch.child.Keys <= sch.owner.Keys
    requires x == 0 || sch.child[x].end > sch.child[x].begin + 1
    requires forall i :: sch.child[x].begin <= i < sch.child[x].end ==> i < |recs| && recs[i].pos == sch.child[x].depth
    ensures NodeDone(recs, sch, x, b, labels, ranges)
  {
    hide Runs, SlotSet, SpanOk;
    forall i | sch.child[x].begin <= i < sch.child[x].end ensures i < |recs| && recs[i].pos <= |recs[i].text| {
      InSpan(Texts(recs), sch.child[x], i);
    }
  }

  /** The units of the children carry just their labels. */
  ghost predicate ChildUnits(units: seq<Word>, b: nat, labels: seq<nat>) {
    forall j :: 0 <= j < |labels| ==> Xor(b, labels[j]) < |units| && FreshUnit(units[Xor(b, labels[j])], labels[j])
  }

  /** The invariants of the trie, the keys and the stack after a node has been placed. */
  lemma AfterNode(units: seq<Word>, recs: seq<KeyRec>, sch: Scheme, done: set<nat>, stack: seq<Task>,
                  x: nat, b: nat, labels: seq<nat>, ranges: seq<(nat, nat)>)
    requires |ranges| == |labels| && AreKeys(Texts(recs)) && x in sch.waiting && x in sch.child && x in sch.owner
      && x != 1
    requires TrieBut(units, Texts(recs), sch, x)
    requires SpanOk(Texts(recs), sch.child[x]) && Runs(Texts(recs), sch.child[x], labels, ranges, sch.child[x].end)
    requires CanPlace(sch, x, b, labels) && ChildUnits(units, b, labels)
    requires x == 0 || sch.child[x].end - sch.child[x].begin != 1
    requires x < |units| && NodeUnit(units[x], x, b, sch.LabelOf(x), labels)
    requires Placement(recs, sch, done) && stack != [] && StackIs(stack, sch) && stack[|stack| - 1].index == x
    ensures var s, sch' := sch.child[x], Placed(sch, x, b, labels, ranges);
      && s.begin < s.end <= |recs|
      && TrieOk(units, Texts(recs), sch') && sch'.node.Keys == sch.node.Keys + {b}
      && Placement(Advanced(recs, s.begin, s.end), sch', done)
      && Left(Advanced(recs, s.begin, s.end), done, |recs|) < Left(recs, done, |recs|)
      && StackIs(stack[..|stack| - 1] + Tasks(b, labels, ranges, 0), sch')
  {
    hide TrieOk, TrieBut, AreKeys, SpanOk, Runs, CanPlace, StackIs, Placement, Left, Advanced, Xor, FreshUnit,
      NodeUnit, Placed, Tasks, NodeDone, ReadyToPlace;
    var texts := Texts(recs);
    TopTask(stack, recs, sch, done);
    TrieOwns(units, texts, sch, x);
    IsReady(units, texts, sch, x, b, labels, ranges);
    PlaceKeeps(units, texts, sch, x, b, labels, ranges);
    IsDone(recs, sch, x, b, labels, ranges);
    NodePlaced(recs, sch, done, x, b, labels, ranges);
    StackAfterNode(stack, sch, x, b, labels, ranges, texts);
    PlacedKeys'(sch, x, b, labels, ranges);
  }

  // The start and the end.

  lemma PosBound(recs: seq<KeyRec>, sch: Scheme, done: set<nat>, i: nat)
    requires Placement(recs, sch, done) && i < |recs|
    ensures recs[i].pos <= |recs[i].text| + 1
  {
    hide WaitingOk, LeafIs, DoneOk, Apart, Waits;
  }

  lemma StepBackSame(recs: seq<KeyRec>, i: nat, x: nat)
    requires i < |recs| && recs[i].pos > 0
    ensures SameRecs(recs, StepBack(recs, i, x)) && Texts(StepBack(recs, i, x)) == Texts(recs)
  {
  }

  lemma FirstStack(sch: Scheme, n: nat)
    requires sch.waiting == {0} && 0 in sch.child && sch.child[0] == Span(0, n, 0)
    ensures StackIs([Task(0, n, 0)], sch)
  {
    assert [Task(0, n, 0)][0].index == 0;
  }

  lemma NothingWaits(sch: Scheme)
    requires StackIs([], sch)
    ensures sch.waiting == {}
  {
  }

  lemma SameRefl(recs: seq<KeyRec>)
    ensures SameRecs(recs, recs)
  {
  }

  lemma SameTexts(a: seq<KeyRec>, b: seq<KeyRec>)
    requires SameRecs(a, b)
    ensures Texts(a) == Texts(b)
  {
  }

  lemma FirstPlacement(recs: seq<KeyRec>, sch: Scheme)
    requires recs != [] && sch == Scheme(map[0 := 0, 1 := 0], map[], map[0 := Span(0, |recs|, 0)], {0})
    requires forall i :: 0 <= i < |recs| ==> recs[i].pos == 0
    ensures Placement(recs, sch, {})
  {
  }

  lemma RootOwned(units: seq<Word>, keys: seq<Key>, sch: Scheme)
    requires TrieOk(units, keys, sch)
    ensures 0 in sch.owner && 1 in sch.owner && |units| > 1 && !IsLeaf(units[1]) && Label(units[1]) == 1
    ensures forall q :: q in sch.owner ==> q < |units|
  {
    hide NodeOk, SlotOwned, IsLeaf, Label, LinksTo;
    assert UnitOk(units, keys, sch, 1);
  }

  lemma FrameTrieOk(units: seq<Word>, units': seq<Word>, keys: seq<Key>, sch: Scheme)
    requires TrieOk(units, keys, sch) && |units| == |units'|
      && forall q :: q in sch.owner && q < |units| ==> units'[q] == units[q]
    ensures TrieOk(units', keys, sch)
  {
    hide NodeOk, SlotOwned, LinksTo, IsLeaf, IsEnd, Label;
    FrameTrie(units, units', keys, sch, 1);
    TrieParts(units, keys, sch, 1);
  }

  lemma SizeStorable(n: nat)
    requires n % 256 == 0 && n < OFFSET_MAX * 256
    ensures Storable(n)
  {
  }

  lemma SizeWritten(units: seq<Word>, units': seq<Word>, keys: seq<Key>, sch: Scheme)
    requires TrieOk(units, keys, sch) && |units| > 1 && Storable(|units|)
    requires units' == units[1 := WithOffset(units[1], |units|)]
    ensures TrieOk(units', keys, sch) && Offset(units'[1]) == |units|
  {
    hide NodeOk, SlotOwned, LinksTo, IsLeaf, IsEnd, Label, Offset, WithOffset;
    OffsetRoundTrip(units[1], |units|);
    FrameTrie(units, units', keys, sch, 1);
  }

  lemma BuiltOk(units: seq<Word>, extras: Records, head: nat, lo: nat, free: seq<nat>, owner: map<nat, nat>,
                bases: set<nat>, keys: seq<Key>, sch: Scheme)
    requires Slots(units, extras, head, lo, free, owner, bases) && lo == |units| && |units| > 1
    requires TrieOk(units, keys, sch) && sch.waiting == {} && AreKeys(keys) && keys != [] && Offset(units[1]) == |units|
    requires owner == sch.owner && bases == sch.node.Keys + {0}
    ensures Built(units, keys, sch)
  {
    hide TrieOk, AreKeys, Ring, Holds, Filler, Offset;
    SlotsRange(units, extras, head, lo, free, owner, bases);
  }

  lemma EmptyOk(units: seq<Word>, units1: seq<Word>, owner: map<nat, nat>, bases: set<nat>, unused: nat)
    requires |units1| == 256 && units1[0] == WithLabel(WithOffset(0, 1), 0) && units1[1] == WithLabel(0, 1)
    requires owner == map[0 := 0, 1 := 0] && bases == {0} && Filled(units1, owner, bases, 0, unused)
    requires units == units1[1 := WithOffset(units1[1], 256)]
    ensures EmptyArray(units)
  {
    hide WithLabel, WithOffset, FillerLabel;
    assert 2 !in owner;
    assert FirstUnused(bases, 0, unused);
    assert 1 !in bases && 0 in bases;
    assert unused == 1;
  }

  lemma SameValues(a: seq<KeyRec>, b: seq<KeyRec>)
    requires SameRecs(a, b)
    ensures Texts(a) == Texts(b) && Values(a) == Values(b) && |a| == |b|
    ensures forall i :: 0 <= i < |b| ==> b[i].value == a[i].value
  {
  }

  lemma NoLeaves(units: seq<Word>)
    ensures LeavesReady(units, [])
  {
  }

  /** When nothing waits any more, every key has a leaf of its own. */
  lemma TrieReady(units: seq<Word>, recs: seq<KeyRec>, sch: Scheme, done: set<nat>)
    requires Built(units, Texts(recs), sch) && Placement(recs, sch, done)
    requires forall i :: 0 <= i < |recs| ==> IsInt32(recs[i].value)
    ensures LeavesReady(units, recs)
    ensures forall i :: 0 <= i < |recs| ==> sch.IsLeafSlot(recs[i].index) && sch.child[recs[i].index].begin == i
  {
    hide TrieOk, WaitingOk, Apart, IsLeaf, Filler, Offset;
    forall i: nat | i < |recs|
      ensures sch.IsLeafSlot(recs[i].index) && sch.child[recs[i].index].begin == i && LeafReady(units, recs[i])
    {
      assert i in done by { assert i in done || Waits(sch, i); }
      assert DoneOk(recs, sch, i);
      assert LeafIs(recs, sch, done, recs[i].index);
      LeafSlotUnit(units, Texts(recs), sch, recs[i].index);
      assert Texts(recs)[i] == recs[i].text;
    }
  }

  lemma LeafSlotUnit(units: seq<Word>, keys: seq<Key>, sch: Scheme, q: nat)
    requires TrieOk(units, keys, sch) && sch.IsLeafSlot(q)
    ensures q in sch.owner && q != 0 && q != 1 && q < |units| && IsLeaf(units[q])
  {
    hide NodeOk, SlotOwned, LinksTo, IsLeaf;
    ChildKeys(units, keys, sch);
    TrieParts(units, keys, sch, q);
  }

  /** Every leaf of the trie leads to the rest and the value of its key. */
  lemma LeavesStored(units: seq<Word>, units': seq<Word>, tail: seq<nat>, ids: nat, recs: seq<KeyRec>, sch: Scheme,
                     done: set<nat>)
    requires Built(units, Texts(recs), sch) && Placement(recs, sch, done) && |units'| == |units|
    requires forall i :: 0 <= i < |recs| ==> IsInt32(recs[i].value)
    requires forall q :: 0 <= q < |units| && (forall r :: r in recs ==> r.index != q) ==> units'[q] == units[q]
    requires forall r :: r in recs ==> KeyLinked(units', tail, ids, r)
    ensures Whole(units', tail, ids, Texts(recs), Values(recs), sch)
  {
    hide TrieOk, WaitingOk, Apart, IsLeaf, Filler, Offset, LinksRest, LeavesReady, AreKeys, DoneOk, Waits;
    TrieReady(units, recs, sch, done);
    forall q: nat | sch.IsLeafSlot(q) ensures LeafStored(units', tail, ids, Texts(recs), Values(recs), sch, q) {
      assert LeafIs(recs, sch, done, q);
      var i := sch.child[q].begin;
      assert recs[i] in recs && KeyLinked(units', tail, ids, recs[i]);
      assert Texts(recs)[i] == recs[i].text;
    }
    forall q: nat | q < |units| && !sch.IsLeafSlot(q) ensures units'[q] == units[q] {
      forall r | r in recs ensures r.index != q {
      }
    }
    LeavesMayChange(units, units', tail, ids, Texts(recs), Values(recs), sch);
  }
}
