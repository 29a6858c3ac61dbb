/** The 32-bit units of the array with tails.

    An inner unit holds a flag for keys that end below it, a label and an offset; a leaf unit
    holds a link into the tail and the number of its value there.  `ids` is the number of values
    that can be told apart: 8 for the sorted variant and 1 for the other one. */
module CloneUnit {
  type Word = u: nat | u < 0x1_0000_0000

  const OFFSET_MAX: nat := 0x20_0000

  predicate IsIds(ids: nat) {
    ids == 1 || ids == 8
  }

  function IsLeaf(u: Word): bool {
    u % 2 == 1
  }

  function IsEnd(u: Word): bool {
    u / 2 % 2 == 1
  }

  function Label(u: Word): nat {
    u / 4 % 256
  }

  /** Large offsets are multiples of 256 and are stored without their last byte. */
  function Offset(u: Word): nat {
    var f := u / 1024;
    if f < OFFSET_MAX then f else (f - OFFSET_MAX) * 256
  }

  function ValueId(u: Word, ids: nat): nat {
    if ids == 8 then u / 2 % 8 else 0
  }

  function Link(u: Word, ids: nat): nat {
    if ids == 8 then u / 16 else u / 2
  }

  function LinkMax(ids: nat): nat {
    if ids == 8 then 0x1000_0000 else 0x8000_0000
  }

  // Writing.

  function WithLeaf(u: Word): Word {
    if IsLeaf(u) then u else u + 1
  }

  function WithEnd(u: Word): Word {
    if IsEnd(u) then u else u + 2
  }

  function WithLabel(u: Word, c: nat): Word
    requires c < 256
  {
    u / 1024 * 1024 + c * 4 + u % 4
  }

  predicate Storable(offset: nat) {
    offset < OFFSET_MAX * 256 && (offset < OFFSET_MAX || offset % 256 == 0)
  }

  function WithOffset(u: Word, offset: nat): Word
    requires Storable(offset)
  {
    u % 1024 + 1024 * (if offset < OFFSET_MAX then offset else OFFSET_MAX + offset / 256)
  }

  /** `set_value_id` and then `set_link` on a leaf unit: only the leaf bit stays. */
  function WithTail(u: Word, ids: nat, id: nat, link: nat): Word
    requires IsIds(ids) && id < ids && link < LinkMax(ids)
  {
    u % 2 + 2 * id + 2 * ids * link
  }

  /** `set_link` on its own. */
  function WithLink(u: Word, ids: nat, link: nat): Word
    requires IsIds(ids) && link < LinkMax(ids)
  {
    u % (2 * ids) + 2 * ids * link
  }

  /** A search keeps the slot of an inner node in the bits above the leaf bit. */
  function Index(u: Word): nat {
    u / 2
  }

  function WithIndex(u: Word, index: nat): Word
    requires index < 0x8000_0000
  {
    u % 2 + 2 * index
  }

  // What is written is read, and nothing else changes.

  lemma Fields(u: Word)
    ensures u == u / 1024 * 1024 + Label(u) * 4 + (if IsEnd(u) then 2 else 0) + (if IsLeaf(u) then 1 else 0)
  {
    var h := u / 2;
    var q := h / 2;
    assert u == 2 * h + u % 2 && h == 2 * q + h % 2;
    assert q == u / 4 && q == 256 * (q / 256) + q % 256 && q / 256 == u / 1024;
  }

  /** A word from its fields. */
  lemma FromFields(u: Word, top: nat, c: nat, end: nat, leaf: nat)
    requires u == top * 1024 + c * 4 + end * 2 + leaf && c < 256 && end < 2 && leaf < 2
    ensures u / 1024 == top && Label(u) == c && (IsEnd(u) <==> end == 1) && (IsLeaf(u) <==> leaf == 1)
  {
    var q := top * 256 + c;
    var h := 2 * q + end;
    assert u == 2 * h + leaf;
    assert u / 2 == h && h / 2 == q && u / 4 == q;
    assert q / 256 == top && q % 256 == c && u / 1024 == q / 256;
  }

  lemma LeafRoundTrip(u: Word)
    ensures IsLeaf(WithLeaf(u))
  {
  }

  lemma EndRoundTrip(u: Word)
    ensures var w := WithEnd(u); IsEnd(w) && Label(w) == Label(u) && Offset(w) == Offset(u) && IsLeaf(w) == IsLeaf(u)
  {
    hide Label, IsEnd, IsLeaf;
    Fields(u);
    FromFields(WithEnd(u), u / 1024, Label(u), 1, if IsLeaf(u) then 1 else 0);
  }

  lemma LabelRoundTrip(u: Word, c: nat)
    requires c < 256
    ensures var w := WithLabel(u, c);
      Label(w) == c && Offset(w) == Offset(u) && IsLeaf(w) == IsLeaf(u)
      && IsEnd(w) == IsEnd(u)
  {
    hide Label, IsEnd, IsLeaf;
    Fields(u);
    FromFields(WithLabel(u, c), u / 1024, c, if IsEnd(u) then 1 else 0, if IsLeaf(u) then 1 else 0);
  }

  lemma OffsetRoundTrip(u: Word, offset: nat)
    requires Storable(offset)
    ensures var w := WithOffset(u, offset);
      Offset(w) == offset && Label(w) == Label(u) && IsLeaf(w) == IsLeaf(u) && IsEnd(w) == IsEnd(u)
  {
    hide Label, IsEnd, IsLeaf;
    Fields(u);
    var top := if offset < OFFSET_MAX then offset else OFFSET_MAX + offset / 256;
    FromFields(WithOffset(u, offset), top, Label(u), if IsEnd(u) then 1 else 0, if IsLeaf(u) then 1 else 0);
  }

  lemma TailRoundTrip(u: Word, ids: nat, id: nat, link: nat)
    requires IsIds(ids) && id < ids && link < LinkMax(ids) && IsLeaf(u)
    ensures var w := WithTail(u, ids, id, link); IsLeaf(w) && ValueId(w, ids) == id && Link(w, ids) == link
  {
    var w := WithTail(u, ids, id, link);
    if ids == 8 {
      var h := 8 * link + id;
      assert w == 2 * h + 1 && w / 2 == h && h / 8 == link && w / 16 == h / 8;
    } else {
      assert w == 2 * link + 1;
    }
  }

  /** The fields of a leaf in the variant with value numbers. */
  lemma LeafFields(u: Word, link: nat, r: nat)
    requires u == 16 * link + r && r < 16
    ensures u / 16 == link && u / 2 % 8 == r / 2 && u % 2 == r % 2
  {
    assert u / 2 == 8 * link + r / 2;
  }

  lemma LinkRoundTrip(u: Word, ids: nat, link: nat)
    requires IsIds(ids) && link < LinkMax(ids)
    ensures var w := WithLink(u, ids, link);
      IsLeaf(w) == IsLeaf(u) && ValueId(w, ids) == ValueId(u, ids) && Link(w, ids) == link
  {
    if ids == 8 {
      LeafFields(u, u / 16, u % 16);
      LeafFields(WithLink(u, ids, link), link, u % 16);
    }
  }

  lemma IndexRoundTrip(u: Word, index: nat)
    requires index < 0x8000_0000
    ensures Index(WithIndex(u, index)) == index && IsLeaf(WithIndex(u, index)) == IsLeaf(u)
  {
  }

  lemma OffsetBound(u: Word)
    ensures Offset(u) < OFFSET_MAX * 256
  {
  }

  lemma ZeroUnit()
    ensures !IsLeaf(0) && !IsEnd(0) && Label(0) == 0 && Offset(0) == 0
  {
  }
}
