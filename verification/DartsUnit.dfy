/** The 32-bit units of the double array.

    A word is a natural below 2^32.  From the lowest bit: 8 bits of label, the leaf bit,
    the bit that scales the offset by 256, 21 bits of offset, and bit 31, which marks a
    value.  Fields that do not overlap are joined by addition, which is what or-ing them
    computes. */
module DartsUnit {
  const TOP: nat := 0x8000_0000

  /** Offsets are below this. */
  const MAX_OFFSET: nat := 0x2000_0000

  type Word = u: nat | u < 0x1_0000_0000

  // What a reader of the array sees.

  function HasLeaf(u: Word): bool {
    u / 256 % 2 == 1
  }

  function Value(u: Word): nat {
    u % TOP
  }

  /** The label together with bit 31, so that a value never equals a label. */
  function Label(u: Word): nat {
    u / TOP * TOP + u % 256
  }

  function Offset(u: Word): nat {
    u / 1024 * (if u / 512 % 2 == 1 then 256 else 1)
  }

  // What the builder writes.

  function WithLeaf(u: Word): Word {
    if HasLeaf(u) then u else u + 256
  }

  function WithLabel(u: Word, c: nat): Word
    requires c < 256
  {
    u - u % 256 + c
  }

  function ValueUnit(value: nat): Word
    requires value < TOP
  {
    TOP + value
  }

  /** The offsets a unit can hold: either the bits below 8 or the bits from 21 to 28 are
      clear (`UPPER_MASK` and `LOWER_MASK` of the builder). */
  predicate Encodable(offset: nat) {
    offset % 256 == 0 || offset / 0x20_0000 % 256 == 0
  }

  /** `set_offset` for an offset below 2^29, beyond which the source throws. */
  function WithOffset(u: Word, offset: nat): (r: Word)
    requires Encodable(offset) && offset < MAX_OFFSET
  {
    var kept := u / TOP * TOP + u % 512;
    if offset < 0x20_0000 then kept + offset * 1024
    else kept + offset * 4 + 512
  }

  // The fields of a word, and the word they make up.

  datatype Fields = Fields(top: nat, body: nat, scale: nat, leaf: nat, byte: nat) {
    predicate Fit() {
      top < 2 && body < 0x20_0000 && scale < 2 && leaf < 2 && byte < 256
    }

    function Word(): nat {
      top * 0x8000_0000 + body * 1024 + scale * 512 + leaf * 256 + byte
    }
  }

  function Split(u: Word): (f: Fields)
    ensures f.Fit()
  {
    Fields(u / TOP, u / 1024 % 0x20_0000, u / 512 % 2, u / 256 % 2, u % 256)
  }

  lemma SplitWord(u: Word)
    ensures Split(u).Word() == u
  {
    var a := u / 256;
    var b := a / 2;
    var c := b / 2;
    assert u == 256 * a + u % 256;
    assert u == 512 * b + 256 * (a % 2) + u % 256;
    assert u == 1024 * c + 512 * (b % 2) + 256 * (a % 2) + u % 256;
    assert b == u / 512 && c == u / 1024;
    assert c == 0x20_0000 * (c / 0x20_0000) + c % 0x20_0000;
    assert c / 0x20_0000 == u / TOP;
  }

  lemma WordSplit(f: Fields)
    requires f.Fit()
    ensures f.Word() < 0x1_0000_0000 && Split(f.Word()) == f
  {
    var u := f.Word();
    Halves(u, f);
    WholeParts(f.top, f.body);
    assert u / TOP == u / 1024 / 0x20_0000;
  }

  lemma Halves(u: nat, f: Fields)
    requires f.Fit() && u == f.Word()
    ensures u % 256 == f.byte && u / 256 % 2 == f.leaf && u / 512 % 2 == f.scale
      && u / 1024 == f.top * 0x20_0000 + f.body
  {
    var c := f.top * 0x20_0000 + f.body;
    var b := 2 * c + f.scale;
    var a := 2 * b + f.leaf;
    assert u == 256 * a + f.byte;
    assert u / 256 == a;
    assert a / 2 == b && u / 512 == a / 2;
    assert b / 2 == c && u / 1024 == b / 2;
  }

  lemma WholeParts(q: nat, r: nat)
    requires r < 0x20_0000
    ensures (q * 0x20_0000 + r) / 0x20_0000 == q && (q * 0x20_0000 + r) % 0x20_0000 == r
  {
  }

  /** What the readers see, in terms of the fields. */
  lemma ReadFields(u: Word)
    ensures var f := Split(u);
      && Label(u) == f.top * TOP + f.byte
      && HasLeaf(u) == (f.leaf == 1)
      && Offset(u) == (f.top * 0x20_0000 + f.body) * (if f.scale == 1 then 256 else 1)
  {
    assert u / 1024 == u / TOP * 0x20_0000 + u / 1024 % 0x20_0000;
  }

  // Setting one field and reading all of them.

  lemma LargeOffset(offset: nat)
    requires Encodable(offset) && 0x20_0000 <= offset < MAX_OFFSET
    ensures offset == offset / 256 * 256 && offset / 256 < 0x20_0000
  {
    assert 0 < offset / 0x20_0000 < 256;
  }

  lemma LowDigits(u: Word)
    ensures u % 512 == u / 256 % 2 * 256 + u % 256
  {
    var a := u / 256;
    assert u == 512 * (a / 2) + (a % 2 * 256 + u % 256);
    assert u / 512 == a / 2;
  }

  lemma OffsetWord(u: Word, offset: nat, f: Fields, g: Fields)
    requires Encodable(offset) && offset < MAX_OFFSET && f == Split(u)
    requires g == if offset < 0x20_0000 then f.(body := offset, scale := 0) else f.(body := offset / 256, scale := 1)
    ensures g.Fit() && g.Word() == WithOffset(u, offset)
  {
    hide Encodable;
    LowDigits(u);
    if offset >= 0x20_0000 { LargeOffset(offset); }
  }

  lemma OffsetOfWord(u: Word, offset: nat)
    requires Encodable(offset) && offset < MAX_OFFSET && Split(u).top == 0
    requires var f := Split(u);
      if offset < 0x20_0000 then f.body == offset && f.scale == 0 else f.body == offset / 256 && f.scale == 1
    ensures Offset(u) == offset
  {
    hide Encodable, Split, Offset;
    ReadFields(u);
    if offset >= 0x20_0000 { LargeOffset(offset); }
  }

  lemma OffsetRoundTrip(u: Word, offset: nat)
    requires Encodable(offset) && offset < MAX_OFFSET
    ensures u < TOP ==> Offset(WithOffset(u, offset)) == offset && WithOffset(u, offset) < TOP
    ensures Label(WithOffset(u, offset)) == Label(u)
    ensures HasLeaf(WithOffset(u, offset)) == HasLeaf(u)
  {
    hide Label, HasLeaf, Offset, WithOffset, Encodable, Split;
    var f := Split(u);
    var g := if offset < 0x20_0000 then f.(body := offset, scale := 0)
             else f.(body := offset / 256, scale := 1);
    OffsetWord(u, offset, f, g);
    WordSplit(g);
    ReadFields(u);
    ReadFields(g.Word());
    TopField(u);
    TopField(g.Word());
    if u < TOP { OffsetOfWord(g.Word(), offset); }
  }

  lemma TopField(u: Word)
    ensures Split(u).top == 0 <==> u < TOP
  {
  }

  lemma LabelRoundTrip(u: Word, c: nat)
    requires c < 256
    ensures u < TOP ==> WithLabel(u, c) < TOP && Label(WithLabel(u, c)) == c
    ensures HasLeaf(WithLabel(u, c)) == HasLeaf(u)
    ensures Offset(WithLabel(u, c)) == Offset(u)
  {
    var f := Split(u);
    var g := f.(byte := c);
    SplitWord(u);
    assert g.Word() == WithLabel(u, c);
    WordSplit(g);
    ReadFields(u);
    ReadFields(g.Word());
  }

  lemma LeafRoundTrip(u: Word)
    ensures HasLeaf(WithLeaf(u))
    ensures u < TOP ==> WithLeaf(u) < TOP
    ensures Label(WithLeaf(u)) == Label(u)
    ensures Offset(WithLeaf(u)) == Offset(u)
  {
    var f := Split(u);
    var g := f.(leaf := 1);
    SplitWord(u);
    assert g.Word() == WithLeaf(u);
    WordSplit(g);
    ReadFields(u);
    ReadFields(g.Word());
  }

  /** A value reads back, and its unit matches no label. */
  lemma ValueRoundTrip(value: nat)
    requires value < TOP
    ensures Value(ValueUnit(value)) == value
    ensures Label(ValueUnit(value)) >= 256
  {
  }

  /** The unit of a fresh slot. */
  lemma FreshUnit()
    ensures Label(0) == 0 && !HasLeaf(0) && Offset(0) == 0
  {
  }
}
