/** The vector of units as the builder keeps it and as it is saved: the bytes of the tail are
    packed into words behind the trie.  The position of the next byte is a 32-bit number. */
module CloneMemory {
  import opened CloneUnit

  const MAX_BYTES: nat := 0x1_0000_0000

  /** The `i`-th byte of a word, the lowest first. */
  function ByteOf(w: Word, i: nat): (b: nat)
    requires i < 4
    ensures b < 256
  {
    (if i == 0 then w else if i == 1 then w / 0x100 else if i == 2 then w / 0x1_0000 else w / 0x100_0000) % 256
  }

  function WithByte(w: Word, i: nat, b: nat): Word
    requires i < 4 && b < 256
  {
    if i == 0 then w / 0x100 * 0x100 + b
    else if i == 1 then w / 0x1_0000 * 0x1_0000 + b * 0x100 + w % 0x100
    else if i == 2 then w / 0x100_0000 * 0x100_0000 + b * 0x1_0000 + w % 0x1_0000
    else b * 0x100_0000 + w % 0x100_0000
  }

  function FromBytes(b0: nat, b1: nat, b2: nat, b3: nat): Word
    requires b0 < 256 && b1 < 256 && b2 < 256 && b3 < 256
  {
    b0 + 0x100 * b1 + 0x1_0000 * b2 + 0x100_0000 * b3
  }

  lemma BytesOf(b0: nat, b1: nat, b2: nat, b3: nat)
    requires b0 < 256 && b1 < 256 && b2 < 256 && b3 < 256
    ensures var w := FromBytes(b0, b1, b2, b3);
      ByteOf(w, 0) == b0 && ByteOf(w, 1) == b1 && ByteOf(w, 2) == b2 && ByteOf(w, 3) == b3
  {
    var w := FromBytes(b0, b1, b2, b3);
    var h := b1 + 0x100 * b2 + 0x1_0000 * b3;
    assert w == 0x100 * h + b0 && w / 0x100 == h;
    assert h / 0x100 == b2 + 0x100 * b3 == w / 0x1_0000;
    assert h / 0x1_0000 == b3 == w / 0x100_0000;
  }

  /** A word consists of its bytes. */
  lemma OfBytes(w: Word)
    ensures w == FromBytes(ByteOf(w, 0), ByteOf(w, 1), ByteOf(w, 2), ByteOf(w, 3))
    ensures w % 0x1_0000 == ByteOf(w, 0) + 0x100 * ByteOf(w, 1)
    ensures w % 0x100_0000 == ByteOf(w, 0) + 0x100 * ByteOf(w, 1) + 0x1_0000 * ByteOf(w, 2)
    ensures w / 0x100_0000 == ByteOf(w, 3)
    ensures w / 0x1_0000 == ByteOf(w, 2) + 0x100 * ByteOf(w, 3)
    ensures w / 0x100 == ByteOf(w, 1) + 0x100 * ByteOf(w, 2) + 0x1_0000 * ByteOf(w, 3)
  {
    var a := w / 0x100;
    var b := a / 0x100;
    var c := b / 0x100;
    assert b == w / 0x1_0000 && c == w / 0x100_0000 && c < 256;
    assert w == 0x100 * a + w % 0x100 && a == 0x100 * b + a % 0x100 && b == 0x100 * c + b % 0x100;
  }

  /** Writing one byte of a word leaves the other three. */
  lemma ByteRoundTrip(w: Word, i: nat, b: nat, j: nat)
    requires i < 4 && b < 256 && j < 4
    ensures ByteOf(WithByte(w, i, b), j) == if j == i then b else ByteOf(w, j)
  {
    hide ByteOf;
    OfBytes(w);
    var b0, b1, b2, b3 := ByteOf(w, 0), ByteOf(w, 1), ByteOf(w, 2), ByteOf(w, 3);
    assert w % 0x100 == b0;
    if i == 0 {
      BytesOf(b, b1, b2, b3);
    } else if i == 1 {
      BytesOf(b0, b, b2, b3);
    } else if i == 2 {
      BytesOf(b0, b1, b, b3);
    } else {
      BytesOf(b0, b1, b2, b);
    }
  }

  /** The byte at address `p` of the units. */
  function StoredByte(units: seq<Word>, p: nat): nat
    requires p < 4 * |units|
  {
    ByteOf(units[p / 4], p % 4)
  }

  /** The memory holds the trie and, right behind it, the tail. */
  ghost predicate Holds(memory: seq<Word>, units: seq<Word>, tail: seq<nat>) {
    && units <= memory
    && 4 * |units| + |tail| <= 4 * |memory|
    && forall i :: 0 <= i < |tail| ==> StoredByte(memory, 4 * |units| + i) == tail[i]
  }

  /** The bytes behind the first `n` units. */
  function TailOf(memory: seq<Word>, n: nat): seq<nat>
    requires n <= |memory|
  {
    seq<nat>(4 * (|memory| - n), i requires 0 <= i < 4 * (|memory| - n) => StoredByte(memory, 4 * n + i))
  }

  /** The size unit tells where the tail begins. */
  lemma FoundAgain(memory: seq<Word>, units: seq<Word>, tail: seq<nat>)
    requires Holds(memory, units, tail) && |units| > 1 && Offset(units[1]) == |units|
    ensures Offset(memory[1]) == |units| && memory[..|units|] == units && tail <= TailOf(memory, |units|)
  {
    hide StoredByte, Offset;
  }

  class UnitVector {
    var units: seq<Word>
    var tailIndex: nat

    constructor (units: seq<Word>)
      ensures this.units == units
    {
      this.units, tailIndex := units, 0;
    }

    /** `append_byte` */
    method AppendByte(byte: nat)
      requires byte < 256 && tailIndex <= 4 * |units| && tailIndex < MAX_BYTES
      modifies this
      ensures tailIndex == (old(tailIndex) + 1) % MAX_BYTES
      ensures |units| == |old(units)| + (if old(tailIndex) == 4 * |old(units)| then 1 else 0)
      ensures forall q :: 0 <= q < |old(units)| && q != old(tailIndex) / 4 ==> units[q] == old(units[q])
      ensures StoredByte(units, old(tailIndex)) == byte
      ensures forall p: nat ::
        p < 4 * |old(units)| && p != old(tailIndex)
        ==> StoredByte(units, p) == old(StoredByte(units, p))
    {
      hide ByteOf, WithByte;
      ghost var units0 := units;
      if tailIndex >= 4 * |units| {
        units := units + [0];
      }
      var q, i := tailIndex / 4, tailIndex % 4;
      ghost var w := units[q];
      units := units[q := WithByte(units[q], i, byte)];
      forall j: nat | j < 4 ensures ByteOf(units[q], j) == if j == i then byte else ByteOf(w, j) {
        ByteRoundTrip(w, i, byte, j);
      }
      tailIndex := (tailIndex + 1) % MAX_BYTES;
    }

    /** All bytes of the tail, one after the other.  They are in their places iff they end below
        4 GiB; otherwise the position starts again at 0 and the vector stays too short. */
    method AppendTail(tail: seq<nat>)
      requires 4 * |units| < MAX_BYTES && forall i :: 0 <= i < |tail| ==> tail[i] < 256
      modifies this
      ensures Holds(units, old(units), tail) <==> 4 * |old(units)| + |tail| <= MAX_BYTES
      ensures 4 * |units| <= MAX_BYTES && 4 * |units| < 4 * |old(units)| + |tail| + 4
    {
      hide StoredByte;
      tailIndex := 4 * |units|;
      var i := 0;
      while i < |tail|
        invariant 0 <= i <= |tail| && tailIndex == (4 * |old(units)| + i) % MAX_BYTES <= 4 * |units|
        invariant 4 * |units| <= MAX_BYTES && 4 * |units| < 4 * |old(units)| + i + 4
        invariant 4 * |old(units)| + i <= MAX_BYTES ==> Holds(units, old(units), tail[..i])
        invariant 4 * |old(units)| + i > MAX_BYTES ==> 4 * |units| == MAX_BYTES
      {
        AppendByte(tail[i]);
        i := i + 1;
      }
      assert tail[..i] == tail;
    }
  }
}
