/** Bitwise exclusive-or on natural numbers, and the laws the double arrays rest on.

    Array indices, offsets and labels are unsigned words combined with `^`.  They are
    modelled as naturals, and `Xor` is the exclusive-or of their binary digits. */
module Bits {

  /** Exclusive-or, digit by digit from the lowest one. */
  function Xor(a: nat, b: nat): (r: nat)
    decreases a
  {
    if a == 0 then b else 2 * Xor(a / 2, b / 2) + (a % 2 + b % 2) % 2
  }

  /** The lowest digit and the remaining digits of an exclusive-or. */
  lemma XorDigits(a: nat, b: nat)
    ensures Xor(a, b) / 2 == Xor(a / 2, b / 2)
    ensures Xor(a, b) % 2 == (a % 2 + b % 2) % 2
  {
  }

  /** Two numbers agree when their lowest digits and their halves do. */
  lemma SameDigits(x: nat, y: nat)
    requires x / 2 == y / 2 && x % 2 == y % 2
    ensures x == y
  {
  }

  lemma {:induction false} XorZero(a: nat)
    ensures Xor(a, 0) == a && Xor(0, a) == a
  {
    if a != 0 { XorZero(a / 2); }
  }

  lemma {:induction false} XorSelf(a: nat)
    ensures Xor(a, a) == 0
  {
    if a != 0 { XorSelf(a / 2); }
  }

  lemma {:induction false} XorComm(a: nat, b: nat)
    ensures Xor(a, b) == Xor(b, a)
    decreases a + b
  {
    if a + b != 0 {
      XorComm(a / 2, b / 2);
      XorDigits(a, b);
      XorDigits(b, a);
      SameDigits(Xor(a, b), Xor(b, a));
    }
  }

  lemma ParityAssoc(x: nat, y: nat, z: nat)
    requires x < 2 && y < 2 && z < 2
    ensures ((x + y) % 2 + z) % 2 == (x + (y + z) % 2) % 2
  {
  }

  lemma {:induction false} XorAssoc(a: nat, b: nat, c: nat)
    ensures Xor(Xor(a, b), c) == Xor(a, Xor(b, c))
    decreases a + b + c
  {
    hide Xor;
    if a == 0 {
      XorZero(b);
      XorZero(Xor(b, c));
    } else {
      XorAssoc(a / 2, b / 2, c / 2);
      XorDigits(a, b);
      XorDigits(Xor(a, b), c);
      XorDigits(b, c);
      XorDigits(a, Xor(b, c));
      ParityAssoc(a % 2, b % 2, c % 2);
      SameDigits(Xor(Xor(a, b), c), Xor(a, Xor(b, c)));
    }
  }

  /** Applying the same operand twice gives the original back. */
  lemma XorCancel(a: nat, b: nat)
    ensures Xor(a, Xor(a, b)) == b && Xor(Xor(a, b), b) == a && Xor(b, Xor(a, b)) == a
  {
    hide Xor;
    XorAssoc(a, a, b);
    XorSelf(a);
    XorZero(b);
    XorAssoc(a, b, b);
    XorSelf(b);
    XorZero(a);
    XorComm(b, Xor(a, b));
  }

  lemma XorInjective(a: nat, b: nat, c: nat)
    requires Xor(a, b) == Xor(a, c)
    ensures b == c
  {
    hide Xor;
    XorCancel(a, b);
    XorCancel(a, c);
  }

  /** `x` without its `k` lowest digits. */
  function High(x: nat, k: nat): (r: nat) {
    if k == 0 then x else High(x / 2, k - 1)
  }

  /** The `k` lowest digits of `x`. */
  function Low(x: nat, k: nat): (r: nat) {
    if k == 0 then 0 else 2 * Low(x / 2, k - 1) + x % 2
  }

  lemma LowDigits(x: nat, k: nat)
    requires k > 0
    ensures Low(x, k) / 2 == Low(x / 2, k - 1) && Low(x, k) % 2 == x % 2
  {
  }

  /** Exclusive-or acts separately on the high and the low digits of its operands. */
  lemma {:induction false} XorSplit(a: nat, b: nat, k: nat)
    ensures High(Xor(a, b), k) == Xor(High(a, k), High(b, k))
    ensures Low(Xor(a, b), k) == Xor(Low(a, k), Low(b, k))
    decreases k
  {
    if k == 0 {
      XorZero(0);
    } else {
      XorSplit(a / 2, b / 2, k - 1);
      XorSplitStep(a, b, k);
    }
  }

  lemma XorSplitStep(a: nat, b: nat, k: nat)
    requires k > 0
    requires High(Xor(a / 2, b / 2), k - 1) == Xor(High(a / 2, k - 1), High(b / 2, k - 1))
    requires Low(Xor(a / 2, b / 2), k - 1) == Xor(Low(a / 2, k - 1), Low(b / 2, k - 1))
    ensures High(Xor(a, b), k) == Xor(High(a, k), High(b, k))
    ensures Low(Xor(a, b), k) == Xor(Low(a, k), Low(b, k))
  {
    XorDigits(a, b);
    assert High(Xor(a, b), k) == Xor(High(a, k), High(b, k)) by {
      hide Xor;
    }
    hide Xor, Low;
    LowDigits(a, k);
    LowDigits(b, k);
    LowDigits(Xor(a, b), k);
    XorDigits(Low(a, k), Low(b, k));
    SameDigits(Low(Xor(a, b), k), Xor(Low(a, k), Low(b, k)));
  }

  lemma SplitAt4(x: nat)
    ensures High(x, 4) == x / 16 && Low(x, 4) == x % 16
  {
    var x1 := x / 2; var x2 := x1 / 2; var x3 := x2 / 2; var x4 := x3 / 2;
    assert High(x4, 0) == x4 && Low(x4, 0) == 0;
    assert High(x3, 1) == x4 && Low(x3, 1) == x3 % 2;
    assert High(x2, 2) == x4 && Low(x2, 2) == x2 % 4;
    assert High(x1, 3) == x4 && Low(x1, 3) == x1 % 8;
  }

  lemma XorNibbles(a: nat, b: nat)
    ensures Xor(a, b) / 16 == Xor(a / 16, b / 16)
    ensures Xor(a, b) % 16 == Xor(a % 16, b % 16)
  {
    hide Xor, High, Low;
    XorSplit(a, b, 4);
    SplitAt4(a);
    SplitAt4(b);
    SplitAt4(Xor(a, b));
  }

  lemma ByteDigits(x: nat)
    ensures x / 16 / 16 == x / 256
    ensures (x % 256) / 16 == (x / 16) % 16 && (x % 256) % 16 == x % 16
  {
  }

  /** The blocks of an exclusive-or, and the positions inside them. */
  lemma XorBlocks(a: nat, b: nat)
    ensures Xor(a, b) / 256 == Xor(a / 256, b / 256)
    ensures Xor(a, b) % 256 == Xor(a % 256, b % 256)
  {
    hide Xor;
    var x, y := Xor(a, b), Xor(a % 256, b % 256);
    ByteDigits(a);
    ByteDigits(b);
    ByteDigits(x);
    XorNibbles(a, b);
    XorNibbles(a / 16, b / 16);
    XorNibbles(a % 256, b % 256);
    assert y / 16 == (x / 16) % 16 && y % 16 == x % 16;
  }

  /** A label moves an index only within its block of 256. */
  lemma XorBlock(a: nat, c: nat)
    requires c < 256
    ensures Xor(a, c) / 256 == a / 256
    ensures Xor(a, c) % 256 == Xor(a % 256, c)
  {
    hide Xor;
    XorBlocks(a, c);
    XorZero(a / 256);
  }

  /** Two indices of one block differ by a label. */
  lemma XorSameBlock(a: nat, b: nat)
    requires a / 256 == b / 256
    ensures Xor(a, b) < 256
  {
    hide Xor;
    XorBlocks(a, b);
    XorSelf(a / 256);
    assert Xor(a, b) / 256 == 0;
  }

  /** An index and an offset with the same last byte differ by a multiple of the block size. */
  lemma XorSameByte(a: nat, b: nat)
    requires a % 256 == b % 256
    ensures Xor(a, b) % 256 == 0
  {
    hide Xor;
    XorBlocks(a, b);
    XorSelf(a % 256);
  }

  function Pow2(k: nat): (r: nat) {
    if k == 0 then 1 else 2 * Pow2(k - 1)
  }

  lemma {:induction false} XorBelow(a: nat, b: nat, k: nat)
    requires a < Pow2(k) && b < Pow2(k)
    ensures Xor(a, b) < Pow2(k)
  {
    if k > 0 {
      XorBelow(a / 2, b / 2, k - 1);
      XorDigits(a, b);
    }
  }

  /** The distance of two slots in a small array is small. */
  lemma XorSmall(a: nat, b: nat)
    ensures Xor(a, b) >= 0x2000_0000 ==> a >= 0x2000_0000 || b >= 0x2000_0000
  {
    hide Xor;
    assert Pow2(6) == 64 && Pow2(12) == 0x1000 && Pow2(18) == 0x4_0000;
    assert Pow2(24) == 0x100_0000 && Pow2(29) == 0x2000_0000;
    if a < 0x2000_0000 && b < 0x2000_0000 { XorBelow(a, b, 29); }
  }

  /** From base 1 only the bytes 0 and 1 lead to the slots 1 and 0. */
  lemma XorFromOne(c: nat)
    ensures var q := Xor(1, c);
      (q == 0 <==> c == 1) && (q == 1 <==> c == 0) && Xor(q, 1) == c
  {
    hide Xor;
    XorCancel(1, c);
    XorComm(1, Xor(1, c));
    XorZero(1);
    XorSelf(1);
    if Xor(1, c) == 0 { XorInjective(1, c, 1); }
    if Xor(1, c) == 1 { XorInjective(1, c, 0); }
  }

  /** From a larger number they do not, and one more step by 1 does not give the byte back. */
  lemma XorFromOther(x: nat, c: nat)
    requires x >= 2
    ensures var q := Xor(x, c); Xor(q, 1) != c && (q < 2 ==> c >= 2)
  {
    hide Xor;
    var q := Xor(x, c);
    XorZero(x);
    XorCancel(x, c);
    XorCancel(q, 1);
    XorComm(q, c);
    XorCancel(x, 1);
    XorSelf(1);
    XorZero(1);
  }
}
