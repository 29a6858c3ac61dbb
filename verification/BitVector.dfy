/** Bit vector with rank: how many bits are set up to a position. */
module BitVector {
  import opened Bits

  /** Bitwise and, digit by digit. */
  function And(a: nat, b: nat): nat
    decreases a
  {
    if a == 0 || b == 0 then 0 else 2 * And(a / 2, b / 2) + (if a % 2 == 1 && b % 2 == 1 then 1 else 0)
  }

  /** `u | (1 << k)` */
  function WithBit(u: nat, k: nat): nat {
    if k == 0 then u - u % 2 + 1 else 2 * WithBit(u / 2, k - 1) + u % 2
  }

  /** `u & ~(1 << k)` */
  function WithoutBit(u: nat, k: nat): nat {
    if k == 0 then u - u % 2 else 2 * WithoutBit(u / 2, k - 1) + u % 2
  }

  predicate Bit(u: nat, k: nat) {
    High(u, k) % 2 == 1
  }

  /** The number of ones among the `n` lowest digits. */
  function Ones(u: nat, n: nat): nat {
    if n == 0 then 0 else u % 2 + Ones(u / 2, n - 1)
  }

  /** The branch-free population count of a 32-bit word. */
  function PopCount(u: nat): nat {
    var u1 := And(u, 0xAAAA_AAAA) / 2 + And(u, 0x5555_5555);
    var u2 := And(u1, 0xCCCC_CCCC) / 4 + And(u1, 0x3333_3333);
    var u3 := And(u2 / 16 + u2, 0x0F0F_0F0F);
    var u4 := u3 + u3 / 256;
    var u5 := u4 + u4 / 65536;
    And(u5, 0xFF)
  }

  // The population count, field by field.

  lemma AndDigits(a: nat, b: nat)
    ensures And(a, b) / 2 == And(a / 2, b / 2)
    ensures And(a, b) % 2 == if a % 2 == 1 && b % 2 == 1 then 1 else 0
  {
  }

  /** Masks are built digit by digit: what a mask of 0 or 1 in the lowest place keeps. */
  lemma AndDigit(a: nat, m: nat, d: nat)
    requires d < 2
    ensures And(a, 2 * m + d) == 2 * And(a / 2, m) + (if d == 1 then a % 2 else 0)
  {
    hide And;
    assert (2 * m + d) / 2 == m && (2 * m + d) % 2 == d;
    AndDigits(a, 2 * m + d);
  }

  function Mask1(n: nat): nat { if n == 0 then 0 else 2 * (2 * Mask1(n - 1)) + 1 }

  /** Each pair of digits replaced by its number of ones. */
  function Pairs(u: nat, n: nat): nat {
    if n == 0 then 0 else 4 * Pairs(u / 2 / 2, n - 1) + (u % 2 + u / 2 % 2)
  }

  lemma {:induction false} PairStep(u: nat, n: nat) returns (h: nat)
    ensures And(u, 2 * Mask1(n)) == 2 * h && h + And(u, Mask1(n)) == Pairs(u, n)
  {
    if n != 0 {
      hide And, Pairs, Mask1;
      var h0 := PairStep(u / 2 / 2, n - 1);
      PairMasks(u, n);
      PairsUnfold(u, n);
      h := 4 * h0 + u / 2 % 2;
    } else {
      AndZero(u);
      h := 0;
    }
  }

  /** What the two masks keep of the lowest two digits. */
  lemma PairMasks(u: nat, n: nat)
    requires n > 0
    ensures And(u, Mask1(n)) == 4 * And(u / 2 / 2, Mask1(n - 1)) + u % 2
    ensures And(u, 2 * Mask1(n)) == 2 * (2 * And(u / 2 / 2, 2 * Mask1(n - 1)) + u / 2 % 2)
  {
    hide And;
    var m := Mask1(n - 1);
    AndDigit(u, 2 * m, 1);
    AndDigit(u / 2, m, 0);
    AndDigit(u, 2 * (2 * m) + 1, 0);
    AndDigit(u / 2, 2 * m, 1);
  }

  lemma PairsUnfold(u: nat, n: nat)
    requires n > 0
    ensures Pairs(u, n) == 4 * Pairs(u / 2 / 2, n - 1) + (u % 2 + u / 2 % 2)
  {
  }

  lemma AndZero(x: nat)
    ensures And(x, 0) == 0
  {
  }

  function Mask2(n: nat): nat { if n == 0 then 0 else 2 * (2 * (2 * (2 * Mask2(n - 1))) + 1) + 1 }

  function Sixteenth(x: nat): nat {
    x / 2 / 2 / 2 / 2
  }

  /** Each group of four digits replaced by its number of ones. */
  function Nibbles(u: nat, n: nat): nat {
    if n == 0 then 0 else 16 * Nibbles(Sixteenth(u), n - 1) + Ones(u, 4)
  }

  /** A number in base 4. */
  lemma QuarterDigits(q: nat, r: nat)
    requires r < 4
    ensures (4 * q + r) / 2 / 2 == q && (4 * q + r) % 2 + 2 * ((4 * q + r) / 2 % 2) == r
  {
  }

  lemma PairsOfNibble(u: nat, n: nat)
    requires n > 0
    ensures Pairs(u, 2 * n)
      == 4 * (4 * Pairs(Sixteenth(u), 2 * n - 2) + (u / 2 / 2 % 2 + u / 2 / 2 / 2 % 2)) + (u % 2 + u / 2 % 2)
    ensures Ones(u, 4) == u % 2 + u / 2 % 2 + (u / 2 / 2 % 2 + u / 2 / 2 / 2 % 2)
  {
    PairsUnfold(u, 2 * n);
    PairsUnfold(u / 2 / 2, 2 * n - 1);
    assert Ones(u / 2 / 2 / 2, 1) == u / 2 / 2 / 2 % 2;
    assert Ones(u / 2 / 2, 2) == u / 2 / 2 % 2 + u / 2 / 2 / 2 % 2;
  }

  /** What the masks of two ones and two zeros keep of a number in base 4. */
  lemma AndQuarters(v: nat, m: nat)
    ensures And(v, 2 * (2 * (2 * (2 * m)) + 1) + 1)
         == 4 * (4 * And(v / 2 / 2 / 2 / 2, m)) + (v % 2 + 2 * (v / 2 % 2))
    ensures And(v, 2 * (2 * (2 * (2 * (2 * (2 * m)) + 1) + 1)))
         == 4 * (4 * And(v / 2 / 2 / 2 / 2, 2 * (2 * m)) + (v / 2 / 2 % 2 + 2 * (v / 2 / 2 / 2 % 2)))
  {
    hide And;
    var v1 := v / 2; var v2 := v1 / 2; var v3 := v2 / 2;
    AndDigit(v3, m, 0);
    AndDigit(v2, 2 * m, 0);
    AndDigit(v1, 2 * (2 * m), 1);
    AndDigit(v, 2 * (2 * (2 * m)) + 1, 1);
    var k := 2 * (2 * m);
    AndDigit(v3, k, 1);
    AndDigit(v2, 2 * k + 1, 1);
    AndDigit(v1, 2 * (2 * k + 1) + 1, 0);
    AndDigit(v, 2 * (2 * (2 * k + 1) + 1), 0);
  }

  function PairCount(u: nat): nat {
    u % 2 + u / 2 % 2
  }

  /** What the two masks keep of the lowest two pair counts. */
  lemma NibbleMasks(u: nat, n: nat)
    requires n > 0
    ensures var v, w := Pairs(u, 2 * n), Pairs(Sixteenth(u), 2 * n - 2);
      && And(v, Mask2(n)) == 16 * And(w, Mask2(n - 1)) + PairCount(u)
      && And(v, 2 * (2 * Mask2(n))) == 4 * (4 * And(w, 2 * (2 * Mask2(n - 1))) + PairCount(u / 2 / 2))
      && Ones(u, 4) == PairCount(u) + PairCount(u / 2 / 2)
  {
    hide And, Pairs, Ones, Sixteenth;
    PairsOfNibble(u, n);
    var v, w := Pairs(u, 2 * n), Pairs(Sixteenth(u), 2 * n - 2);
    QuarterDigits(4 * w + PairCount(u / 2 / 2), PairCount(u));
    QuarterDigits(w, PairCount(u / 2 / 2));
    AndQuarters(v, Mask2(n - 1));
  }

  lemma {:induction false} NibbleStep(u: nat, n: nat) returns (h: nat)
    ensures var v := Pairs(u, 2 * n);
      And(v, 2 * (2 * Mask2(n))) == 4 * h && h + And(v, Mask2(n)) == Nibbles(u, n)
  {
    if n != 0 {
      hide And, Pairs, Ones, Nibbles, Sixteenth, Mask2;
      var h0 := NibbleStep(Sixteenth(u), n - 1);
      NibblesUnfold(u, n);
      NibbleMasks(u, n);
      h := 16 * h0 + PairCount(u / 2 / 2);
    } else {
      AndZero(Pairs(u, 0));
      h := 0;
    }
  }

  lemma NibblesUnfold(u: nat, n: nat)
    requires n > 0
    ensures Nibbles(u, n) == 16 * Nibbles(Sixteenth(u), n - 1) + Ones(u, 4)
  {
  }

  function Mask4(n: nat): nat { if n == 0 then 0 else 2 * (2 * (2 * (2 * (16 * Mask4(n - 1)) + 1) + 1) + 1) + 1 }

  /** Each group of eight digits replaced by its number of ones. */
  function Octets(u: nat, n: nat): nat {
    if n == 0 then 0 else 256 * Octets(Sixteenth(Sixteenth(u)), n - 1) + Ones(u, 8)
  }

  lemma {:induction false} OnesSplit(u: nat, m: nat, n: nat)
    ensures Ones(u, m + n) == Ones(u, m) + Ones(High(u, m), n)
    decreases m
  {
    if m != 0 { OnesSplit(u / 2, m - 1, n); }
  }

  lemma {:induction false} OnesBound(u: nat, n: nat)
    ensures Ones(u, n) <= n
  {
    if n != 0 { OnesBound(u / 2, n - 1); }
  }

  lemma AndSixteen(w: nat, m: nat)
    ensures And(w, 16 * m) == 16 * And(Sixteenth(w), m)
    ensures And(w, 2 * (2 * (2 * (2 * m + 1) + 1) + 1) + 1) == 16 * And(Sixteenth(w), m) + w % 16
  {
    hide And;
    var w1 := w / 2; var w2 := w1 / 2; var w3 := w2 / 2;
    AndDigit(w3, m, 0);
    AndDigit(w2, 2 * m, 0);
    AndDigit(w1, 4 * m, 0);
    AndDigit(w, 8 * m, 0);
    AndDigit(w3, m, 1);
    AndDigit(w2, 2 * m + 1, 1);
    AndDigit(w1, 2 * (2 * m + 1) + 1, 1);
    AndDigit(w, 2 * (2 * (2 * m + 1) + 1) + 1, 1);
    FourDigits(w);
  }

  lemma FourDigits(w: nat)
    ensures w % 16 == w % 2 + 2 * (w / 2 % 2) + 4 * (w / 2 / 2 % 2) + 8 * (w / 2 / 2 / 2 % 2)
    ensures Sixteenth(w) == w / 16
  {
    var w1 := w / 2; var w2 := w1 / 2; var w3 := w2 / 2;
    assert w3 == w / 8 && w2 == w / 4;
    assert w == 8 * w3 + 4 * (w2 % 2) + 2 * (w1 % 2) + w % 2;
    assert w3 == 2 * (w3 / 2) + w3 % 2;
  }

  /** Each nibble added to its right neighbour. */
  function Fold(v: nat): nat {
    v / 16 + v
  }

  lemma OctetMask(u: nat, n: nat)
    requires n > 0
    ensures var v, rest := Nibbles(u, 2 * n), Nibbles(Sixteenth(Sixteenth(u)), 2 * n - 2);
      And(Fold(v), Mask4(n)) == 256 * And(Fold(rest), Mask4(n - 1)) + Ones(u, 8)
  {
    hide And, Ones, Nibbles, Sixteenth;
    var v := Nibbles(u, 2 * n);
    var rest := Nibbles(Sixteenth(Sixteenth(u)), 2 * n - 2);
    NibblesOfOctet(u, n);
    OctetSum(Ones(u, 4), Ones(Sixteenth(u), 4), rest);
    AndSixteen(v / 16 + v, 16 * Mask4(n - 1));
    AndSixteen(Sixteenth(v / 16 + v), Mask4(n - 1));
  }

  lemma {:induction false} OctetStep(u: nat, n: nat)
    ensures And(Fold(Nibbles(u, 2 * n)), Mask4(n)) == Octets(u, n)
    decreases n
  {
    hide And, Ones, Nibbles, Sixteenth, Octets, Mask4, Fold;
    if n != 0 {
      OctetStep(Sixteenth(Sixteenth(u)), n - 1);
      OctetsUnfoldOne(u, n);
      OctetMask(u, n);
    } else {
      OctetNone(u);
    }
  }

  lemma OctetNone(u: nat)
    ensures And(Fold(Nibbles(u, 0)), Mask4(0)) == Octets(u, 0)
  {
    AndZero(Fold(Nibbles(u, 0)));
  }

  lemma OctetsUnfoldOne(u: nat, n: nat)
    requires n > 0
    ensures Octets(u, n) == 256 * Octets(Sixteenth(Sixteenth(u)), n - 1) + Ones(u, 8)
  {
  }

  lemma NibblesOfOctet(u: nat, n: nat)
    requires n > 0
    ensures Nibbles(u, 2 * n)
      == Ones(u, 4) + 16 * (Ones(Sixteenth(u), 4) + 16 * Nibbles(Sixteenth(Sixteenth(u)), 2 * n - 2))
    ensures Ones(u, 8) == Ones(u, 4) + Ones(Sixteenth(u), 4)
    ensures Ones(u, 4) <= 4 && Ones(Sixteenth(u), 4) <= 4
    ensures Nibbles(Sixteenth(Sixteenth(u)), 2 * n - 2) % 16 <= 4
  {
    hide Ones, Nibbles, Sixteenth;
    var w := Sixteenth(Sixteenth(u));
    NibblesUnfold(u, 2 * n);
    NibblesUnfold(Sixteenth(u), 2 * n - 1);
    OnesSplit(u, 4, 4);
    HighAt4(u);
    OnesBound(u, 4);
    OnesBound(Sixteenth(u), 4);
    FirstNibble(w, 2 * n - 2);
  }

  lemma FirstNibble(w: nat, n: nat)
    ensures Nibbles(w, n) % 16 <= 4
  {
    hide Ones;
    if n > 0 {
      OnesBound(w, 4);
      SixteenParts(Ones(w, 4), Nibbles(Sixteenth(w), n - 1));
    }
  }

  lemma HighAt4(x: nat)
    ensures High(x, 4) == Sixteenth(x) == x / 16
  {
    SplitAt4(x);
    FourDigits(x);
  }

  /** Adding each nibble to its right neighbour never carries. */
  lemma OctetSum(lo: nat, hi: nat, rest: nat)
    requires lo <= 4 && hi <= 4 && rest % 16 <= 4
    ensures var v := lo + 16 * (hi + 16 * rest);
      Sixteenth(Sixteenth(v / 16 + v)) == rest / 16 + rest && (v / 16 + v) % 16 == lo + hi
  {
    hide Sixteenth;
    var v := lo + 16 * (hi + 16 * rest);
    assert v / 16 == hi + 16 * rest;
    var q, r := rest / 16, rest % 16;
    var w := v / 16 + v;
    assert w == (lo + hi) + 16 * ((hi + r) + 16 * (q + rest));
    SixteenParts(lo + hi, (hi + r) + 16 * (q + rest));
    SixteenParts(hi + r, q + rest);
  }

  lemma SixteenParts(r: nat, q: nat)
    requires r < 16
    ensures Sixteenth(r + 16 * q) == q && (r + 16 * q) % 16 == r
  {
    hide Sixteenth;
    FourDigits(r + 16 * q);
  }

  lemma ByteParts(r: nat, q: nat)
    requires r < 256
    ensures (r + 256 * q) / 256 == q && (r + 256 * q) % 256 == r
  {
  }

  lemma FinalSum(b0: nat, b1: nat, b2: nat, b3: nat)
    requires b0 <= 8 && b1 <= 8 && b2 <= 8 && b3 <= 8
    ensures var u3 := b0 + 256 * (b1 + 256 * (b2 + 256 * b3));
      var u4 := u3 + u3 / 256;
      (u4 + u4 / 65536) % 256 == b0 + b1 + b2 + b3
  {
    var u3 := b0 + 256 * (b1 + 256 * (b2 + 256 * b3));
    ByteParts(b0, b1 + 256 * (b2 + 256 * b3));
    var u4 := u3 + u3 / 256;
    assert u4 == (b0 + b1) + 256 * ((b1 + b2) + 256 * ((b2 + b3) + 256 * b3));
    ByteParts(b0 + b1, (b1 + b2) + 256 * ((b2 + b3) + 256 * b3));
    ByteParts(b1 + b2, (b2 + b3) + 256 * b3);
    assert u4 / 256 / 256 == u4 / 65536;
    assert u4 / 65536 == (b2 + b3) + 256 * b3;
    ByteParts(b0 + b1 + b2 + b3, (b1 + b2) + b3 + 256 * ((b2 + b3) + 256 * b3));
  }

  lemma OctetsUnfold(u: nat)
    ensures var u1 := Sixteenth(Sixteenth(u)); var u2 := Sixteenth(Sixteenth(u1)); var u3 := Sixteenth(Sixteenth(u2));
      && Octets(u, 4) == Ones(u, 8) + 256 * (Ones(u1, 8) + 256 * (Ones(u2, 8) + 256 * Ones(u3, 8)))
      && Ones(u, 32) == Ones(u, 8) + Ones(u1, 8) + Ones(u2, 8) + Ones(u3, 8)
      && Ones(u, 8) <= 8 && Ones(u1, 8) <= 8 && Ones(u2, 8) <= 8 && Ones(u3, 8) <= 8
  {
    hide Ones, Octets, Sixteenth;
    var u1 := Sixteenth(Sixteenth(u)); var u2 := Sixteenth(Sixteenth(u1)); var u3 := Sixteenth(Sixteenth(u2));
    var u4 := Sixteenth(Sixteenth(u3));
    OctetsUnfoldOne(u, 4);
    OctetsUnfoldOne(u1, 3);
    OctetsUnfoldOne(u2, 2);
    OctetsUnfoldOne(u3, 1);
    NoOctets(u4);
    OnesSplit(u, 8, 24);
    OnesSplit(u1, 8, 16);
    OnesSplit(u2, 8, 8);
    HighAt8(u);
    HighAt8(u1);
    HighAt8(u2);
    OnesBound(u, 8);
    OnesBound(u1, 8);
    OnesBound(u2, 8);
    OnesBound(u3, 8);
  }

  lemma NoOctets(u: nat)
    ensures Octets(u, 0) == 0
  {
  }

  lemma HighAt8(x: nat)
    ensures High(x, 8) == Sixteenth(Sixteenth(x))
  {
    hide Sixteenth, High;
    HighAt4(x);
    HighAt4(Sixteenth(x));
    HighHigh(x, 4, 4);
  }

  lemma {:induction false} HighHigh(x: nat, j: nat, k: nat)
    ensures High(x, j + k) == High(High(x, j), k)
    decreases j
  {
    if j != 0 { HighHigh(x / 2, j - 1, k); }
  }

  lemma LowByte(x: nat)
    ensures And(x, 0xFF) == x % 256
  {
    hide And, Sixteenth, High;
    var y := x % 256;
    AndSixteen(x, 15);
    AndSixteen(Sixteenth(x), 0);
    AndZero(Sixteenth(Sixteenth(x)));
    HighAt4(x);
    ByteDigits(x);
    assert y == 16 * (y / 16) + y % 16;
  }

  lemma Masks()
    ensures Mask1(16) == 0x5555_5555 && Mask2(8) == 0x3333_3333 && Mask4(4) == 0x0F0F_0F0F
  {
    assert Mask1(4) == 0x55;
    assert Mask1(8) == 0x5555;
    assert Mask1(12) == 0x55_5555;
    assert Mask2(4) == 0x3333;
  }

  /** The branch-free count is the number of ones. */
  lemma PopCountIsOnes(u: nat)
    ensures PopCount(u) == Ones(u, 32)
  {
    hide And, Ones, Pairs, Nibbles, Octets, Mask1, Mask2, Mask4, Sixteenth;
    Masks();
    var h1 := PairStep(u, 16);
    var h2 := NibbleStep(u, 8);
    OctetStep(u, 4);
    OctetsUnfold(u);
    var u1 := Sixteenth(Sixteenth(u)); var u2 := Sixteenth(Sixteenth(u1)); var u3 := Sixteenth(Sixteenth(u2));
    FinalSum(Ones(u, 8), Ones(u1, 8), Ones(u2, 8), Ones(u3, 8));
    var u4 := Octets(u, 4) + Octets(u, 4) / 256;
    LowByte(u4 + u4 / 65536);
  }

  // Bits of words.

  lemma {:induction false} BitAfterSet(u: nat, k: nat, j: nat)
    ensures Bit(WithBit(u, k), j) == (j == k || Bit(u, j))
    ensures Bit(WithoutBit(u, k), j) == (j != k && Bit(u, j))
    decreases k
  {
    if k == 0 {
      if j == 0 {
      } else {
        assert WithBit(u, 0) / 2 == u / 2 && WithoutBit(u, 0) / 2 == u / 2;
      }
    } else {
      assert WithBit(u, k) / 2 == WithBit(u / 2, k - 1) && WithoutBit(u, k) / 2 == WithoutBit(u / 2, k - 1);
      if j != 0 { BitAfterSet(u / 2, k - 1, j - 1); }
    }
  }

  lemma {:induction false} NoBits(k: nat)
    ensures !Bit(0, k)
  {
    if k != 0 { NoBits(k - 1); }
  }

  lemma {:induction false} OnesOfBit(u: nat, n: nat)
    ensures Ones(u, n + 1) == Ones(u, n) + (if Bit(u, n) then 1 else 0)
    decreases n
  {
    if n == 0 {
      assert Ones(u, 1) == u % 2 + Ones(u / 2, 0);
    } else {
      OnesOfBit(u / 2, n - 1);
    }
  }

  /** Masking a word leaves the ones of its lowest digits. */
  lemma {:induction false} OnesOfLow(u: nat, k: nat, n: nat)
    requires k <= n
    ensures Ones(Low(u, k), n) == Ones(u, k)
    decreases n
  {
    if k == 0 {
      OnesOfZero(n);
    } else {
      LowDigits(u, k);
      OnesOfLow(u / 2, k - 1, n - 1);
    }
  }

  lemma {:induction false} OnesOfZero(n: nat)
    ensures Ones(0, n) == 0
  {
    if n != 0 { OnesOfZero(n - 1); }
  }

  /** `~0U >> (31 - k)` keeps the digits 0 to `k`. */
  function UpTo(u: nat, k: nat): nat {
    And(u, FullMask(k + 1))
  }

  function FullMask(n: nat): nat { if n == 0 then 0 else 2 * FullMask(n - 1) + 1 }

  lemma {:induction false} AndFullMask(u: nat, n: nat)
    ensures And(u, FullMask(n)) == Low(u, n)
    decreases n
  {
    hide And;
    if n == 0 {
      AndZero(u);
    } else {
      AndDigit(u, FullMask(n - 1), 1);
      AndFullMask(u / 2, n - 1);
    }
  }

  const UNIT_SIZE: nat := 32

  /** The bit at position `id`. */
  predicate BitAt(units: seq<nat>, id: nat) {
    id / UNIT_SIZE < |units| && Bit(units[id / UNIT_SIZE], id % UNIT_SIZE)
  }

  /** The number of set bits before position `n`. */
  function Count(units: seq<nat>, n: nat): nat {
    if n == 0 then 0 else Count(units, n - 1) + (if BitAt(units, n - 1) then 1 else 0)
  }

  lemma {:induction false} CountInWord(units: seq<nat>, w: nat, k: nat)
    requires w < |units| && k <= UNIT_SIZE
    ensures Count(units, UNIT_SIZE * w + k) == Count(units, UNIT_SIZE * w) + Ones(units[w], k)
    decreases k
  {
    if k != 0 {
      CountInWord(units, w, k - 1);
      OnesOfBit(units[w], k - 1);
      WordAndDigit(w, k - 1);
    }
  }

  lemma WordAndDigit(w: nat, k: nat)
    requires k < UNIT_SIZE
    ensures (UNIT_SIZE * w + k) / UNIT_SIZE == w && (UNIT_SIZE * w + k) % UNIT_SIZE == k
  {
  }

  lemma {:induction false} CountGrows(units: seq<nat>, m: nat, n: nat)
    requires m <= n
    ensures Count(units, m) <= Count(units, n)
    ensures m < n && BitAt(units, m) ==> Count(units, m) < Count(units, n)
    decreases n
  {
    if m < n { CountGrows(units, m, n - 1); }
  }

  /** Ranks number the set positions from 1, without gaps and without repetition. */
  lemma RankInjective(units: seq<nat>, i: nat, j: nat, n: nat)
    requires i < n && j < n && BitAt(units, i) && BitAt(units, j) && i != j
    ensures 0 < Count(units, i + 1) <= Count(units, n)
    ensures Count(units, i + 1) != Count(units, j + 1)
  {
    CountGrows(units, i + 1, n);
    if i < j { CountGrows(units, i + 1, j); } else { CountGrows(units, j + 1, i); }
  }

  /** Every rank is taken. */
  lemma {:induction false} RankOnto(units: seq<nat>, n: nat, r: nat) returns (i: nat)
    requires r < Count(units, n)
    ensures i < n && BitAt(units, i) && Count(units, i + 1) == r + 1
    decreases n
  {
    if r < Count(units, n - 1) {
      i := RankOnto(units, n - 1, r);
    } else {
      i := n - 1;
    }
  }

  class BitVector {
    var units: seq<nat>
    var ranks: seq<nat>
    var numOnes: nat
    var size: nat

    ghost predicate Valid()
      reads this
    {
      && |units| == (size + UNIT_SIZE - 1) / UNIT_SIZE
      && forall id :: size <= id < UNIT_SIZE * |units| ==> !BitAt(units, id)
    }

    /** The rank index has been built for the current bits. */
    ghost predicate Ranked()
      reads this
    {
      Valid() && |ranks| == |units| && numOnes == Count(units, UNIT_SIZE * |units|)
      && forall w :: 0 <= w < |units| ==> ranks[w] == Count(units, UNIT_SIZE * w)
    }

    constructor ()
      ensures Valid() && size == 0 && units == []
    {
      units, ranks, numOnes, size := [], [], 0, 0;
    }

    method Clear()
      modifies this
      ensures Valid() && size == 0 && units == []
    {
      units, ranks, numOnes, size := [], [], 0, 0;
    }

    predicate Get(id: nat)
      reads this
    {
      BitAt(units, id)
    }

    /** `rank` on the stored index. */
    function Rank(id: nat): (r: nat)
      requires Ranked() && id < size
      reads this
      ensures r == Count(units, id + 1)
    {
      assert id / UNIT_SIZE < |units|;
      RankIsCount(units, id, ranks[id / UNIT_SIZE]);
      ranks[id / UNIT_SIZE] + PopCount(UpTo(units[id / UNIT_SIZE], id % UNIT_SIZE))
    }

    method Append()
      requires Valid()
      modifies this
      ensures Valid() && size == old(size) + 1 && !Get(old(size))
      ensures forall id :: 0 <= id < old(size) ==> Get(id) == old(Get(id))
    {
      ghost var old_units := units;
      if size % UNIT_SIZE == 0 {
        units := units + [0];
        forall id | 0 <= id ensures BitAt(units, id) == BitAt(old_units, id) {
          NoBits(id % UNIT_SIZE);
        }
      }
      size := size + 1;
    }

    method Set(id: nat, bit: bool)
      requires Valid() && id < size
      modifies `units
      ensures Valid() && forall j :: 0 <= j < size ==> Get(j) == if j == id then bit else old(Get(j))
    {
      ghost var old_units := units;
      var w, k := id / UNIT_SIZE, id % UNIT_SIZE;
      units := units[w := if bit then WithBit(units[w], k) else WithoutBit(units[w], k)];
      forall j: nat ensures BitAt(units, j) == if j == id then bit else BitAt(old_units, j) {
        BitAfterSet(old_units[w], k, j % UNIT_SIZE);
      }
    }

    method Build()
      requires Valid()
      modifies `ranks, `numOnes
      ensures Ranked()
    {
      ranks, numOnes := [], 0;
      var i := 0;
      while i < |units|
        invariant 0 <= i <= |units| && |ranks| == i && numOnes == Count(units, UNIT_SIZE * i)
        invariant forall w :: 0 <= w < i ==> ranks[w] == Count(units, UNIT_SIZE * w)
      {
        ranks := ranks + [numOnes];
        PopCountIsOnes(units[i]);
        CountInWord(units, i, UNIT_SIZE);
        numOnes := numOnes + PopCount(units[i]);
        i := i + 1;
      }
    }
  }

  lemma RankIsCount(units: seq<nat>, id: nat, before: nat)
    requires id / UNIT_SIZE < |units| && before == Count(units, UNIT_SIZE * (id / UNIT_SIZE))
    ensures before + PopCount(UpTo(units[id / UNIT_SIZE], id % UNIT_SIZE)) == Count(units, id + 1)
  {
    hide PopCount, Ones, And, Low, Count, FullMask;
    var w, k := id / UNIT_SIZE, id % UNIT_SIZE;
    assert id + 1 == UNIT_SIZE * w + (k + 1);
    AndFullMask(units[w], k + 1);
    PopCountIsOnes(Low(units[w], k + 1));
    OnesOfLow(units[w], k + 1, 32);
    CountInWord(units, w, k + 1);
  }

  /** The rank of a set bit is between 1 and the number of ones. */
  lemma RankInRange(v: BitVector, id: nat)
    requires v.Ranked() && id < v.size && v.Get(id)
    ensures 0 < v.Rank(id) <= v.numOnes
  {
    CountGrows(v.units, id + 1, UNIT_SIZE * |v.units|);
    CountGrows(v.units, id, id + 1);
  }
}
