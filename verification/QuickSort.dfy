/** In-place quicksort with an explicit stack.

    Elements are compared by `key`, so that different elements may compare equal. */
module QuickSort {

  /** `t` differs from `s` only in `l..r`, and there by the order of the elements. */
  ghost predicate Shuffled<T>(s: seq<T>, t: seq<T>, l: nat, r: nat)
    requires l <= r <= |s|
  {
    && |t| == |s| && t[..l] == s[..l] && t[r..] == s[r..]
    && multiset(t[l..r]) == multiset(s[l..r])
  }

  lemma ShuffledTwice<T>(s: seq<T>, t: seq<T>, u: seq<T>, l: nat, r: nat)
    requires l <= r <= |s| && Shuffled(s, t, l, r) && Shuffled(t, u, l, r)
    ensures Shuffled(s, u, l, r)
  {
  }

  /** A smaller range inside a larger one. */
  lemma ShuffledWider<T>(s: seq<T>, t: seq<T>, l: nat, r: nat, l': nat, r': nat)
    requires l' <= l <= r <= r' <= |s| && Shuffled(s, t, l, r)
    ensures Shuffled(s, t, l', r')
  {
    assert s[l'..r'] == s[l'..l] + s[l..r] + s[r..r'];
    assert t[l'..r'] == t[l'..l] + t[l..r] + t[r..r'];
    assert t[l'..l] == t[..l][l'..] == s[..l][l'..] == s[l'..l];
    assert t[r..r'] == t[r..][..r' - r] == s[r..][..r' - r] == s[r..r'];
    assert t[..l'] == t[..l][..l'] && s[..l'] == s[..l][..l'];
    assert t[r'..] == t[r..][r' - r..] && s[r'..] == s[r..][r' - r..];
  }

  lemma SwapShuffles<T>(s: seq<T>, i: nat, j: nat, l: nat, r: nat)
    requires l <= i < r && l <= j < r && r <= |s|
    ensures Shuffled(s, s[i := s[j]][j := s[i]], l, r)
  {
    var t := s[i := s[j]][j := s[i]];
    assert t[l..r] == s[l..r][i - l := s[j]][j - l := s[i]];
    assert multiset(s[l..r][i - l := s[j]][j - l := s[i]]) == multiset(s[l..r]);
  }

  lemma SameElements<T>(s: seq<T>, t: seq<T>, l: nat, r: nat, i: nat) returns (j: nat)
    requires l <= i < r <= |s| && Shuffled(s, t, l, r)
    ensures l <= j < r && t[i] == s[j]
  {
    assert t[i] == t[l..r][i - l];
    assert t[i] in multiset(t[l..r]);
    assert t[i] in s[l..r];
    var x :| 0 <= x < r - l && s[l..r][x] == t[i];
    j := l + x;
  }

  lemma OutsideSame<T>(s: seq<T>, t: seq<T>, l: nat, r: nat, i: nat)
    requires l <= r <= |s| && Shuffled(s, t, l, r) && i < |s| && (i < l || r <= i)
    ensures t[i] == s[i]
  {
    if i < l { assert t[..l][i] == s[..l][i]; } else { assert t[r..][i - r] == s[r..][i - r]; }
  }

  ghost predicate SortedBy<T>(s: seq<T>, key: T -> int, l: int, r: int)
    requires 0 <= l && r <= |s|
  {
    forall p, q :: l <= p < q < r ==> key(s[p]) <= key(s[q])
  }

  // Short ranges.

  /** Exchanges two elements of the range `l..r` of what started as `s`. */
  method Swap<T>(buf: array<T>, i: nat, j: nat, ghost s: seq<T>, ghost l: nat, ghost r: nat)
    requires l <= i < r && l <= j < r && r <= buf.Length == |s| && Shuffled(s, buf[..], l, r)
    modifies buf
    ensures buf[i] == old(buf[j]) && buf[j] == old(buf[i])
    ensures forall p :: 0 <= p < buf.Length && p != i && p != j ==> buf[p] == old(buf[p])
    ensures Shuffled(s, buf[..], l, r)
  {
    hide Shuffled;
    ghost var t := buf[..];
    SwapShuffles(t, i, j, l, r);
    buf[i], buf[j] := buf[j], buf[i];
    assert buf[..] == t[i := t[j]][j := t[i]];
    ShuffledTwice(s, t, buf[..], l, r);
  }

  lemma NotShuffled<T>(s: seq<T>, l: nat, r: nat)
    requires l <= r <= |s|
    ensures Shuffled(s, s, l, r)
  {
  }

  /** The first pass moves the least element to the left end. */
  method SinkLeast<T>(buf: array<T>, key: T -> int, l: nat, r: nat)
    requires l <= r < buf.Length
    modifies buf
    ensures Shuffled(old(buf[..]), buf[..], l, r + 1)
    ensures forall p :: l <= p <= r ==> key(buf[l]) <= key(buf[p])
  {
    hide Shuffled;
    ghost var s := buf[..];
    NotShuffled(s, l, r + 1);
    var j := r;
    while j > l
      invariant l <= j <= r && Shuffled(s, buf[..], l, r + 1)
      invariant forall p :: j <= p <= r ==> key(buf[j]) <= key(buf[p])
    {
      if key(buf[j]) < key(buf[j - 1]) {
        Swap(buf, j, j - 1, s, l, r + 1);
      }
      j := j - 1;
    }
  }

  /** Moves the element at `j` down to its place in the sorted part `l..j`. */
  method InsertOne<T>(buf: array<T>, key: T -> int, ghost s: seq<T>, l: nat, j: nat, ghost r: nat)
    requires l < j <= r < buf.Length == |s| && SortedBy(buf[..], key, l, j) && Shuffled(s, buf[..], l, r + 1)
    requires forall p :: l <= p <= r ==> key(buf[l]) <= key(buf[p])
    modifies buf
    ensures Shuffled(s, buf[..], l, r + 1) && SortedBy(buf[..], key, l, j + 1)
    ensures forall p :: l <= p <= r ==> key(buf[l]) <= key(buf[p])
  {
    hide Shuffled;
    var v, k := buf[j], j;
    while key(v) < key(buf[k - 1])
      invariant l < k <= j && buf[k] == v && Shuffled(s, buf[..], l, r + 1)
      invariant forall p, q :: l <= p < q <= j && q != k ==> key(buf[p]) <= key(buf[q])
      invariant forall p :: l <= p <= r ==> key(buf[l]) <= key(buf[p])
      decreases k
    {
      // The source writes the two elements one after the other.
      Swap(buf, k, k - 1, s, l, r + 1);
      k := k - 1;
    }
  }

  /** Insertion sort of a short range. */
  method SortShort<T>(buf: array<T>, key: T -> int, l: nat, r: nat)
    requires l < r < buf.Length
    modifies buf
    ensures Shuffled(old(buf[..]), buf[..], l, r + 1) && SortedBy(buf[..], key, l, r + 1)
  {
    hide Shuffled;
    ghost var s := buf[..];
    SinkLeast(buf, key, l, r);
    var j := l + 2;
    while j <= r
      invariant l + 1 < j <= r + 1 && Shuffled(s, buf[..], l, r + 1) && SortedBy(buf[..], key, l, j)
      invariant forall p :: l <= p <= r ==> key(buf[l]) <= key(buf[p])
    {
      InsertOne(buf, key, s, l, j, r);
      j := j + 1;
    }
  }

  // Partition.

  ghost predicate Below<T>(s: seq<T>, key: T -> int, l: int, r: int, v: int)
    requires 0 <= l && r <= |s|
  {
    forall p :: l <= p < r ==> key(s[p]) <= v
  }

  ghost predicate Above<T>(s: seq<T>, key: T -> int, l: int, r: int, v: int)
    requires 0 <= l && r <= |s|
  {
    forall p :: l <= p < r ==> v <= key(s[p])
  }

  ghost function Exchanged<T>(s: seq<T>, i: nat, j: nat): seq<T>
    requires i < |s| && j < |s|
  {
    s[i := s[j]][j := s[i]]
  }

  /** The median of the first, middle and last element goes to `r - 1`. */
  method MedianOfThree<T>(buf: array<T>, key: T -> int, ghost s: seq<T>, l: nat, r: nat)
    requires l + 16 <= r < buf.Length == |s| && Shuffled(s, buf[..], l, r + 1)
    modifies buf
    ensures Shuffled(s, buf[..], l, r + 1)
    ensures key(buf[l]) <= key(buf[r - 1]) <= key(buf[r])
    ensures old(key(buf[l]) <= key(buf[(l + r) / 2]) <= key(buf[r])) ==>
      buf[..] == Exchanged(old(buf[..]), (l + r) / 2, r - 1)
  {
    hide Shuffled;
    var j := r - 1;
    Swap(buf, (l + r) / 2, j, s, l, r + 1);
    if key(buf[j]) > key(buf[r]) {
      Swap(buf, j, r, s, l, r + 1);
    }
    if key(buf[l]) > key(buf[r]) {
      Swap(buf, l, r, s, l, r + 1);
    }
    if key(buf[l]) > key(buf[j]) {
      Swap(buf, j, l, s, l, r + 1);
    }
  }

  /** The two scans between `k` and `j`: `k` stops at an element that is not small, `j` at one
      that is not large or where it meets `k`. */
  method Scan<T>(buf: array<T>, key: T -> int, l: nat, r: nat, k0: nat, j0: nat, v: int) returns (k: nat, j: nat)
    requires l <= k0 < j0 <= r - 1 && r < buf.Length && l < r
    requires Below(buf[..], key, l, k0 + 1, v) && Above(buf[..], key, j0, r, v) && key(buf[r - 1]) == v
    ensures k0 < k <= r - 1 && l <= j < j0 && k <= j0
    ensures Below(buf[..], key, l, k, v) && v <= key(buf[k]) && Above(buf[..], key, j + 1, r, v)
    ensures k < j ==> key(buf[j]) <= v
    ensures k >= j ==> j + 1 >= k
  {
    k := k0 + 1;
    while key(buf[k]) < v
      invariant k0 < k <= j0 && Below(buf[..], key, l, k, v)
      decreases r - k
    {
      k := k + 1;
    }
    j := j0 - 1;
    while key(buf[j]) > v
      invariant l <= j < j0 && Above(buf[..], key, j + 1, r, v) && j + 1 >= k
      decreases j
    {
      if j == k {
        break;
      }
      j := j - 1;
    }
  }

  /** Splits the range `l..r` around the median of three. */
  method Partition<T>(buf: array<T>, key: T -> int, l: nat, r: nat) returns (k: nat)
    requires l + 16 <= r < buf.Length
    modifies buf
    ensures l < k < r && Shuffled(old(buf[..]), buf[..], l, r + 1)
    ensures Below(buf[..], key, l, k, key(buf[k])) && Above(buf[..], key, k + 1, r + 1, key(buf[k]))
    ensures old(IsTrap(buf[..], key, l, r)) ==> k == r - 2 && IsTrap(buf[..], key, l, r - 3)
  {
    hide Shuffled, IsTrap, Peels, Trap;
    ghost var s := buf[..];
    ghost var trap := IsTrap(s, key, l, r);
    NotShuffled(s, l, r + 1);
    if trap { TrapSprings(s, key, l, r); }
    MedianOfThree(buf, key, s, l, r);
    ghost var s1 := buf[..];
    var j := r - 1;
    var v := key(buf[j]);
    k := l;
    while true
      invariant l <= k < j <= r - 1 && Shuffled(s, buf[..], l, r + 1)
      invariant key(buf[r - 1]) == v <= key(buf[r])
      invariant Below(buf[..], key, l, k + 1, v) && Above(buf[..], key, j, r, v)
      invariant trap ==> k == l && j == r - 1 && buf[..] == s1
      decreases j - k
    {
      k, j := Scan(buf, key, l, r, k, j, v);
      if trap { PeelStops(s1, key, l, r, k); }
      if k >= j {
        break;
      }
      Swap(buf, k, j, s, l, r + 1);
    }
    Swap(buf, r - 1, k, s, l, r + 1);
    if trap { TrapRemains(s1, buf[..], key, l, r); }
  }

  // Arrays that use up the stack.

  /** Every partition of these keys splits off only the last three, and leaves two of them
      pending. */
  function Trap(n: nat): (t: seq<int>)
    ensures |t| == n && forall i :: 0 <= i < n ==> t[i] < n
  {
    if n < 17 then seq(n, i => i)
    else
      var t := Trap(n - 3);
      t[(n - 1) / 2 := n - 3] + [n - 2, t[(n - 1) / 2], n - 1]
  }

  ghost predicate IsTrap<T>(s: seq<T>, key: T -> int, l: nat, r: nat)
    requires l <= r < |s|
  {
    forall p :: l <= p <= r ==> key(s[p]) == Trap(r - l + 1)[p - l]
  }

  /** The pivot lies at `r - 1` and only the elements at `r - 2` and `r` are larger. */
  ghost predicate Peels<T>(s: seq<T>, key: T -> int, l: nat, r: nat)
    requires l + 16 <= r < |s|
  {
    && (forall p :: l <= p < r - 2 ==> key(s[p]) < key(s[r - 1]))
    && key(s[r - 1]) < key(s[r - 2]) && key(s[r - 1]) < key(s[r])
  }

  lemma TrapSprings<T>(s: seq<T>, key: T -> int, l: nat, r: nat)
    requires l + 16 <= r < |s| && IsTrap(s, key, l, r)
    ensures key(s[l]) <= key(s[(l + r) / 2]) <= key(s[r])
    ensures var t := Exchanged(s, (l + r) / 2, r - 1); Peels(t, key, l, r) && IsTrap(t, key, l, r - 3)
  {
    var n, m := r - l + 1, (l + r) / 2;
    var t, a := Exchanged(s, m, r - 1), Trap(n - 3);
    assert m - l == (n - 1) / 2 && Trap(n) == a[m - l := n - 3] + [n - 2, a[m - l], n - 1];
    forall p | l <= p <= r - 3 ensures key(t[p]) == a[p - l] {
    }
  }

  lemma PeelStops<T>(s: seq<T>, key: T -> int, l: nat, r: nat, k: nat)
    requires l + 16 <= r < |s| && Peels(s, key, l, r) && l < k <= r - 1
    requires Below(s, key, l, k, key(s[r - 1])) && key(s[r - 1]) <= key(s[k])
    ensures k == r - 2
  {
    assert key(s[r - 2]) > key(s[r - 1]);
  }

  lemma TrapRemains<T>(s: seq<T>, t: seq<T>, key: T -> int, l: nat, r: nat)
    requires l + 16 <= r < |s| == |t| && IsTrap(s, key, l, r - 3) && forall p :: l <= p <= r - 3 ==> t[p] == s[p]
    ensures IsTrap(t, key, l, r - 3)
  {
    hide Trap;
  }

  // The stack of ranges that are not sorted yet.

  function Right(stack: seq<nat>, t: nat): nat
    requires 2 * t + 1 < |stack|
  {
    stack[2 * t]
  }

  function Left(stack: seq<nat>, t: nat): nat
    requires 2 * t + 1 < |stack|
  {
    stack[2 * t + 1]
  }

  /** `n` ranges inside `l..r`, each of at least two elements, from right to left with gaps. */
  ghost predicate Ranges(stack: seq<nat>, n: nat, l: nat, r: nat) {
    && 2 * n <= |stack|
    && (forall t: nat :: t < n ==> l <= Left(stack, t) < Right(stack, t) <= r)
    && (forall t: nat, u: nat :: t < u < n ==> Right(stack, u) + 2 <= Left(stack, t))
  }

  ghost predicate Together(stack: seq<nat>, n: nat, p: nat, q: nat)
    requires 2 * n <= |stack|
  {
    exists t: nat :: t < n && Left(stack, t) <= p && q <= Right(stack, t)
  }

  /** Elements that are not in the same pending range are in order. */
  ghost predicate Cut<T>(s: seq<T>, key: T -> int, stack: seq<nat>, n: nat, l: nat, r: nat)
    requires r < |s| && 2 * n <= |stack|
  {
    forall p: nat, q: nat :: l <= p < q <= r && !Together(stack, n, p, q) ==> key(s[p]) <= key(s[q])
  }

  /** Moving elements inside the topmost range. */
  lemma CutShuffled<T>(s: seq<T>, s': seq<T>, key: T -> int, stack: seq<nat>, n: nat, l: nat, r: nat)
    requires r < |s| == |s'| && Ranges(stack, n + 1, l, r) && Cut(s, key, stack, n + 1, l, r)
    requires Shuffled(s, s', Left(stack, n), Right(stack, n) + 1)
    ensures Cut(s', key, stack, n + 1, l, r)
  {
    hide Shuffled;
    var a, b := Left(stack, n), Right(stack, n);
    forall p: nat, q: nat | l <= p < q <= r && !Together(stack, n + 1, p, q) ensures key(s'[p]) <= key(s'[q]) {
      var p' := Source(s, s', a, b, p);
      var q' := Source(s, s', a, b, q);
      StillApart(stack, n, l, r, p, q, p', q');
    }
  }

  /** Where the element at `p` came from: the same place, or the same range. */
  lemma Source<T>(s: seq<T>, s': seq<T>, a: nat, b: nat, p: nat) returns (p': nat)
    requires a <= b < |s| && Shuffled(s, s', a, b + 1) && p < |s|
    ensures |s'| == |s| && p' < |s| && s'[p] == s[p']
    ensures if a <= p <= b then a <= p' <= b else p' == p
  {
    hide Shuffled;
    SameSize(s, s', a, b + 1);
    if a <= p <= b {
      p' := SameElements(s, s', a, b + 1, p);
    } else {
      OutsideSame(s, s', a, b + 1, p);
      p' := p;
    }
  }

  lemma SameSize<T>(s: seq<T>, t: seq<T>, l: nat, r: nat)
    requires l <= r <= |s| && Shuffled(s, t, l, r)
    ensures |t| == |s|
  {
  }

  lemma StillApart(stack: seq<nat>, n: nat, l: nat, r: nat, p: nat, q: nat, p': nat, q': nat)
    requires Ranges(stack, n + 1, l, r) && l <= p < q <= r && !Together(stack, n + 1, p, q)
    requires var a, b := Left(stack, n), Right(stack, n);
      (if a <= p <= b then a <= p' <= b else p' == p) && (if a <= q <= b then a <= q' <= b else q' == q)
    ensures l <= p' < q' <= r && !Together(stack, n + 1, p', q')
  {
    var a, b := Left(stack, n), Right(stack, n);
    assert !(a <= p && q <= b);
    forall t: nat | t < n + 1 ensures !(Left(stack, t) <= p' && q' <= Right(stack, t)) {
      assert !(Left(stack, t) <= p && q <= Right(stack, t));
      if t < n { assert b + 2 <= Left(stack, t); }
    }
  }

  /** A sorted topmost range needs no more work. */
  lemma CutSorted<T>(s: seq<T>, key: T -> int, stack: seq<nat>, n: nat, l: nat, r: nat)
    requires r < |s| && Ranges(stack, n + 1, l, r) && Cut(s, key, stack, n + 1, l, r)
    requires SortedBy(s, key, Left(stack, n), Right(stack, n) + 1)
    ensures Cut(s, key, stack, n, l, r)
  {
    forall p: nat, q: nat | l <= p < q <= r && !Together(stack, n, p, q) ensures key(s[p]) <= key(s[q]) {
      if !(Left(stack, n) <= p && q <= Right(stack, n)) {
        assert !Together(stack, n + 1, p, q);
      }
    }
  }

  /** The new stack: what is left of `a..b` on both sides of `k`. */
  function PushSides(stack: seq<nat>, n: nat, a: nat, k: nat, b: nat): seq<nat>
    requires 2 * n + 4 <= |stack| && a < k
  {
    var stack1 := if b > k + 1 then stack[2 * n := b][2 * n + 1 := k + 1] else stack;
    var m := if b > k + 1 then n + 1 else n;
    if k - 1 > a then stack1[2 * m := k - 1][2 * m + 1 := a] else stack1
  }

  function Sides(n: nat, a: nat, k: nat, b: nat): nat {
    n + (if b > k + 1 then 1 else 0) + (if k > a + 1 then 1 else 0)
  }

  /** The ranges of the new stack. */
  lemma SidesAre(stack: seq<nat>, n: nat, a: nat, k: nat, b: nat)
    requires 2 * n + 4 <= |stack| && a < k
    ensures var st, m := PushSides(stack, n, a, k, b), if b > k + 1 then n + 1 else n;
      && |st| == |stack|
      && (forall t: nat :: t < n ==> Left(st, t) == Left(stack, t) && Right(st, t) == Right(stack, t))
      && (b > k + 1 ==> Left(st, n) == k + 1 && Right(st, n) == b)
      && (k > a + 1 ==> Left(st, m) == a && Right(st, m) == k - 1)
  {
  }

  lemma SplitRanges(stack: seq<nat>, n: nat, a: nat, k: nat, b: nat, l: nat, r: nat)
    requires Ranges(stack, n + 1, l, r) && 2 * n + 4 <= |stack|
    requires a == Left(stack, n) && b == Right(stack, n) && a < k < b
    ensures Ranges(PushSides(stack, n, a, k, b), Sides(n, a, k, b), l, r)
  {
    hide PushSides, Left, Right;
    SidesAre(stack, n, a, k, b);
  }

  /** After the partition the two sides are pending instead of the whole. */
  lemma CutSplit<T>(s: seq<T>, key: T -> int, stack: seq<nat>, n: nat, a: nat, k: nat, b: nat, l: nat, r: nat)
    requires r < |s| && Ranges(stack, n + 1, l, r) && 2 * n + 4 <= |stack| && Cut(s, key, stack, n + 1, l, r)
    requires a == Left(stack, n) && b == Right(stack, n) && a < k < b
    requires Below(s, key, a, k, key(s[k])) && Above(s, key, k + 1, b + 1, key(s[k]))
    ensures Cut(s, key, PushSides(stack, n, a, k, b), Sides(n, a, k, b), l, r)
  {
    hide PushSides, Left, Right;
    SidesAre(stack, n, a, k, b);
    var st, m := PushSides(stack, n, a, k, b), Sides(n, a, k, b);
    forall p: nat, q: nat | l <= p < q <= r && !Together(st, m, p, q) ensures key(s[p]) <= key(s[q]) {
      if a <= p && q <= b {
        InTheSplit(st, n, a, k, b, p, q);
      } else {
        NotTogether(stack, st, n, m, p, q);
      }
    }
  }

  /** Two elements of the range that was split, on different sides or at the pivot. */
  lemma InTheSplit(st: seq<nat>, n: nat, a: nat, k: nat, b: nat, p: nat, q: nat)
    requires a <= p < q <= b && a < k < b && 2 * Sides(n, a, k, b) <= |st|
    requires b > k + 1 ==> Left(st, n) == k + 1 && Right(st, n) == b
    requires var m := if b > k + 1 then n + 1 else n; k > a + 1 ==> Left(st, m) == a && Right(st, m) == k - 1
    requires !Together(st, Sides(n, a, k, b), p, q)
    ensures p <= k <= q
  {
    hide Left, Right;
    if b > k + 1 { assert Left(st, n) == k + 1; }
    if k > a + 1 {
      var m := if b > k + 1 then n + 1 else n;
      assert Left(st, m) == a;
    }
  }

  lemma NotTogether(stack: seq<nat>, st: seq<nat>, n: nat, m: nat, p: nat, q: nat)
    requires 2 * n + 2 <= |stack| && 2 * m <= |st| && n <= m && !Together(st, m, p, q)
    requires forall t: nat :: t < n ==> Left(st, t) == Left(stack, t) && Right(st, t) == Right(stack, t)
    requires !(Left(stack, n) <= p && q <= Right(stack, n))
    ensures !Together(stack, n + 1, p, q)
  {
    hide Left, Right;
    forall t: nat | t < n + 1 ensures !(Left(stack, t) <= p && q <= Right(stack, t)) {
      if t < n { assert !(Left(st, t) <= p && q <= Right(st, t)); }
    }
  }

  /** How many elements are still pending. */
  ghost function Pending(stack: seq<nat>, n: nat): nat
    requires 2 * n <= |stack|
  {
    if n == 0 then 0 else Pending(stack, n - 1) + Size(Left(stack, n - 1), Right(stack, n - 1))
  }

  ghost function Size(l: nat, r: nat): nat {
    if l <= r then r - l + 1 else 0
  }

  lemma {:induction false} PendingSame(stack: seq<nat>, st: seq<nat>, n: nat)
    requires 2 * n <= |stack| && 2 * n <= |st|
    requires forall t: nat :: t < n ==> Left(st, t) == Left(stack, t) && Right(st, t) == Right(stack, t)
    ensures Pending(st, n) == Pending(stack, n)
  {
    hide Left, Right;
    if n > 0 { PendingSame(stack, st, n - 1); }
  }

  lemma PendingShrinks(stack: seq<nat>, n: nat, a: nat, k: nat, b: nat, l: nat, r: nat)
    requires Ranges(stack, n + 1, l, r) && 2 * n + 4 <= |stack|
    requires a == Left(stack, n) && b == Right(stack, n) && a < k < b
    ensures Pending(PushSides(stack, n, a, k, b), Sides(n, a, k, b)) < Pending(stack, n + 1)
  {
    hide PushSides, Left, Right, Ranges, Pending, Size;
    SidesAre(stack, n, a, k, b);
    var st, m := PushSides(stack, n, a, k, b), if b > k + 1 then n + 1 else n;
    PendingSame(stack, st, n);
    PendingMore(stack, n, a, b);
    if b > k + 1 { PendingMore(st, n, k + 1, b); }
    if k > a + 1 { PendingMore(st, m, a, k - 1); }
  }

  lemma PendingMore(stack: seq<nat>, n: nat, a: nat, b: nat)
    requires 2 * n + 2 <= |stack| && Left(stack, n) == a <= b == Right(stack, n)
    ensures Pending(stack, n + 1) == Pending(stack, n) + (b - a + 1)
  {
  }

  /** Many pending ranges need many elements. */
  lemma {:induction false} RangesSpread(stack: seq<nat>, n: nat, l: nat, r: nat)
    requires Ranges(stack, n, l, r) && n > 0
    ensures Right(stack, n - 1) + 3 * (n - 1) <= r
  {
    hide Left, Right;
    if n > 1 {
      RangesSpread(stack, n - 1, l, r);
      assert Right(stack, n - 1) + 2 <= Left(stack, n - 2);
    }
  }

  /** The number of halvings that size the stack. */
  function Halvings(j: nat): nat {
    if j / 2 == 0 then 1 else 1 + Halvings(j / 2)
  }

  method CountHalvings(j0: nat) returns (i: nat)
    ensures i == Halvings(j0) && i >= 1
  {
    i := 1;
    var j := j0;
    while j / 2 != 0
      invariant i >= 1 && Halvings(j0) == i - 1 + Halvings(j)
    {
      j := j / 2;
      i := i + 1;
    }
  }

  /** Pushes the sides that have at least two elements. */
  method Push(stack: array<nat>, i0: nat, l: nat, k: nat, r: nat) returns (i: nat)
    requires i0 % 2 == 0 && i0 + 4 <= stack.Length && l < k
    modifies stack
    ensures stack[..] == PushSides(old(stack[..]), i0 / 2, l, k, r)
    ensures i == 2 * Sides(i0 / 2, l, k, r) <= i0 + 4
  {
    i := i0;
    if r > k + 1 {
      stack[i] := r;
      stack[i + 1] := k + 1;
      i := i + 2;
    }
    if k - 1 > l {
      stack[i] := k - 1;
      stack[i + 1] := l;
      i := i + 2;
    }
  }

  lemma OneRange<T>(stack: seq<nat>, l: nat, r: nat, s: seq<T>, key: T -> int)
    requires |stack| >= 2 && stack[0] == r && stack[1] == l && l < r < |s|
    ensures Ranges(stack, 1, l, r) && Cut(s, key, stack, 1, l, r)
  {
    assert Left(stack, 0) == l && Right(stack, 0) == r;
  }

  lemma TopRange(stack: seq<nat>, n: nat, l: nat, r: nat)
    requires Ranges(stack, n + 1, l, r)
    ensures 2 * n + 2 <= |stack| && stack[2 * n + 1] == Left(stack, n) && stack[2 * n] == Right(stack, n)
    ensures l <= Left(stack, n) < Right(stack, n) <= r
  {
  }

  /** `s` on the way to being sorted: only the `n` pending ranges are still to be done. */
  ghost predicate Halfway<T>(s: seq<T>, t: seq<T>, key: T -> int, stack: seq<nat>, n: nat, l: nat, r: nat)
    requires l <= r < |s|
  {
    |t| == |s| && Shuffled(s, t, l, r + 1) && Ranges(stack, n, l, r) && Cut(t, key, stack, n, l, r)
  }

  /** After the elements of the topmost range have moved. */
  lemma RangeMoved<T>(s: seq<T>, t: seq<T>, u: seq<T>, key: T -> int, stack: seq<nat>, n: nat, l: nat, r: nat)
    requires l <= r < |s| && Halfway(s, t, key, stack, n + 1, l, r)
    requires Shuffled(t, u, Left(stack, n), Right(stack, n) + 1)
    ensures Halfway(s, u, key, stack, n + 1, l, r)
  {
    hide Shuffled, Cut, Ranges;
    TopRange(stack, n, l, r);
    SameSize(t, u, Left(stack, n), Right(stack, n) + 1);
    CutShuffled(t, u, key, stack, n, l, r);
    ShuffledWider(t, u, Left(stack, n), Right(stack, n) + 1, l, r + 1);
    ShuffledTwice(s, t, u, l, r + 1);
  }

  /** After the topmost range has been sorted. */
  lemma RangeDone<T>(s: seq<T>, t: seq<T>, u: seq<T>, key: T -> int, stack: seq<nat>, n: nat, l: nat, r: nat)
    requires l <= r < |s| && Halfway(s, t, key, stack, n + 1, l, r)
    requires Shuffled(t, u, Left(stack, n), Right(stack, n) + 1)
    requires Right(stack, n) < |u| && SortedBy(u, key, Left(stack, n), Right(stack, n) + 1)
    ensures Halfway(s, u, key, stack, n, l, r) && Pending(stack, n) < Pending(stack, n + 1)
  {
    hide Shuffled, Cut, SortedBy;
    RangeMoved(s, t, u, key, stack, n, l, r);
    CutSorted(u, key, stack, n, l, r);
  }

  /** After the topmost range has been split at `k`. */
  lemma RangeSplit<T>(s: seq<T>, t: seq<T>, u: seq<T>, key: T -> int, stack: seq<nat>, n: nat, k: nat, l: nat, r: nat)
    requires l <= r < |s| && Halfway(s, t, key, stack, n + 1, l, r) && 2 * n + 4 <= |stack|
    requires Shuffled(t, u, Left(stack, n), Right(stack, n) + 1) && |u| == |s|
    requires var a, b := Left(stack, n), Right(stack, n);
      a < k < b < |u| && Below(u, key, a, k, key(u[k])) && Above(u, key, k + 1, b + 1, key(u[k]))
    ensures var st, m := PushSides(stack, n, Left(stack, n), k, Right(stack, n)),
      Sides(n, Left(stack, n), k, Right(stack, n));
      Halfway(s, u, key, st, m, l, r) && Pending(st, m) < Pending(stack, n + 1)
  {
    hide Shuffled, Cut, Below, Above, PushSides, Sides, Left, Right;
    RangeMoved(s, t, u, key, stack, n, l, r);
    var a, b := Left(stack, n), Right(stack, n);
    CutSplit(u, key, stack, n, a, k, b, l, r);
    SplitRanges(stack, n, a, k, b, l, r);
    PendingShrinks(stack, n, a, k, b, l, r);
  }

  /** The stack is full while the topmost range is still long. */
  lemma StackIsFull<T>(s: seq<T>, t: seq<T>, key: T -> int, stack: seq<nat>, n: nat, l: nat, r: nat)
    requires l <= r < |s| && Halfway(s, t, key, stack, n + 1, l, r) && Left(stack, n) + 16 <= Right(stack, n)
    ensures |t| == |s| && Shuffled(s, t, l, r + 1) && r - l >= 3 * n + 16
  {
    hide Shuffled, Cut;
    RangesSpread(stack, n + 1, l, r);
  }

  lemma Started<T>(s: seq<T>, key: T -> int, stack: seq<nat>, l: nat, r: nat)
    requires |stack| >= 2 && stack[0] == r && stack[1] == l && l < r < |s|
    ensures Halfway(s, s, key, stack, 1, l, r)
  {
    hide Shuffled;
    NotShuffled(s, l, r + 1);
    OneRange(stack, l, r, s, key);
  }

  lemma Ended<T>(s: seq<T>, t: seq<T>, key: T -> int, stack: seq<nat>, l: nat, r: nat)
    requires l <= r < |s| && Halfway(s, t, key, stack, 0, l, r)
    ensures |t| == |s| && Shuffled(s, t, l, r + 1) && SortedBy(t, key, l, r + 1)
  {
    hide Shuffled;
    NothingPending(t, key, stack, l, r);
  }

  lemma OnTop<T>(s: seq<T>, t: seq<T>, key: T -> int, stack: seq<nat>, n: nat, l: nat, r: nat)
    requires l <= r < |s| && Halfway(s, t, key, stack, n + 1, l, r)
    ensures 2 * n + 2 <= |stack| && stack[2 * n + 1] == Left(stack, n) && stack[2 * n] == Right(stack, n)
    ensures |t| == |s| && l <= Left(stack, n) < Right(stack, n) <= r
  {
    hide Shuffled, Cut;
    TopRange(stack, n, l, r);
  }

  /** In a trap the topmost range loses three elements with every pending range. */
  ghost predicate Sinking<T>(t: seq<T>, key: T -> int, stack: seq<nat>, n: nat, l: nat, r: nat, depth: nat)
    requires r < |t|
  {
    && 0 < n <= depth && 2 * n <= |stack| && l + 3 * depth + 13 <= r
    && Left(stack, n - 1) == l && Right(stack, n - 1) == r - 3 * (n - 1)
    && IsTrap(t, key, l, r - 3 * (n - 1))
  }

  lemma SinkingStarts<T>(t: seq<T>, key: T -> int, stack: seq<nat>, l: nat, r: nat, depth: nat)
    requires |stack| >= 2 && stack[0] == r && stack[1] == l && l <= r < |t| && IsTrap(t, key, l, r)
    requires depth > 0 && l + 3 * depth + 13 <= r
    ensures Sinking(t, key, stack, 1, l, r, depth)
  {
    hide IsTrap;
  }

  lemma SinkingTop<T>(t: seq<T>, key: T -> int, stack: seq<nat>, n: nat, l: nat, r: nat, depth: nat)
    requires r < |t| && Sinking(t, key, stack, n + 1, l, r, depth)
    ensures n < depth && l + 3 * depth + 13 <= r && 2 * n + 2 <= |stack|
    ensures Left(stack, n) == l && Right(stack, n) == r - 3 * n && IsTrap(t, key, l, r - 3 * n)
  {
    hide IsTrap;
  }

  lemma NeverEmpty<T>(t: seq<T>, key: T -> int, stack: seq<nat>, n: nat, l: nat, r: nat, depth: nat)
    requires r < |t| && Sinking(t, key, stack, n, l, r, depth)
    ensures n > 0
  {
  }

  lemma SinksOn<T>(u: seq<T>, key: T -> int, stack: seq<nat>, n: nat, l: nat, r: nat, depth: nat)
    requires r < |u| && n + 1 < depth && l + 3 * depth + 13 <= r && 2 * n + 4 <= |stack|
    requires IsTrap(u, key, l, r - 3 * n - 3)
    ensures var b := r - 3 * n;
      Sinking(u, key, PushSides(stack, n, l, b - 2, b), Sides(n, l, b - 2, b), l, r, depth)
  {
    hide IsTrap;
    SidesAre(stack, n, l, r - 3 * n - 2, r - 3 * n);
  }

  lemma NothingPending<T>(s: seq<T>, key: T -> int, stack: seq<nat>, l: nat, r: nat)
    requires r < |s| && Cut(s, key, stack, 0, l, r)
    ensures SortedBy(s, key, l, r + 1)
  {
  }

  /** `QuickSortAsc` sorts `left..right`, or gives up with -1 when the stack is full; indices
      stay small enough that the sum of two of them is a 32-bit number. */
  method QuickSortAsc<T>(buf: array<T>, key: T -> int, left: nat, right: int) returns (result: int)
    requires right < buf.Length && right < 0x4000_0000
    modifies buf
    ensures left < right ==> Shuffled(old(buf[..]), buf[..], left, right + 1)
    ensures left >= right ==> buf[..] == old(buf[..])
    ensures result == 0 || result == -1
    ensures result == 0 && right >= 0 ==> SortedBy(buf[..], key, left, right + 1)
    ensures result == -1 ==> left < right && right - left >= MostPending(right)
    ensures left < right && right - left >= MostPending(right) && IsTrap(old(buf[..]), key, left, right)
      ==> result == -1
  {
    hide Shuffled, Halfway, Left, Right, PushSides, Sides, Sinking, IsTrap, Below, Above, Halvings, Pending;
    if left >= right {
      return 0;
    }
    ghost var s := buf[..];
    var bits := CountHalvings(right - 1);
    var stackSize := bits * 64;
    var stack := new nat[stackSize](x => 0);
    stackSize := stackSize - 4;
    stack[0] := right;
    stack[1] := left;
    var i := 2;
    ghost var n: nat := 1;
    ghost var trap := right - left >= MostPending(right) && IsTrap(s, key, left, right);
    Started(s, key, stack[..], left, right);
    if trap { SinkingStarts(s, key, stack[..], left, right, 32 * bits - 1); }
    while i != 0
      invariant i == 2 * n && i <= stackSize + 4 == stack.Length && buf.Length == |s|
      invariant Halfway(s, buf[..], key, stack[..], n, left, right)
      invariant trap ==> Sinking(buf[..], key, stack[..], n, left, right, 32 * bits - 1)
      decreases Pending(stack[..], n)
    {
      n := n - 1;
      ghost var st, before := stack[..], buf[..];
      OnTop(s, before, key, st, n, left, right);
      i := i - 1;
      var l := stack[i];
      i := i - 1;
      var r := stack[i];
      if trap { SinkingTop(before, key, st, n, left, right, 32 * bits - 1); }
      if r - l < 16 {
        SortShort(buf, key, l, r);
        RangeDone(s, before, buf[..], key, st, n, left, right);
        continue;
      }
      var k := Partition(buf, key, l, r);
      if i >= stackSize {
        RangeMoved(s, before, buf[..], key, st, n, left, right);
        StackIsFull(s, buf[..], key, st, n, left, right);
        return -1;
      }
      RangeSplit(s, before, buf[..], key, st, n, k, left, right);
      if trap { SinksOn(buf[..], key, st, n, left, right, 32 * bits - 1); }
      i := Push(stack, i, l, k, r);
      n := Sides(n, l, k, r);
    }
    if trap { NeverEmpty(buf[..], key, stack[..], n, left, right, 32 * bits - 1); }
    Ended(s, buf[..], key, stack[..], left, right);
    return 0;
  }

  /** So many elements fill the stack, if every partition leaves two of them. */
  function MostPending(right: int): int
    requires right > 0
  {
    96 * Halvings(right - 1) + 10
  }

  /** From that length on there is an array that is not sorted. */
  method GivesUp(left: nat, right: nat) returns (result: int)
    requires left < right < 0x4000_0000 && right - left >= MostPending(right)
    ensures result == -1
  {
    hide Trap, Halvings;
    var t := Trap(right - left + 1);
    var buf := new int[right + 1](i => if left <= i <= right then t[i - left] else 0);
    result := QuickSortAsc(buf, x => x, left, right);
  }

  lemma {:induction false} HalvingsGrow(i: nat, j: nat)
    requires i <= j
    ensures Halvings(i) <= Halvings(j)
  {
    if j / 2 != 0 { HalvingsGrow(i / 2, j / 2); }
  }

  lemma SomeHalvings()
    ensures Halvings(969) == Halvings(512) == 10 && Halvings(256) == 9 && Halvings(64) == 7
  {
    assert Halvings(7) == 3 && Halvings(4) == 3 && Halvings(15) == 4;
    assert Halvings(60) == 6 && Halvings(121) == 7 && Halvings(242) == 8 && Halvings(484) == 9;
    assert Halvings(32) == 6 && Halvings(64) == 7 && Halvings(128) == 8;
  }

  /** Sorting from 0 fails for 971 elements and for no less. */
  lemma ShortestFailure(right: nat)
    requires right > 0
    ensures MostPending(970) == 970
    ensures right < 970 ==> right < MostPending(right)
  {
    hide Halvings;
    SomeHalvings();
    var j := right - 1;
    if j >= 512 {
      HalvingsGrow(512, j);
    } else if j >= 256 {
      HalvingsGrow(256, j);
    } else if j >= 64 {
      HalvingsGrow(64, j);
    } else {
      AtLeastOne(j);
    }
  }

  lemma AtLeastOne(j: nat)
    ensures Halvings(j) >= 1
  {
  }
}
