/** The tail: the rests of the keys behind their leaves, and the values.

    Each stored rest ends in NUL and is followed by at most `ids` values.  A rest that is a
    suffix of the one before it can share its bytes. */
module CloneTail {
  import opened Language
  import opened CloneUnit
  import opened CloneWork

  // Values are 32-bit numbers, stored as four bytes with the lowest first.

  predicate IsInt32(v: int) {
    -0x8000_0000 <= v < 0x8000_0000
  }

  function ValueBytes(v: int): (r: seq<nat>)
    requires IsInt32(v)
    ensures |r| == 4
  {
    var u := if v < 0 then v + 0x1_0000_0000 else v;
    [u % 256, u / 0x100 % 256, u / 0x1_0000 % 256, u / 0x100_0000 % 256]
  }

  function ReadValue(tail: seq<nat>, at: nat): int
    requires at + 4 <= |tail|
  {
    var u: int := tail[at] + 0x100 * tail[at + 1] + 0x1_0000 * tail[at + 2] + 0x100_0000 * tail[at + 3];
    if u >= 0x8000_0000 then u - 0x1_0000_0000 else u
  }

  lemma ValueRoundTrip(tail: seq<nat>, v: int)
    requires IsInt32(v)
    ensures ReadValue(tail + ValueBytes(v), |tail|) == v
  {
    var u: nat := if v < 0 then v + 0x1_0000_0000 else v;
    var a := u / 0x100;
    var b := a / 0x100;
    assert b == u / 0x1_0000;
    assert b / 0x100 == u / 0x100_0000;
    assert u == 0x100 * a + u % 256 && a == 0x100 * b + a % 256 && b == 0x100 * (b / 0x100) + b % 256;
    assert b / 0x100 < 256;
  }

  lemma ReadLonger(tail: seq<nat>, tail': seq<nat>, at: nat)
    requires at + 4 <= |tail| && tail <= tail'
    ensures ReadValue(tail', at) == ReadValue(tail, at)
  {
    assert forall i :: 0 <= i < |tail| ==> tail'[i] == tail[i];
  }

  // Suffixes.

  function Rest(r: KeyRec): Key
    requires r.pos <= |r.text|
  {
    r.text[r.pos..]
  }

  predicate IsSuffix(a: Key, b: Key) {
    |a| <= |b| && b[|b| - |a|..] == a
  }

  /** The `i`-th byte from the end, or the terminator before the first one. */
  function RKey(k: Key, i: nat): nat
    requires i <= |k|
  {
    if i != |k| then k[|k| - i - 1] else 0
  }

  /** `is_suffix_of` */
  method IsSuffixOf(a: Key, b: Key) returns (r: bool)
    requires IsText(a) && IsText(b)
    ensures r <==> IsSuffix(a, b)
  {
    var i := 0;
    while RKey(a, i) != 0 && RKey(a, i) == RKey(b, i)
      invariant 0 <= i <= |a| && i <= |b| && a[|a| - i..] == b[|b| - i..]
      decreases |a| - i
    {
      assert a[|a| - (i + 1)..] == [a[|a| - i - 1]] + a[|a| - i..];
      assert b[|b| - (i + 1)..] == [b[|b| - i - 1]] + b[|b| - i..];
      i := i + 1;
    }
    r := RKey(a, i) == 0;
    if i < |a| { SuffixByte(a, b, i); }
  }

  lemma SuffixByte(a: Key, b: Key, i: nat)
    requires i < |a| && i <= |b|
    ensures IsSuffix(a, b) ==> i < |b| && a[|a| - i - 1] == b[|b| - i - 1]
  {
    if IsSuffix(a, b) {
      assert b[|b| - |a|..][|a| - i - 1] == b[|b| - i - 1];
    }
  }

  /** Reversed rests in decreasing order: a rest comes after every rest that ends in it. */
  predicate Before(a: Key, b: Key)
    decreases |a|
  {
    a != [] && (b == [] || a[|a| - 1] > b[|b| - 1] || (a[|a| - 1] == b[|b| - 1] && Before(a[..|a| - 1], b[..|b| - 1])))
  }

  /** The comparison the sort is given. */
  method ComesBefore(a: Key, b: Key) returns (r: bool)
    requires IsText(a) && IsText(b)
    ensures r <==> Before(a, b)
  {
    var i: nat := 0;
    assert a[..|a| - 0] == a && b[..|b| - 0] == b;
    while RKey(a, i) != 0 && RKey(a, i) == RKey(b, i)
      invariant i <= |a| && i <= |b| && (Before(a, b) <==> Before(a[..|a| - i], b[..|b| - i]))
      decreases |a| - i
    {
      assert a[..|a| - i][..|a| - i - 1] == a[..|a| - i - 1];
      assert b[..|b| - i][..|b| - i - 1] == b[..|b| - i - 1];
      i := i + 1;
    }
    r := RKey(a, i) > RKey(b, i);
  }

  // The comparison is a strict order in which different rests can always be compared.

  lemma {:induction false} BeforeOrders(a: Key, b: Key)
    ensures !(Before(a, b) && Before(b, a))
    ensures Before(a, b) || Before(b, a) <==> a != b
    decreases |a|
  {
    if a != [] && b != [] && a[|a| - 1] == b[|b| - 1] {
      BeforeOrders(a[..|a| - 1], b[..|b| - 1]);
      assert a == a[..|a| - 1] + [a[|a| - 1]] && b == b[..|b| - 1] + [b[|b| - 1]];
    }
  }

  lemma {:induction false} BeforeTransitive(a: Key, b: Key, c: Key)
    requires Before(a, b) && Before(b, c)
    ensures Before(a, c)
    decreases |a|
  {
    if c != [] && a[|a| - 1] == b[|b| - 1] == c[|c| - 1] {
      BeforeTransitive(a[..|a| - 1], b[..|b| - 1], c[..|c| - 1]);
    }
  }

  lemma DifferentFronts(a: Key, b: Key)
    requires a != [] && b != [] && a != b && a[|a| - 1] == b[|b| - 1]
    ensures a[..|a| - 1] != b[..|b| - 1]
  {
    assert a == a[..|a| - 1] + [a[|a| - 1]] && b == b[..|b| - 1] + [b[|b| - 1]];
  }

  /** A suffix comes after the longer rest. */
  lemma {:induction false} SuffixComesAfter(a: Key, b: Key)
    requires IsSuffix(a, b) && a != b
    ensures Before(b, a)
    decreases |a|
  {
    if a != [] {
      assert b[|b| - |a|..][|a| - 1] == b[|b| - 1];
      assert b[..|b| - 1][|b| - |a|..] == a[..|a| - 1];
      DifferentFronts(a, b);
      SuffixComesAfter(a[..|a| - 1], b[..|b| - 1]);
    }
  }

  /** What lies between a rest and a suffix of it has the same suffix. */
  lemma {:induction false} BetweenSuffixes(a: Key, b: Key, c: Key)
    requires IsSuffix(a, b) && !Before(c, b) && !Before(a, c)
    ensures IsSuffix(a, c)
    decreases |a|
  {
    if a != [] {
      assert b[|b| - |a|..][|a| - 1] == b[|b| - 1];
      assert b[..|b| - 1][|b| - |a|..] == a[..|a| - 1];
      if c == [] {
      } else {
        BetweenSuffixes(a[..|a| - 1], b[..|b| - 1], c[..|c| - 1]);
        assert c == c[..|c| - 1] + [c[|c| - 1]] && a == a[..|a| - 1] + [a[|a| - 1]];
        assert c[|c| - |a|..] == c[..|c| - 1][|c| - |a|..] + [c[|c| - 1]];
      }
    }
  }

  lemma SuffixTransitive(a: Key, b: Key, c: Key)
    requires IsSuffix(a, b) && IsSuffix(b, c)
    ensures IsSuffix(a, c)
  {
    assert c[|c| - |a|..] == c[|c| - |b|..][|b| - |a|..];
  }

  // Sorting.

  predicate HasRests(keys: seq<KeyRec>) {
    forall i :: 0 <= i < |keys| ==> keys[i].pos <= |keys[i].text|
  }

  /** Puts a key before the keys that do not come before it. */
  function Inserted(r: KeyRec, s: seq<KeyRec>): (t: seq<KeyRec>)
    requires r.pos <= |r.text| && HasRests(s)
    ensures HasRests(t) && |t| == |s| + 1 && multiset(t) == multiset(s) + multiset{r}
  {
    if s == [] then [r]
    else if Before(Rest(s[0]), Rest(r)) then
      assert s == [s[0]] + s[1..];
      [s[0]] + Inserted(r, s[1..])
    else [r] + s
  }

  /** The result of a stable sort. */
  function StableSorted(keys: seq<KeyRec>): (t: seq<KeyRec>)
    requires HasRests(keys)
    ensures HasRests(t) && |t| == |keys| && multiset(t) == multiset(keys)
  {
    if keys == [] then []
    else
      assert keys == [keys[0]] + keys[1..];
      Inserted(keys[0], StableSorted(keys[1..]))
  }

  ghost predicate Ordered(s: seq<KeyRec>)
    requires HasRests(s)
  {
    forall i, j :: 0 <= i < j < |s| ==> !Before(Rest(s[j]), Rest(s[i]))
  }

  lemma {:induction false} InsertedOrdered(r: KeyRec, s: seq<KeyRec>)
    requires r.pos <= |r.text| && HasRests(s) && Ordered(s)
    ensures Ordered(Inserted(r, s))
  {
    if s != [] {
      var t := Inserted(r, s);
      if Before(Rest(s[0]), Rest(r)) {
        InsertedOrdered(r, s[1..]);
        forall i, j | 0 <= i < j < |t| ensures !Before(Rest(t[j]), Rest(t[i])) {
          if i == 0 {
            var u := Inserted(r, s[1..]);
            assert t[j] == u[j - 1] && u[j - 1] in multiset(u);
            BeforeOrders(Rest(s[0]), Rest(r));
            assert t[j] == r || t[j] in s[1..];
          }
        }
      } else {
        forall i, j | 0 <= i < j < |t| ensures !Before(Rest(t[j]), Rest(t[i])) {
          if i == 0 && Before(Rest(t[j]), Rest(r)) {
            BeforeOrders(Rest(s[0]), Rest(r));
            BeforeOrders(Rest(t[j]), Rest(s[0]));
            if Rest(s[0]) != Rest(r) { BeforeTransitive(Rest(t[j]), Rest(r), Rest(s[0])); }
          }
        }
      }
    }
  }

  lemma {:induction false} SortedIsOrdered(keys: seq<KeyRec>)
    requires HasRests(keys)
    ensures Ordered(StableSorted(keys))
  {
    if keys != [] {
      SortedIsOrdered(keys[1..]);
      InsertedOrdered(keys[0], StableSorted(keys[1..]));
    }
  }

  /** The keys with the rest `k`, in their order. */
  function WithRest(s: seq<KeyRec>, k: Key): seq<KeyRec>
    requires HasRests(s)
  {
    if s == [] then [] else (if Rest(s[0]) == k then [s[0]] else []) + WithRest(s[1..], k)
  }

  lemma {:induction false} InsertedKeepsOrder(r: KeyRec, s: seq<KeyRec>, k: Key)
    requires r.pos <= |r.text| && HasRests(s)
    ensures WithRest(Inserted(r, s), k) == (if Rest(r) == k then [r] else []) + WithRest(s, k)
  {
    if s != [] && Before(Rest(s[0]), Rest(r)) {
      InsertedKeepsOrder(r, s[1..], k);
      BeforeOrders(Rest(s[0]), Rest(r));
      assert ([s[0]] + Inserted(r, s[1..]))[1..] == Inserted(r, s[1..]);
    } else {
      assert ([r] + s)[1..] == s;
    }
  }

  /** Keys with equal rests keep their order. */
  lemma {:induction false} SortIsStable(keys: seq<KeyRec>, k: Key)
    requires HasRests(keys)
    ensures WithRest(StableSorted(keys), k) == WithRest(keys, k)
  {
    if keys != [] {
      SortIsStable(keys[1..], k);
      InsertedKeepsOrder(keys[0], StableSorted(keys[1..]), k);
    }
  }

  /** In sorted order, a rest that is a suffix of any other one is a suffix of its predecessor:
      all that can be shared is found by looking back one step. */
  lemma SuffixesAreNeighbours(s: seq<KeyRec>, j: nat, i: nat)
    requires HasRests(s) && Ordered(s) && j < |s| && i < |s| && IsSuffix(Rest(s[i]), Rest(s[j]))
    requires j < i || Rest(s[i]) != Rest(s[j])
    ensures i > 0 && IsSuffix(Rest(s[i]), Rest(s[i - 1]))
  {
    hide Before, IsSuffix;
    if Rest(s[i]) != Rest(s[j]) { SuffixComesAfter(Rest(s[i]), Rest(s[j])); }
    if j < i - 1 { BetweenSuffixes(Rest(s[i]), Rest(s[j]), Rest(s[i - 1])); }
  }

  // What a leaf's unit says.

  ghost predicate StoredAt(tail: seq<nat>, at: nat, rest: Key) {
    at + |rest| < |tail| && tail[at..at + |rest|] == rest && tail[at + |rest|] == 0
  }

  /** The position behind the NUL of the rest. */
  function EndOf(u: Word, ids: nat, rest: Key): nat {
    Link(u, ids) + |rest| + 1
  }

  ghost predicate ValueIs(tail: seq<nat>, at: nat, value: int) {
    at + 4 <= |tail| && ReadValue(tail, at) == value
  }

  ghost predicate LinksRest(u: Word, tail: seq<nat>, ids: nat, rest: Key, value: int) {
    && IsLeaf(u) && StoredAt(tail, Link(u, ids), rest)
    && ValueIs(tail, EndOf(u, ids, rest) + 4 * ValueId(u, ids), value)
  }

  lemma LinksLonger(u: Word, tail: seq<nat>, tail': seq<nat>, ids: nat, rest: Key, value: int)
    requires LinksRest(u, tail, ids, rest, value) && tail <= tail'
    ensures LinksRest(u, tail', ids, rest, value)
  {
    hide IsLeaf, Link, ValueId, ReadValue;
    var l := Link(u, ids);
    assert tail'[l..l + |rest|] == tail[l..l + |rest|];
    ReadLonger(tail, tail', EndOf(u, ids, rest) + 4 * ValueId(u, ids));
  }

  /** The last rest that was stored, `top`, ends before `base`; the values follow. */
  ghost predicate GroupOk(tail: seq<nat>, base: nat, values: seq<int>, top: Key, ids: nat) {
    && |top| < base && StoredAt(tail, base - |top| - 1, top)
    && |tail| == base + 4 * |values| && |values| <= ids
    && forall j: nat :: j < |values| ==> ValueIs(tail, base + 4 * j, values[j])
  }

  /** A suffix of the stored rest is stored too. */
  lemma SuffixIsStored(tail: seq<nat>, base: nat, values: seq<int>, top: Key, ids: nat, rest: Key)
    requires GroupOk(tail, base, values, top, ids) && IsSuffix(rest, top)
    ensures |rest| < base && StoredAt(tail, base - |rest| - 1, rest)
  {
    var a := base - |top| - 1;
    var d := |top| - |rest|;
    assert tail[a + d..a + |top|] == tail[a..a + |top|][d..];
  }

  lemma NewGroup(tail: seq<nat>, rest: Key, ids: nat)
    ensures GroupOk(tail + rest + [0], |tail| + |rest| + 1, [], rest, ids)
  {
    var t := tail + rest + [0];
    assert t[|tail|..|tail| + |rest|] == rest;
  }

  lemma GroupGrows(tail: seq<nat>, base: nat, values: seq<int>, top: Key, ids: nat, v: int)
    requires GroupOk(tail, base, values, top, ids) && IsInt32(v) && |values| < ids
    ensures GroupOk(tail + ValueBytes(v), base, values + [v], top, ids)
    ensures ValueIs(tail + ValueBytes(v), base + 4 * |values|, v)
  {
    hide ReadValue, ValueBytes;
    var tail' := tail + ValueBytes(v);
    ValueRoundTrip(tail, v);
    var a := base - |top| - 1;
    assert tail'[a..a + |top|] == tail[a..a + |top|];
    forall j: nat | j < |values| + 1 ensures ValueIs(tail', base + 4 * j, (values + [v])[j]) {
      if j < |values| {
        assert ValueIs(tail, base + 4 * j, values[j]);
        ReadLonger(tail, tail', base + 4 * j);
      }
    }
  }

  /** All numbers behind the NUL are taken by other values. */
  ghost predicate Full(tail: seq<nat>, base: nat, ids: nat, value: int) {
    forall j: nat :: j < ids ==> Differs(tail, base + 4 * j, value)
  }

  ghost predicate Differs(tail: seq<nat>, at: nat, value: int) {
    at + 4 <= |tail| && ReadValue(tail, at) != value
  }

  lemma FullLonger(tail: seq<nat>, tail': seq<nat>, base: nat, ids: nat, value: int)
    requires Full(tail, base, ids, value) && tail <= tail'
    ensures Full(tail', base, ids, value)
  {
    hide ReadValue;
    forall j: nat | j < ids ensures Differs(tail', base + 4 * j, value) {
      assert Differs(tail, base + 4 * j, value);
      ReadLonger(tail, tail', base + 4 * j);
    }
  }

  lemma GroupIsFull(tail: seq<nat>, base: nat, values: seq<int>, top: Key, ids: nat, value: int)
    requires GroupOk(tail, base, values, top, ids) && |values| == ids && value !in values
    ensures Full(tail, base, ids, value)
  {
    hide ReadValue;
    forall j: nat | j < ids ensures Differs(tail, base + 4 * j, value) {
      assert ValueIs(tail, base + 4 * j, values[j]);
      assert values[j] in values;
    }
  }

  // How long the tail can become.

  /** The tail holds at most `n` bytes. */
  ghost predicate Bounded(tail: seq<nat>, n: nat) {
    |tail| <= n && forall i :: 0 <= i < |tail| ==> tail[i] < 256
  }

  /** Room for every key, its NUL and its value. */
  function TailSize(texts: seq<Key>): nat {
    if texts == [] then 0 else |texts[0]| + 5 + TailSize(texts[1..])
  }

  lemma {:induction false} TailSizeMore(texts: seq<Key>, k: Key)
    ensures TailSize(texts + [k]) == TailSize(texts) + |k| + 5
  {
    if texts != [] {
      assert (texts + [k])[0] == texts[0] && (texts + [k])[1..] == texts[1..] + [k];
      TailSizeMore(texts[1..], k);
    } else {
      assert [k][1..] == [];
    }
  }

  lemma FirstText(s: seq<KeyRec>)
    requires s != []
    ensures TailSize(Texts(s)) == |s[0].text| + 5 + TailSize(Texts(s[1..]))
  {
    assert Texts(s)[1..] == Texts(s[1..]);
  }

  lemma {:induction false} InsertedSize(r: KeyRec, s: seq<KeyRec>)
    requires r.pos <= |r.text| && HasRests(s)
    ensures TailSize(Texts(Inserted(r, s))) == |r.text| + 5 + TailSize(Texts(s))
  {
    hide TailSize, Texts, Before;
    var t := Inserted(r, s);
    FirstText(t);
    if s != [] && Before(Rest(s[0]), Rest(r)) {
      InsertedSize(r, s[1..]);
      FirstText(s);
      assert t[1..] == Inserted(r, s[1..]);
    } else {
      assert t[1..] == s;
    }
  }

  /** Sorting does not change the bound. */
  lemma {:induction false} SortedSize(keys: seq<KeyRec>)
    requires HasRests(keys)
    ensures TailSize(Texts(StableSorted(keys))) == TailSize(Texts(keys))
  {
    hide TailSize, Texts, Inserted;
    if keys != [] {
      SortedSize(keys[1..]);
      InsertedSize(keys[0], StableSorted(keys[1..]));
      FirstText(keys);
    }
  }

  lemma TailSizeSplit(keys: seq<KeyRec>, i: nat)
    requires i < |keys|
    ensures TailSize(Texts(keys[i..])) == |keys[i].text| + 5 + TailSize(Texts(keys[i + 1..]))
  {
    FirstText(keys[i..]);
    assert keys[i..][1..] == keys[i + 1..];
  }

  lemma RestBounded(tail: seq<nat>, rest: Key, n: nat)
    requires Bounded(tail, n) && IsText(rest)
    ensures Bounded(tail + rest + [0], n + |rest| + 1)
  {
    assert forall i :: 0 <= i < |rest| ==> rest[i] < 256;
  }

  lemma ValueBounded(tail: seq<nat>, v: int, n: nat)
    requires Bounded(tail, n) && IsInt32(v)
    ensures Bounded(tail + ValueBytes(v), n + 4)
  {
  }

  // Arranging the rests of all keys.

  /** Every key has a leaf of its own. */
  ghost predicate LeavesReady(units: seq<Word>, keys: seq<KeyRec>) {
    && HasRests(keys) && Distinct(keys)
    && forall i :: 0 <= i < |keys| ==> LeafReady(units, keys[i])
  }

  ghost predicate LeafReady(units: seq<Word>, r: KeyRec) {
    r.pos <= |r.text| && IsText(r.text) && IsInt32(r.value) && r.index < |units| && IsLeaf(units[r.index])
  }

  ghost predicate Distinct(keys: seq<KeyRec>) {
    forall i, j :: 0 <= i < j < |keys| ==> keys[i].index != keys[j].index
  }

  lemma {:induction false} InsertedDistinct(r: KeyRec, s: seq<KeyRec>)
    requires r.pos <= |r.text| && HasRests(s) && Distinct(s) && forall i :: 0 <= i < |s| ==> s[i].index != r.index
    ensures Distinct(Inserted(r, s))
  {
    hide Before;
    if s != [] && Before(Rest(s[0]), Rest(r)) {
      var u := Inserted(r, s[1..]);
      InsertedDistinct(r, s[1..]);
      forall j | 0 <= j < |u| ensures u[j].index != s[0].index {
        assert u[j] in multiset(u);
        assert u[j] == r || u[j] in s[1..];
      }
    }
  }

  lemma {:induction false} SortedDistinct(keys: seq<KeyRec>)
    requires HasRests(keys) && Distinct(keys)
    ensures Distinct(StableSorted(keys))
  {
    hide Inserted;
    if keys != [] {
      SortedDistinct(keys[1..]);
      var s := StableSorted(keys[1..]);
      forall i | 0 <= i < |s| ensures s[i].index != keys[0].index {
        assert s[i] in multiset(s);
        assert s[i] in keys[1..];
      }
      InsertedDistinct(keys[0], s);
    }
  }

  lemma SortedReady(units: seq<Word>, keys: seq<KeyRec>)
    requires LeavesReady(units, keys)
    ensures LeavesReady(units, StableSorted(keys))
    ensures forall r :: r in StableSorted(keys) <==> r in keys
  {
    hide StableSorted, IsLeaf;
    SortedDistinct(keys);
    SortedMembers(keys);
    var s := StableSorted(keys);
    forall i | 0 <= i < |s| ensures LeafReady(units, s[i]) {
      assert s[i] in keys;
    }
  }

  lemma SortedMembers(keys: seq<KeyRec>)
    requires HasRests(keys)
    ensures forall r :: r in StableSorted(keys) <==> r in keys
  {
    hide StableSorted;
    forall r ensures r in StableSorted(keys) <==> r in keys {
      assert r in StableSorted(keys) <==> r in multiset(StableSorted(keys));
      assert r in keys <==> r in multiset(keys);
    }
  }

  ghost predicate KeyLinked(units: seq<Word>, tail: seq<nat>, ids: nat, r: KeyRec) {
    r.pos <= |r.text| && r.index < |units| && LinksRest(units[r.index], tail, ids, Rest(r), r.value)
  }

  function KeyEnd(units: seq<Word>, ids: nat, r: KeyRec): nat
    requires r.pos <= |r.text| && r.index < |units|
  {
    EndOf(units[r.index], ids, Rest(r))
  }

  /** A key whose rest is a suffix of the one before it shares its bytes, unless all numbers
      there are taken by other values. */
  ghost predicate Shares(units: seq<Word>, tail: seq<nat>, ids: nat, r: KeyRec, before: KeyRec) {
    && r.pos <= |r.text| && before.pos <= |before.text| && r.index < |units| && before.index < |units|
    && (IsSuffix(Rest(r), Rest(before)) ==>
          KeyEnd(units, ids, r) == KeyEnd(units, ids, before) || Full(tail, KeyEnd(units, ids, before), ids, r.value))
  }

  /** The first `i` keys are linked, and those that can share do. */
  ghost predicate LinkedUpTo(units: seq<Word>, tail: seq<nat>, ids: nat, keys: seq<KeyRec>, i: nat) {
    && i <= |keys|
    && (forall k :: 0 <= k < i ==> KeyLinked(units, tail, ids, keys[k]))
    && (forall k :: 0 < k < i ==> Shares(units, tail, ids, keys[k], keys[k - 1]))
  }

  /** The group at the end of the tail when `i` keys have been linked; `top` is its longest rest. */
  ghost predicate LastGroup(units: seq<Word>, tail: seq<nat>, ids: nat, keys: seq<KeyRec>, i: nat, base: nat,
                            values: seq<int>, top: Key) {
    if i == 0 then base == 0 && values == [] && tail == []
    else
      && i <= |keys| && GroupOk(tail, base, values, top, ids)
      && KeyLinked(units, tail, ids, keys[i - 1])
      && KeyEnd(units, ids, keys[i - 1]) == base && IsSuffix(Rest(keys[i - 1]), top)
  }

  lemma LeafRewritten(units: seq<Word>, ids: nat, r: KeyRec, id: nat, link: nat, tail: seq<nat>, base: nat)
    requires LeafReady(units, r) && IsIds(ids) && id < ids && link < LinkMax(ids) && link + |Rest(r)| + 1 == base
    requires StoredAt(tail, link, Rest(r)) && ValueIs(tail, base + 4 * id, r.value)
    ensures var units' := units[r.index := WithTail(units[r.index], ids, id, link)];
      KeyLinked(units', tail, ids, r) && KeyEnd(units', ids, r) == base
  {
    hide IsLeaf, Link, ValueId, WithTail, LinkMax;
    TailRoundTrip(units[r.index], ids, id, link);
  }

  /** Linking the key at `i` leaves the others as they are. */
  lemma LinkedOneMore(units: seq<Word>, units': seq<Word>, tail: seq<nat>, tail': seq<nat>, ids: nat, keys: seq<KeyRec>,
                      i: nat)
    requires LeavesReady(units, keys) && i < |keys| && LinkedUpTo(units, tail, ids, keys, i) && tail <= tail'
    requires |units'| == |units| && forall q :: 0 <= q < |units| && q != keys[i].index ==> units'[q] == units[q]
    requires KeyLinked(units', tail', ids, keys[i])
    requires i > 0 ==> Shares(units', tail', ids, keys[i], keys[i - 1])
    ensures LeavesReady(units', keys) && LinkedUpTo(units', tail', ids, keys, i + 1)
  {
    hide IsLeaf, Link, ValueId, LinksRest, Full, IsSuffix;
    forall k | 0 <= k < |keys| ensures LeafReady(units', keys[k]) {
      assert LeafReady(units, keys[k]);
      if k == i { LinkedIsLeaf(units', tail', ids, keys[i]); }
    }
    forall k | 0 <= k < i + 1 ensures KeyLinked(units', tail', ids, keys[k]) {
      if k < i {
        assert KeyLinked(units, tail, ids, keys[k]);
        LinksLonger(units[keys[k].index], tail, tail', ids, Rest(keys[k]), keys[k].value);
      }
    }
    forall k | 0 < k < i + 1 ensures Shares(units', tail', ids, keys[k], keys[k - 1]) {
      if k < i {
        assert Shares(units, tail, ids, keys[k], keys[k - 1]);
        var base := KeyEnd(units, ids, keys[k - 1]);
        if Full(tail, base, ids, keys[k].value) { FullLonger(tail, tail', base, ids, keys[k].value); }
      }
    }
  }

  lemma LinkedIsLeaf(units: seq<Word>, tail: seq<nat>, ids: nat, r: KeyRec)
    requires KeyLinked(units, tail, ids, r)
    ensures r.index < |units| && IsLeaf(units[r.index])
  {
    hide IsLeaf;
  }

  lemma ReadyKey(units: seq<Word>, keys: seq<KeyRec>, i: nat)
    requires LeavesReady(units, keys) && i < |keys|
    ensures LeafReady(units, keys[i]) && keys[i].pos <= |keys[i].text| && IsText(Rest(keys[i]))
    ensures keys[i].index < |units| && IsInt32(keys[i].value)
  {
    hide IsLeaf;
    assert LeafReady(units, keys[i]);
  }

  lemma ReadyRests(units: seq<Word>, keys: seq<KeyRec>)
    requires LeavesReady(units, keys)
    ensures HasRests(keys)
  {
  }

  lemma GroupLength(tail: seq<nat>, base: nat, values: seq<int>, top: Key, ids: nat)
    requires GroupOk(tail, base, values, top, ids)
    ensures |tail| == base + 4 * |values| && |values| <= ids
  {
  }

  lemma GroupValue(tail: seq<nat>, base: nat, values: seq<int>, top: Key, ids: nat, id: nat)
    requires GroupOk(tail, base, values, top, ids) && id < |values|
    ensures ValueIs(tail, base + 4 * id, values[id])
  {
    hide ReadValue;
  }

  lemma SelfSuffix(rest: Key)
    ensures IsSuffix(rest, rest)
  {
  }

  lemma ShareOrFull(units0: seq<Word>, units: seq<Word>, tail0: seq<nat>, tail: seq<nat>, ids: nat, keys: seq<KeyRec>,
                    i: nat, base: nat, base': nat)
    requires LeavesReady(units0, keys) && 0 < i < |keys| && |units| == |units0| && tail0 <= tail
    requires forall q :: 0 <= q < |units| && q != keys[i].index ==> units[q] == units0[q]
    requires keys[i].pos <= |keys[i].text| && keys[i - 1].pos <= |keys[i - 1].text|
    requires keys[i].index < |units| && KeyEnd(units, ids, keys[i]) == base'
    requires keys[i - 1].index < |units| && KeyEnd(units0, ids, keys[i - 1]) == base
    requires IsSuffix(Rest(keys[i]), Rest(keys[i - 1])) ==> base' == base || Full(tail0, base, ids, keys[i].value)
    ensures Shares(units, tail, ids, keys[i], keys[i - 1])
  {
    hide IsSuffix, Link, Full, LeafReady;
    if Full(tail0, base, ids, keys[i].value) { FullLonger(tail0, tail, base, ids, keys[i].value); }
  }

  lemma NothingLinked(units: seq<Word>, tail: seq<nat>, ids: nat, keys: seq<KeyRec>)
    requires tail == []
    ensures LinkedUpTo(units, tail, ids, keys, 0) && LastGroup(units, tail, ids, keys, 0, 0, [], [])
  {
  }

  lemma AllLinked(units: seq<Word>, tail: seq<nat>, ids: nat, keys: seq<KeyRec>)
    requires LinkedUpTo(units, tail, ids, keys, |keys|)
    ensures forall r :: r in keys ==> KeyLinked(units, tail, ids, r)
    ensures forall k :: 0 < k < |keys| ==> Shares(units, tail, ids, keys[k], keys[k - 1])
  {
    hide KeyLinked, Shares;
  }
}
