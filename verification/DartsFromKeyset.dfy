/** Building the array straight from sorted keys: the value of a key is the number of its first
    occurrence. */
module DartsFromKeyset {
  import opened Bits
  import opened DartsUnit
  import opened Language
  import opened Layout
  import opened FreeRing
  import opened DartsBuilder
  import opened DartsPlace

  datatype Outcome = Built | NulInKey | WrongOrder | TooLarge

  /** The first key of `keys[begin..end]` that ends with `k` after `d` bytes, or `end`. */
  function FirstWith(keys: seq<Key>, begin: nat, end: nat, d: nat, k: Key): (r: nat)
    requires begin <= end <= |keys| && AtLeast(keys, begin, end, d)
    ensures begin <= r <= end && (r < end ==> keys[r][d..] == k)
    ensures forall i :: begin <= i < r ==> keys[i][d..] != k
    decreases end - begin
  {
    if begin == end then end else if keys[begin][d..] == k then begin else FirstWith(keys, begin + 1, end, d, k)
  }

  predicate AtLeast(keys: seq<Key>, begin: nat, end: nat, d: nat)
    requires end <= |keys|
  {
    forall i :: begin <= i < end ==> d <= |keys[i]|
  }

  /** What follows after `d` bytes in `keys[begin..end]`. */
  ghost function RangeLang(keys: seq<Key>, begin: nat, end: nat, d: nat): Lang
    requires begin <= end <= |keys| && AtLeast(keys, begin, end, d)
  {
    imap k: Key | FirstWith(keys, begin, end, d, k) < end :: FirstWith(keys, begin, end, d, k)
  }

  /** Key after key the rests do not get smaller. */
  ghost predicate Ordered(keys: seq<Key>, begin: nat, end: nat, d: nat)
    requires begin <= end <= |keys| && AtLeast(keys, begin, end, d)
  {
    forall i, j :: begin <= i < j < end ==> !Less(keys[j][d..], keys[i][d..])
  }

  ghost predicate BytesOrdered(keys: seq<Key>, begin: nat, end: nat, d: nat)
    requires begin <= end <= |keys| && AtLeast(keys, begin, end, d)
  {
    forall i, j :: begin <= i < j < end ==> ByteAt(keys[i], d) <= ByteAt(keys[j], d)
  }

  ghost predicate AreTexts(keys: seq<Key>) {
    |keys| <= TOP && forall i :: 0 <= i < |keys| ==> IsText(keys[i])
  }

  /** The keys as the caller gives them; `keys` are their parts in front of the first NUL. */
  ghost predicate Cuts(keyset: seq<Key>, keys: seq<Key>) {
    |keyset| == |keys| && forall i :: 0 <= i < |keys| ==> IsBytes(keyset[i]) && keys[i] == Cut(keyset[i])
  }

  ghost predicate NoNul(keyset: seq<Key>, keys: seq<Key>, begin: nat, end: nat)
    requires end <= |keys| == |keyset|
  {
    forall i :: begin <= i < end ==> keyset[i] == keys[i]
  }

  /** Up to its end, and there, a cut key has the bytes of the given one. */
  lemma GivenByte(keyset: seq<Key>, keys: seq<Key>, i: nat, d: nat)
    requires Cuts(keyset, keys) && i < |keys| && d <= |keys[i]|
    ensures d <= |keyset[i]| && ByteAt(keyset[i], d) == ByteAt(keys[i], d)
    ensures ByteAt(keys[i], d) == 0 ==> d == |keys[i]| && (d == |keyset[i]| <==> keyset[i] == keys[i])
  {
    CutIsText(keyset[i]);
  }

  /** The keys `rb..re` are those of the range whose byte at `d` is `c`. */
  ghost predicate IsRun(keys: seq<Key>, begin: nat, end: nat, d: nat, rb: nat, re: nat, c: nat)
    requires begin <= end <= |keys| && AtLeast(keys, begin, end, d)
  {
    begin <= rb <= re <= end && forall i :: begin <= i < end ==> (ByteAt(keys[i], d) == c <==> rb <= i < re)
  }

  lemma RestOfKey(key: Key, d: nat, c: nat, k: Key)
    requires d <= |key| && IsText(key) && c != 0
    ensures key[d..] == [c] + k <==> ByteAt(key, d) == c && key[d + 1..] == k
    ensures ByteAt(key, d) == c ==> d < |key| && key[d..] == [c] + key[d + 1..]
  {
    if key[d..] == [c] + k {
      assert key[d..][0] == c && key[d..][1..] == k;
    }
  }

  /** The language of a run is what follows its byte. */
  lemma RunLang(keys: seq<Key>, begin: nat, end: nat, d: nat, rb: nat, re: nat, c: nat)
    requires begin <= end <= |keys| && AtLeast(keys, begin, end, d) && AreTexts(keys)
    requires IsRun(keys, begin, end, d, rb, re, c) && c != 0
    ensures AtLeast(keys, rb, re, d + 1)
    ensures RangeLang(keys, rb, re, d + 1) == After(RangeLang(keys, begin, end, d), c)
  {
    forall i | rb <= i < re ensures d + 1 <= |keys[i]| {
      RestOfKey(keys[i], d, c, []);
    }
    forall k: Key
      ensures var r, s := FirstWith(keys, rb, re, d + 1, k), FirstWith(keys, begin, end, d, [c] + k);
        if r < re then s == r else s == end
    {
      RunFirst(keys, begin, end, d, rb, re, c, k);
    }
  }

  lemma RunFirst(keys: seq<Key>, begin: nat, end: nat, d: nat, rb: nat, re: nat, c: nat, k: Key)
    requires begin <= end <= |keys| && AtLeast(keys, begin, end, d) && AreTexts(keys)
    requires IsRun(keys, begin, end, d, rb, re, c) && c != 0 && AtLeast(keys, rb, re, d + 1)
    ensures var r, s := FirstWith(keys, rb, re, d + 1, k), FirstWith(keys, begin, end, d, [c] + k);
      if r < re then s == r else s == end
  {
    hide FirstWith, IsText;
    forall i | begin <= i < end ensures keys[i][d..] == [c] + k <==> rb <= i < re && keys[i][d + 1..] == k {
      RestOfKey(keys[i], d, c, k);
    }
  }

  /** A range of keys is a node: its labels are the bytes that occur at `d`. */
  lemma RangeIsNode(keys: seq<Key>, begin: nat, end: nat, d: nat)
    requires begin < end <= |keys| && AtLeast(keys, begin, end, d) && AreTexts(keys)
    ensures IsNode(RangeLang(keys, begin, end, d))
  {
    hide FirstWith, IsText;
    var lang := RangeLang(keys, begin, end, d);
    assert keys[begin][d..] in lang;
    forall k: Key | k in lang ensures IsText(k) && lang[k] < 0x8000_0000 {
      var i := FirstWith(keys, begin, end, d, k);
      RestIsText(keys[i], d);
    }
  }

  lemma RestIsText(key: Key, d: nat)
    requires IsText(key) && d <= |key|
    ensures IsText(key[d..])
  {
  }

  ghost predicate Occurs(keys: seq<Key>, begin: nat, end: nat, d: nat, c: nat)
    requires begin <= end <= |keys| && AtLeast(keys, begin, end, d)
  {
    exists i :: begin <= i < end && ByteAt(keys[i], d) == c
  }

  lemma RangeLabels(keys: seq<Key>, begin: nat, end: nat, d: nat, c: nat)
    requires begin < end <= |keys| && AtLeast(keys, begin, end, d) && AreTexts(keys)
    ensures HasLabel(RangeLang(keys, begin, end, d), c) <==> Occurs(keys, begin, end, d, c)
  {
    hide FirstWith, IsText;
    var lang := RangeLang(keys, begin, end, d);
    if Occurs(keys, begin, end, d, c) {
      var i :| begin <= i < end && ByteAt(keys[i], d) == c;
      assert keys[i][d..] in lang;
      if c == 0 {
        EndOfKey(keys[i], d);
      } else {
        RestOfKey(keys[i], d, c, []);
      }
    }
    if HasLabel(lang, c) {
      if c == 0 {
        EndOfKey(keys[FirstWith(keys, begin, end, d, [])], d);
      } else {
        var k: Key :| [c] + k in lang;
        RestOfKey(keys[FirstWith(keys, begin, end, d, [c] + k)], d, c, k);
      }
    }
  }

  lemma EndOfKey(key: Key, d: nat)
    requires IsText(key) && d <= |key|
    ensures ByteAt(key, d) == 0 <==> key[d..] == []
    ensures ByteAt(key, d) < 256
  {
  }

  /** The labels of a range in order, and the number of the first key that ends there. */
  method CollectLabels(b: DoubleArrayBuilder, keyset: seq<Key>, ghost keys: seq<Key>, begin: nat, end: nat, d: nat)
    returns (outcome: Outcome, value: int)
    requires begin < end <= |keys| && AtLeast(keys, begin, end, d) && AreTexts(keys) && Cuts(keyset, keys)
    modifies b`labels
    ensures outcome in {Built, NulInKey, WrongOrder}
    ensures outcome.WrongOrder? ==> !Ordered(keys, begin, end, d)
    ensures outcome.NulInKey? ==> !NoNul(keyset, keys, begin, end)
    ensures outcome.Built? ==> BytesOrdered(keys, begin, end, d) && -1 <= value < TOP
    ensures outcome.Built? ==> Describes(b.labels, if value < 0 then 0 else value, RangeLang(keys, begin, end, d))
    ensures outcome.Built? ==> EndsGiven(keyset, keys, begin, end, d)
  {
    hide IsText, HasLabel, RangeLang, Ordered, Cuts, NoNul, Describes, Occurs, FirstWith, EndsGiven, Listed;
    CutSizes(keyset, keys);
    NothingListed(keyset, keys, begin, d);
    b.labels := [];
    value := -1;
    var i := begin;
    while i < end
      invariant begin <= i <= end && -1 <= value < TOP
      invariant value == if Occurs(keys, begin, i, d, 0) then FirstWith(keys, begin, end, d, []) else -1
      invariant BytesOrdered(keys, begin, i, d)
      invariant Listed(b.labels, keys, begin, i, d) && EndsGiven(keyset, keys, begin, i, d)
    {
      GivenByte(keyset, keys, i, d);
      LastListed(b.labels, keys, begin, i, d);
      var byte := ByteAt(keyset[i], d);
      if byte == 0 && d < |keyset[i]| {
        NulFound(keyset, keys, begin, end, i);
        return NulInKey, value;
      }
      OccursNext(keys, begin, i, d, 0);
      EndGiven(keyset, keys, begin, i, d);
      if byte == 0 && value == -1 {
        FirstEnd(keys, begin, end, d, i);
        value := i;
      }
      if i > begin && byte < b.labels[|b.labels| - 1] {
        Decreasing(keys, begin, end, d, i);
        return WrongOrder, value;
      }
      ListMore(b.labels, keys, begin, i, d);
      if b.labels == [] || byte != b.labels[|b.labels| - 1] {
        b.labels := b.labels + [byte];
      }
      i := i + 1;
    }
    outcome := Built;
    LabelsDescribe(keys, begin, end, d, b.labels, value);
  }

  /** The labels of the keys before `i`. */
  ghost predicate Listed(labels: seq<nat>, keys: seq<Key>, begin: nat, i: nat, d: nat)
    requires begin <= i <= |keys| && AtLeast(keys, begin, i, d)
  {
    && (labels == [] <==> i == begin) && Increasing(labels)
    && (labels != [] ==> labels[|labels| - 1] == ByteAt(keys[i - 1], d))
    && forall c: nat :: c in labels <==> Occurs(keys, begin, i, d, c)
  }

  lemma LastListed(labels: seq<nat>, keys: seq<Key>, begin: nat, i: nat, d: nat)
    requires begin <= i <= |keys| && AtLeast(keys, begin, i, d) && Listed(labels, keys, begin, i, d)
    ensures labels == [] <==> i == begin
    ensures labels != [] ==> labels[|labels| - 1] == ByteAt(keys[i - 1], d)
  {
  }

  lemma ListMore(labels: seq<nat>, keys: seq<Key>, begin: nat, i: nat, d: nat)
    requires begin <= i < |keys| && AtLeast(keys, begin, i + 1, d) && Listed(labels, keys, begin, i, d)
    requires labels == [] || labels[|labels| - 1] <= ByteAt(keys[i], d)
    ensures var byte := ByteAt(keys[i], d);
      Listed(if labels == [] || byte != labels[|labels| - 1] then labels + [byte] else labels, keys, begin, i + 1, d)
  {
    hide Occurs;
    var byte := ByteAt(keys[i], d);
    var labels' := if labels == [] || byte != labels[|labels| - 1] then labels + [byte] else labels;
    assert labels != [] ==> labels[|labels| - 1] in labels;
    forall c: nat ensures c in labels' <==> Occurs(keys, begin, i + 1, d, c) {
      OccursNext(keys, begin, i, d, c);
      assert c in labels + [byte] <==> c in labels || c == byte;
    }
  }

  /** Keys that end here are given without a NUL. */
  ghost predicate EndsGiven(keyset: seq<Key>, keys: seq<Key>, begin: nat, end: nat, d: nat)
    requires begin <= end <= |keys| == |keyset| && AtLeast(keys, begin, end, d)
  {
    forall i :: begin <= i < end && ByteAt(keys[i], d) == 0 ==> keyset[i] == keys[i]
  }

  lemma EndGiven(keyset: seq<Key>, keys: seq<Key>, begin: nat, i: nat, d: nat)
    requires begin <= i < |keys| == |keyset| && AtLeast(keys, begin, i + 1, d) && EndsGiven(keyset, keys, begin, i, d)
    requires ByteAt(keys[i], d) == 0 ==> keyset[i] == keys[i]
    ensures EndsGiven(keyset, keys, begin, i + 1, d)
  {
  }

  lemma NulFound(keyset: seq<Key>, keys: seq<Key>, begin: nat, end: nat, i: nat)
    requires begin <= i < end <= |keys| == |keyset| && keyset[i] != keys[i]
    ensures !NoNul(keyset, keys, begin, end)
  {
  }

  lemma NothingListed(keyset: seq<Key>, keys: seq<Key>, begin: nat, d: nat)
    requires begin <= |keys| == |keyset|
    ensures EndsGiven(keyset, keys, begin, begin, d) && Listed([], keys, begin, begin, d)
    ensures !Occurs(keys, begin, begin, d, 0)
  {
  }

  lemma OccursNext(keys: seq<Key>, begin: nat, i: nat, d: nat, c: nat)
    requires begin <= i < |keys| && AtLeast(keys, begin, i + 1, d)
    ensures Occurs(keys, begin, i + 1, d, c) <==> Occurs(keys, begin, i, d, c) || c == ByteAt(keys[i], d)
  {
    if Occurs(keys, begin, i, d, c) {
      var j :| begin <= j < i && ByteAt(keys[j], d) == c;
      assert begin <= j < i + 1;
    }
    assert begin <= i < i + 1;
  }

  lemma FirstEnd(keys: seq<Key>, begin: nat, end: nat, d: nat, i: nat)
    requires begin <= i < end <= |keys| && AtLeast(keys, begin, end, d) && AreTexts(keys)
    requires !Occurs(keys, begin, i, d, 0) && ByteAt(keys[i], d) == 0
    ensures FirstWith(keys, begin, end, d, []) == i
  {
    hide FirstWith, IsText;
    EndOfKey(keys[i], d);
    forall j | begin <= j < i ensures keys[j][d..] != [] {
      EndOfKey(keys[j], d);
    }
  }

  lemma Decreasing(keys: seq<Key>, begin: nat, end: nat, d: nat, i: nat)
    requires begin < i < end <= |keys| && AtLeast(keys, begin, end, d) && AreTexts(keys)
    requires ByteAt(keys[i], d) < ByteAt(keys[i - 1], d)
    ensures !Ordered(keys, begin, end, d)
  {
    hide IsText;
    ByteDecides(keys[i], keys[i - 1], d);
  }

  /** The byte at `d` decides how the rests compare. */
  lemma ByteDecides(a: Key, b: Key, d: nat)
    requires IsText(a) && IsText(b) && d <= |a| && d <= |b|
    ensures ByteAt(a, d) < ByteAt(b, d) ==> Less(a[d..], b[d..]) && !Less(b[d..], a[d..])
    ensures ByteAt(a, d) == ByteAt(b, d) != 0
      ==> d < |a| && d < |b| && (Less(a[d..], b[d..]) <==> Less(a[d + 1..], b[d + 1..]))
    ensures ByteAt(a, d) == ByteAt(b, d) == 0 ==> a[d..] == b[d..] == []
  {
    RestIsText(a, d);
    RestIsText(b, d);
    if ByteAt(a, d) < ByteAt(b, d) {
      LessAt(a[d..], b[d..], 0);
    } else if ByteAt(a, d) == ByteAt(b, d) != 0 {
      assert a[d..][0] == b[d..][0] && a[d..][1..] == a[d + 1..] && b[d..][1..] == b[d + 1..];
    }
  }

  lemma LabelsDescribe(keys: seq<Key>, begin: nat, end: nat, d: nat, labels: seq<nat>, value: int)
    requires begin < end <= |keys| && AtLeast(keys, begin, end, d) && AreTexts(keys)
    requires Listed(labels, keys, begin, end, d) && -1 <= value < TOP
    requires value == if Occurs(keys, begin, end, d, 0) then FirstWith(keys, begin, end, d, []) else -1
    ensures Describes(labels, if value < 0 then 0 else value, RangeLang(keys, begin, end, d))
  {
    hide IsText, HasLabel, FirstWith;
    var lang := RangeLang(keys, begin, end, d);
    forall c: nat ensures HasLabel(lang, c) <==> c in labels {
      RangeLabels(keys, begin, end, d, c);
    }
    forall i | 0 <= i < |labels| ensures labels[i] < 256 {
      assert Occurs(keys, begin, end, d, labels[i]);
      var j :| begin <= j < end && ByteAt(keys[j], d) == labels[i];
      EndOfKey(keys[j], d);
    }
    LeafLabel(lang);
    RangeLabels(keys, begin, end, d, 0);
  }

  // Order of the ranges.

  /** A range is in order iff its bytes are and so is every run. */
  lemma RunOrdered(keys: seq<Key>, begin: nat, end: nat, d: nat, rb: nat, re: nat, c: nat)
    requires begin <= end <= |keys| && AtLeast(keys, begin, end, d) && AreTexts(keys)
    requires IsRun(keys, begin, end, d, rb, re, c) && c != 0 && AtLeast(keys, rb, re, d + 1)
    ensures Ordered(keys, begin, end, d) ==> Ordered(keys, rb, re, d + 1)
  {
    hide IsText, Less;
    forall i, j | rb <= i < j < re ensures Less(keys[j][d..], keys[i][d..])
      <==> Less(keys[j][d + 1..], keys[i][d + 1..]) {
      ByteDecides(keys[j], keys[i], d);
    }
  }

  /** The keys before `mid` are done: pairs of them are in order. */
  lemma MoreOrdered(keys: seq<Key>, begin: nat, end: nat, d: nat, rb: nat, re: nat, c: nat)
    requires begin <= end <= |keys| && AtLeast(keys, begin, end, d) && AreTexts(keys)
    requires IsRun(keys, begin, end, d, rb, re, c) && c != 0 && AtLeast(keys, rb, re, d + 1)
    requires BytesOrdered(keys, begin, end, d) && Ordered(keys, begin, rb, d) && Ordered(keys, rb, re, d + 1)
    ensures Ordered(keys, begin, re, d)
  {
    hide IsText, Less;
    forall i, j | begin <= i < j < re ensures !Less(keys[j][d..], keys[i][d..]) {
      ByteDecides(keys[j], keys[i], d);
      ByteDecides(keys[i], keys[j], d);
      if j < rb {
        assert begin <= i < j < rb;
      } else if i >= rb {
        assert !Less(keys[j][d + 1..], keys[i][d + 1..]);
      }
    }
  }

  lemma EndsOrdered(keys: seq<Key>, begin: nat, mid: nat, d: nat)
    requires begin <= mid <= |keys| && AtLeast(keys, begin, mid, d) && AreTexts(keys)
    requires forall i :: begin <= i < mid ==> ByteAt(keys[i], d) == 0
    ensures Ordered(keys, begin, mid, d)
  {
    hide IsText;
    forall i, j | begin <= i < j < mid ensures !Less(keys[j][d..], keys[i][d..]) {
      ByteDecides(keys[j], keys[i], d);
    }
  }

  // The recursion.

  /** The slots of the labels from `c` on. */
  ghost function RestFrom(labels: seq<nat>, c: nat, offset: nat): set<nat> {
    set l | l in labels && l >= c && l != 0 :: Xor(offset, l)
  }

  /** Going from the label `c` to the next one, `next`; 256 stands for the end. */
  lemma RestFromNext(labels: seq<nat>, c: nat, next: nat, offset: nat)
    requires c in labels && c != 0 && c < next && forall l :: l in labels ==> l <= c || next <= l
    ensures RestFrom(labels, c, offset) == RestFrom(labels, next, offset) + {Xor(offset, c)}
    ensures Xor(offset, c) !in RestFrom(labels, next, offset)
  {
    hide Xor;
    forall l | l in labels && l != c ensures Xor(offset, l) != Xor(offset, c) {
      if Xor(offset, l) == Xor(offset, c) { XorInjective(offset, l, c); }
    }
  }

  lemma RestFromFirst(labels: seq<nat>, c: nat, offset: nat)
    requires forall l :: l in labels ==> l == 0 || c <= l
    ensures RestFrom(labels, c, offset) == Rest(labels, 0, offset)
  {
    hide Xor;
    forall q | q in RestFrom(labels, c, offset) ensures q in Rest(labels, 0, offset) {
      var l :| l in labels && l >= c && l != 0 && Xor(offset, l) == q;
      var m :| 0 <= m < |labels| && labels[m] == l;
    }
    forall q | q in Rest(labels, 0, offset) ensures q in RestFrom(labels, c, offset) {
      var m :| 0 <= m < |labels| && labels[m] != 0 && Xor(offset, labels[m]) == q;
      assert labels[m] in labels;
    }
  }

  /** The node of `keys[begin..end]` stands at `offset`, and the runs before `at` are built. */
  ghost predicate Midway(b: DoubleArrayBuilder, keys: seq<Key>, begin: nat, end: nat, d: nat, labels: seq<nat>,
                         offset: nat, p0: set<nat>, at: nat)
    requires begin <= at <= end <= |keys| && AtLeast(keys, begin, end, d)
    reads b`units, b`lo, b`extras, b`extrasHead, b`free, b`plan
  {
    && Ready(b) && Children(b.plan, labels, RangeLang(keys, begin, end, d), offset)
    && Ordered(keys, begin, at, d)
    && b.plan.pending == p0 + (if at == end then {} else RestFrom(labels, ByteAt(keys[at], d), offset))
    && (forall c: nat :: c in labels <==> Occurs(keys, begin, end, d, c))
    && Rest(labels, 0, offset) !! p0
  }

  /** `build_from_keyset`: places `keys[begin..end]`, which agree in their first `d` bytes, for
      the slot `dicId`. */
  method BuildRange(b: DoubleArrayBuilder, keyset: seq<Key>, ghost keys: seq<Key>, begin: nat, end: nat, d: nat,
                    dicId: nat, ghost longest: nat)
    returns (outcome: Outcome)
    requires begin < end <= |keys| && AtLeast(keys, begin, end, d) && AreTexts(keys) && Cuts(keyset, keys)
    requires forall i :: 0 <= i < |keys| ==> |keys[i]| <= longest
    requires Ready(b) && Waits(b.plan, dicId, RangeLang(keys, begin, end, d))
    modifies b
    ensures outcome.Built? ==>
      Ready(b) && Extends(old(b.plan), b.plan)
      && b.plan.pending == old(b.plan.pending) - {dicId}
    ensures outcome.Built? ==> Ordered(keys, begin, end, d) && NoNul(keyset, keys, begin, end)
    ensures outcome.WrongOrder? ==> !Ordered(keys, begin, end, d)
    ensures outcome.NulInKey? ==> !NoNul(keyset, keys, begin, end)
    ensures outcome.TooLarge? ==> |b.units| + 256 > MAX_OFFSET
    decreases longest - d, 1
  {
    hide Ready, Extends, Waits, RangeLang, Ordered, IsText, Rest, RestFrom, Children, Describes, IsNode, Xor, Cuts;
    ghost var lang, p0 := RangeLang(keys, begin, end, d), old(b.plan.pending) - {dicId};
    var value;
    outcome, value := CollectLabels(b, keyset, keys, begin, end, d);
    if !outcome.Built? {
      return;
    }
    RangeIsNode(keys, begin, end, d);
    CutSizes(keyset, keys);
    var ok, offset;
    ok, offset := PlaceNode(b, dicId, if value < 0 then 0 else value, lang);
    if !ok {
      return TooLarge;
    }
    ghost var labels, plan0 := b.labels, b.plan;
    var at := begin;
    GivenBytes(keyset, keys, begin, end, d);
    while at < end && ByteAt(keyset[at], d) == 0
      invariant begin <= at <= end && forall i :: begin <= i < at ==> ByteAt(keys[i], d) == 0
      invariant b.plan == plan0 && Ready(b)
    {
      at := at + 1;
    }
    EndsOrdered(keys, begin, at, d);
    StartRuns(keys, begin, end, d, labels, if value < 0 then 0 else value, at, offset);
    if at == end {
      return Built;
    }
    outcome := BuildRuns(b, keyset, keys, begin, end, d, labels, offset, p0, at, longest);
    if outcome.Built? {
      ExtendsMore(old(b.plan), plan0, b.plan);
    }
  }

  lemma CutSizes(keyset: seq<Key>, keys: seq<Key>)
    requires Cuts(keyset, keys)
    ensures |keyset| == |keys| && forall i :: 0 <= i < |keys| ==> |keys[i]| <= |keyset[i]|
  {
  }

  lemma GivenBytes(keyset: seq<Key>, keys: seq<Key>, begin: nat, end: nat, d: nat)
    requires Cuts(keyset, keys) && begin <= end <= |keys| && AtLeast(keys, begin, end, d)
    ensures forall i :: begin <= i < end ==> d <= |keyset[i]| && ByteAt(keyset[i], d) == ByteAt(keys[i], d)
  {
    hide Cuts;
    CutSizes(keyset, keys);
    forall i | begin <= i < end ensures d <= |keyset[i]| && ByteAt(keyset[i], d) == ByteAt(keys[i], d) {
      GivenByte(keyset, keys, i, d);
    }
  }

  lemma StartRuns(keys: seq<Key>, begin: nat, end: nat, d: nat, labels: seq<nat>, value: nat, at: nat, offset: nat)
    requires begin <= at <= end <= |keys| && begin < end && AtLeast(keys, begin, end, d) && AreTexts(keys)
    requires Describes(labels, value, RangeLang(keys, begin, end, d)) && BytesOrdered(keys, begin, end, d)
    requires forall i :: begin <= i < at ==> ByteAt(keys[i], d) == 0
    requires at < end ==> ByteAt(keys[at], d) != 0
    ensures Rest(labels, 0, offset) == if at == end then {} else RestFrom(labels, ByteAt(keys[at], d), offset)
    ensures forall c: nat :: c in labels <==> Occurs(keys, begin, end, d, c)
  {
    hide IsText, Rest, RestFrom, HasLabel, RangeLang;
    forall c: nat ensures c in labels <==> Occurs(keys, begin, end, d, c) {
      RangeLabels(keys, begin, end, d, c);
    }
    var c := if at == end then 256 else ByteAt(keys[at], d);
    forall l | l in labels ensures l == 0 || (at < end && c <= l) {
      var i :| begin <= i < end && ByteAt(keys[i], d) == l;
    }
    RestFromFirst(labels, c, offset);
    if at == end { RestFromNone(labels, c, offset); }
  }

  lemma RestFromNone(labels: seq<nat>, c: nat, offset: nat)
    requires forall l :: l in labels ==> l == 0 || l < c
    ensures RestFrom(labels, c, offset) == {}
  {
    hide Xor;
  }

  lemma ExtendsSame(p: Plan)
    ensures Extends(p, p)
  {
  }

  /** The loop over the runs of equal bytes. */
  method BuildRuns(b: DoubleArrayBuilder, keyset: seq<Key>, ghost keys: seq<Key>, begin: nat, end: nat, d: nat,
                   ghost labels: seq<nat>, offset: nat, ghost p0: set<nat>, at: nat, ghost longest: nat)
    returns (outcome: Outcome)
    requires begin <= at < end <= |keys| && AtLeast(keys, begin, end, d) && AreTexts(keys) && Cuts(keyset, keys)
    requires forall i :: 0 <= i < |keys| ==> |keys[i]| <= longest
    requires NoNul(keyset, keys, begin, at)
    requires Midway(b, keys, begin, end, d, labels, offset, p0, at) && BytesOrdered(keys, begin, end, d)
    requires ByteAt(keys[at], d) != 0 && forall i :: begin <= i < at ==> ByteAt(keys[i], d) != ByteAt(keys[at], d)
    modifies b
    ensures outcome.Built? ==> Midway(b, keys, begin, end, d, labels, offset, p0, end) && Extends(old(b.plan), b.plan)
    ensures outcome.Built? ==> NoNul(keyset, keys, begin, end)
    ensures outcome.WrongOrder? ==> !Ordered(keys, begin, end, d)
    ensures outcome.NulInKey? ==> !NoNul(keyset, keys, begin, end)
    ensures outcome.TooLarge? ==> |b.units| + 256 > MAX_OFFSET
    decreases longest - d, 0
  {
    hide Midway, Extends, IsText, Xor, Ordered, Occurs, Cuts;
    ExtendsSame(b.plan);
    CutSizes(keyset, keys);
    GivenBytes(keyset, keys, begin, end, d);
    var lastBegin, lastLabel, i := at, ByteAt(keyset[at], d), at + 1;
    while i < end
      invariant at <= lastBegin < i <= end && lastLabel == ByteAt(keys[lastBegin], d) != 0
      invariant forall j :: lastBegin <= j < i ==> ByteAt(keys[j], d) == lastLabel
      invariant forall j :: begin <= j < lastBegin ==> ByteAt(keys[j], d) != lastLabel
      invariant Midway(b, keys, begin, end, d, labels, offset, p0, lastBegin) && Extends(old(b.plan), b.plan)
      invariant NoNul(keyset, keys, begin, lastBegin)
    {
      var byte := ByteAt(keyset[i], d);
      if byte != lastLabel {
        ghost var plan1 := b.plan;
        outcome := BuildRun(b, keyset, keys, begin, end, d, labels, offset, p0, lastBegin, i, lastLabel, longest);
        if !outcome.Built? {
          return;
        }
        ExtendsMore(old(b.plan), plan1, b.plan);
        lastBegin, lastLabel := i, byte;
      }
      i := i + 1;
    }
    ghost var plan1 := b.plan;
    outcome := BuildRun(b, keyset, keys, begin, end, d, labels, offset, p0, lastBegin, end, lastLabel, longest);
    if outcome.Built? {
      ExtendsMore(old(b.plan), plan1, b.plan);
    }
  }

  /** One run becomes a child. */
  method BuildRun(b: DoubleArrayBuilder, keyset: seq<Key>, ghost keys: seq<Key>, begin: nat, end: nat, d: nat,
                  ghost labels: seq<nat>, offset: nat, ghost p0: set<nat>, rb: nat, re: nat, c: nat, ghost longest: nat)
    returns (outcome: Outcome)
    requires begin <= rb < re <= end <= |keys| && AtLeast(keys, begin, end, d) && AreTexts(keys) && Cuts(keyset, keys)
    requires forall i :: 0 <= i < |keys| ==> |keys[i]| <= longest
    requires Midway(b, keys, begin, end, d, labels, offset, p0, rb) && BytesOrdered(keys, begin, end, d)
    requires c == ByteAt(keys[rb], d) != 0
    requires forall j :: rb <= j < re ==> ByteAt(keys[j], d) == c
    requires forall j :: begin <= j < rb ==> ByteAt(keys[j], d) != c
    requires re < end ==> ByteAt(keys[re], d) != c
    modifies b
    ensures outcome.Built? ==> Midway(b, keys, begin, end, d, labels, offset, p0, re) && Extends(old(b.plan), b.plan)
    ensures outcome.Built? ==> NoNul(keyset, keys, rb, re)
    ensures outcome.WrongOrder? ==> !Ordered(keys, begin, end, d)
    ensures outcome.NulInKey? ==> !NoNul(keyset, keys, begin, end)
    ensures outcome.TooLarge? ==> |b.units| + 256 > MAX_OFFSET
    decreases longest - d, 0, 0
  {
    hide Midway, Extends, IsText, Xor, Ordered, Occurs, BytesOrdered, RangeLang, Ready, Waits, IsRun, Rest, RestFrom;
    ItIsRun(keys, begin, end, d, rb, re, c);
    RunLang(keys, begin, end, d, rb, re, c);
    RunWaits(b, keys, begin, end, d, labels, offset, p0, rb, re, c);
    ghost var plan0 := b.plan;
    RunOrdered(keys, begin, end, d, rb, re, c);
    outcome := BuildRange(b, keyset, keys, rb, re, d + 1, Xor(offset, c), longest);
    if outcome.Built? {
      RunDone(b, plan0, keys, begin, end, d, labels, offset, p0, rb, re, c);
    }
  }

  lemma ItIsRun(keys: seq<Key>, begin: nat, end: nat, d: nat, rb: nat, re: nat, c: nat)
    requires begin <= rb < re <= end <= |keys| && AtLeast(keys, begin, end, d) && AreTexts(keys)
    requires BytesOrdered(keys, begin, end, d) && c == ByteAt(keys[rb], d) != 0
    requires forall j :: rb <= j < re ==> ByteAt(keys[j], d) == c
    requires forall j :: begin <= j < rb ==> ByteAt(keys[j], d) != c
    requires re < end ==> ByteAt(keys[re], d) != c
    ensures IsRun(keys, begin, end, d, rb, re, c) && d < |keys[rb]|
    ensures re < end ==> c < ByteAt(keys[re], d)
  {
    hide IsText;
    forall i | re <= i < end ensures ByteAt(keys[i], d) > c {
      assert ByteAt(keys[rb], d) <= ByteAt(keys[re], d);
      if i > re { assert ByteAt(keys[re], d) <= ByteAt(keys[i], d); }
    }
  }

  lemma RunWaits(b: DoubleArrayBuilder, keys: seq<Key>, begin: nat, end: nat, d: nat, labels: seq<nat>, offset: nat,
                 p0: set<nat>, rb: nat, re: nat, c: nat)
    requires begin <= rb < re <= end <= |keys| && AtLeast(keys, begin, end, d)
    requires Midway(b, keys, begin, end, d, labels, offset, p0, rb) && c == ByteAt(keys[rb], d) != 0
    ensures Ready(b) && Waits(b.plan, Xor(offset, c), After(RangeLang(keys, begin, end, d), c))
    ensures Children(b.plan, labels, RangeLang(keys, begin, end, d), offset) && Ordered(keys, begin, rb, d)
    ensures b.plan.pending == p0 + RestFrom(labels, c, offset) && Xor(offset, c) !in p0 && Rest(labels, 0, offset) !! p0
    ensures forall x: nat :: x in labels <==> Occurs(keys, begin, end, d, x)
  {
    hide Xor, Ordered, RangeLang, Ready, Waits, After, Children, RestFrom, Rest;
    assert begin <= rb < end;
    assert c in labels;
    var j :| 0 <= j < |labels| && labels[j] == c;
    InRestFrom(labels, c, offset);
    ChildWaits(b.plan, labels, RangeLang(keys, begin, end, d), offset, j);
  }

  lemma InRestFrom(labels: seq<nat>, c: nat, offset: nat)
    requires c in labels && c != 0
    ensures Xor(offset, c) in RestFrom(labels, c, offset) && Xor(offset, c) in Rest(labels, 0, offset)
  {
    hide Xor;
  }

  lemma RunDone(b: DoubleArrayBuilder, plan0: Plan, keys: seq<Key>, begin: nat, end: nat, d: nat, labels: seq<nat>,
                offset: nat, p0: set<nat>, rb: nat, re: nat, c: nat)
    requires begin <= rb < re <= end <= |keys| && AtLeast(keys, begin, end, d) && AreTexts(keys)
    requires Children(plan0, labels, RangeLang(keys, begin, end, d), offset) && Ordered(keys, begin, rb, d)
    requires plan0.pending == p0 + RestFrom(labels, c, offset)
    requires forall x: nat :: x in labels <==> Occurs(keys, begin, end, d, x)
    requires Ready(b) && Extends(plan0, b.plan) && b.plan.pending == plan0.pending - {Xor(offset, c)}
    requires IsRun(keys, begin, end, d, rb, re, c) && c == ByteAt(keys[rb], d) != 0 && AtLeast(keys, rb, re, d + 1)
    requires BytesOrdered(keys, begin, end, d) && Ordered(keys, rb, re, d + 1)
    requires re < end ==> c < ByteAt(keys[re], d)
    requires Xor(offset, c) !in p0 && Rest(labels, 0, offset) !! p0
    ensures Midway(b, keys, begin, end, d, labels, offset, p0, re)
  {
    hide Xor, Ordered, RangeLang, Ready, Children, RestFrom, Extends, IsText, Rest;
    ChildrenStay(plan0, b.plan, labels, RangeLang(keys, begin, end, d), offset);
    MoreOrdered(keys, begin, end, d, rb, re, c);
    var next := if re < end then ByteAt(keys[re], d) else 256;
    NextByte(keys, begin, end, d, rb, re, c, labels);
    RestFromNext(labels, c, next, offset);
    if re == end { RestFromNone(labels, next, offset); }
  }

  /** No byte of the range lies between a run's and the next run's. */
  lemma NextByte(keys: seq<Key>, begin: nat, end: nat, d: nat, rb: nat, re: nat, c: nat, labels: seq<nat>)
    requires begin <= rb < re <= end <= |keys| && AtLeast(keys, begin, end, d) && AreTexts(keys)
    requires IsRun(keys, begin, end, d, rb, re, c) && c == ByteAt(keys[rb], d) && BytesOrdered(keys, begin, end, d)
    requires forall x: nat :: x in labels <==> Occurs(keys, begin, end, d, x)
    requires re < end ==> c < ByteAt(keys[re], d)
    ensures c in labels && c < 256
    ensures forall l :: l in labels ==> l <= c || (re < end && ByteAt(keys[re], d) <= l)
    ensures forall l :: l in labels ==> l < 256
  {
    hide IsText;
    assert begin <= rb < end;
    EndOfKey(keys[rb], d);
    forall l | l in labels ensures l < 256 && (l <= c || (re < end && ByteAt(keys[re], d) <= l)) {
      var i :| begin <= i < end && ByteAt(keys[i], d) == l;
      EndOfKey(keys[i], d);
    }
  }
}
