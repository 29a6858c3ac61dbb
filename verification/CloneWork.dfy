/** The work stack of the trie builder and the keys it advances. */
module CloneWork {
  import opened Language
  import opened CloneTrie
  import Bits

  /** A key, the number of its bytes that the trie has consumed, its leaf, and its value. */
  datatype KeyRec = KeyRec(text: Key, pos: nat, index: nat, value: int) {
    function Head(): nat
      requires pos <= |text|
    {
      ByteAt(text, pos)
    }
  }

  datatype Task = Task(begin: nat, end: nat, index: nat)

  function Texts(recs: seq<KeyRec>): (r: seq<Key>)
    ensures |r| == |recs| && forall i :: 0 <= i < |recs| ==> r[i] == recs[i].text
  {
    seq(|recs|, i requires 0 <= i < |recs| => recs[i].text)
  }

  predicate Inside(s: Span, i: nat) {
    s.begin <= i < s.end
  }

  /** Keys of waiting slots stand at the depth of their span.  A key whose leaf is done knows the
      leaf and stands one byte before, so that the leaf's label is part of its rest.  Every key
      is done or waits in exactly one slot. */
  ghost predicate Placement(recs: seq<KeyRec>, sch: Scheme, done: set<nat>) {
    && (forall q :: q in sch.waiting ==> WaitingOk(recs, sch, done, q))
    && (forall q :: sch.IsLeafSlot(q) ==> LeafIs(recs, sch, done, q))
    && (forall i :: i in done ==> DoneOk(recs, sch, i))
    && Apart(sch)
    && (forall i: nat :: i < |recs| ==> i in done || Waits(sch, i))
    && (forall i: nat :: i < |recs| ==> recs[i].pos <= |recs[i].text| + 1)
  }

  ghost predicate WaitingOk(recs: seq<KeyRec>, sch: Scheme, done: set<nat>, q: nat) {
    && q in sch.child && sch.child[q].begin < sch.child[q].end <= |recs|
    && forall i: nat :: Inside(sch.child[q], i) ==> recs[i].pos == sch.child[q].depth && i !in done
  }

  ghost predicate DoneOk(recs: seq<KeyRec>, sch: Scheme, i: nat) {
    i < |recs| && sch.IsLeafSlot(recs[i].index) && sch.child[recs[i].index].begin == i
  }

  /** No key waits twice. */
  ghost predicate Apart(sch: Scheme) {
    forall q, p, i: nat :: WaitsIn(sch, q, i) && WaitsIn(sch, p, i) ==> p == q
  }

  ghost predicate WaitsIn(sch: Scheme, q: nat, i: nat) {
    q in sch.waiting && q in sch.child && Inside(sch.child[q], i)
  }

  ghost predicate LeafIs(recs: seq<KeyRec>, sch: Scheme, done: set<nat>, q: nat)
    requires q in sch.child
  {
    var i := sch.child[q].begin;
    i in done && i < |recs| && recs[i].index == q && recs[i].pos + 1 == sch.child[q].depth
      && recs[i].pos <= |recs[i].text|
  }

  ghost predicate Waits(sch: Scheme, i: nat) {
    exists q :: q in sch.waiting && q in sch.child && Inside(sch.child[q], i)
  }

  /** The stack holds exactly the waiting slots. */
  ghost predicate StackIs(stack: seq<Task>, sch: Scheme) {
    && (forall k :: 0 <= k < |stack| ==> TaskOk(stack[k], sch))
    && (forall j, k :: 0 <= j < k < |stack| ==> stack[j].index != stack[k].index)
    && (forall q :: q in sch.waiting ==> exists k :: 0 <= k < |stack| && stack[k].index == q)
  }

  ghost predicate TaskOk(t: Task, sch: Scheme) {
    t.index in sch.waiting && t.index in sch.child && sch.child[t.index].begin == t.begin
      && sch.child[t.index].end == t.end
  }

  lemma TopTask(stack: seq<Task>, recs: seq<KeyRec>, sch: Scheme, done: set<nat>)
    requires stack != [] && StackIs(stack, sch) && Placement(recs, sch, done)
    ensures var t := stack[|stack| - 1];
      && t.index in sch.waiting && t.index in sch.child && sch.child[t.index].begin == t.begin
         && sch.child[t.index].end == t.end
      && t.begin < t.end <= |recs|
      && forall i :: t.begin <= i < t.end ==> recs[i].pos == sch.child[t.index].depth && i !in done
  {
    var t := stack[|stack| - 1];
    assert TaskOk(t, sch) && WaitingOk(recs, sch, done, t.index);
    forall i: nat | t.begin <= i < t.end ensures recs[i].pos == sch.child[t.index].depth && i !in done {
      assert Inside(sch.child[t.index], i);
    }
  }

  // How much is left to do.

  ghost function Left(recs: seq<KeyRec>, done: set<nat>, n: nat): nat
    requires n <= |recs|
  {
    if n == 0 then 0 else Left(recs, done, n - 1) + (if n - 1 in done then 0 else Remains(recs[n - 1]))
  }

  ghost function Remains(r: KeyRec): nat {
    if r.pos <= |r.text| + 1 then |r.text| + 2 - r.pos else 0
  }

  lemma {:induction false} LessLeft(recs: seq<KeyRec>, recs': seq<KeyRec>, done: set<nat>, done': set<nat>, n: nat,
                                    i: nat)
    requires i < n <= |recs| == |recs'|
    requires forall k :: 0 <= k < n ==> Part(recs', done', k) <= Part(recs, done, k)
    requires Part(recs', done', i) < Part(recs, done, i)
    ensures Left(recs', done', n) < Left(recs, done, n)
  {
    if i < n - 1 {
      LessLeft(recs, recs', done, done', n - 1, i);
    } else {
      NotMore(recs, recs', done, done', n - 1);
    }
    assert Part(recs', done', n - 1) <= Part(recs, done, n - 1);
  }

  ghost function Part(recs: seq<KeyRec>, done: set<nat>, k: nat): nat
    requires k < |recs|
  {
    if k in done then 0 else Remains(recs[k])
  }

  lemma {:induction false} NotMore(recs: seq<KeyRec>, recs': seq<KeyRec>, done: set<nat>, done': set<nat>, n: nat)
    requires n <= |recs| == |recs'|
    requires forall k :: 0 <= k < n ==> Part(recs', done', k) <= Part(recs, done, k)
    ensures Left(recs', done', n) <= Left(recs, done, n)
  {
    if n > 0 {
      NotMore(recs, recs', done, done', n - 1);
      assert Part(recs', done', n - 1) <= Part(recs, done, n - 1);
    }
  }

  // Leaves.

  /** The key goes back by one byte and learns its leaf. */
  function StepBack(recs: seq<KeyRec>, i: nat, index: nat): seq<KeyRec>
    requires i < |recs| && recs[i].pos > 0
  {
    recs[i := recs[i].(pos := recs[i].pos - 1, index := index)]
  }

  lemma LeafPlaced(recs: seq<KeyRec>, sch: Scheme, done: set<nat>, x: nat)
    requires Placement(recs, sch, done) && x in sch.waiting && x != 0 && x in sch.child && sch.child[x].depth > 0
    requires sch.child[x].end == sch.child[x].begin + 1
    requires sch.child[x].begin < |recs| ==> recs[sch.child[x].begin].pos <= |recs[sch.child[x].begin].text| + 1
    ensures var i := sch.child[x].begin;
      && i < |recs| && recs[i].pos > 0 && i !in done
      && Placement(StepBack(recs, i, x), Finished(sch, x), done + {i})
      && Left(StepBack(recs, i, x), done + {i}, |recs|) < Left(recs, done, |recs|)
  {
    hide WaitingOk, LeafIs, DoneOk, Apart, Waits, Left, Part, Remains;
    var i := sch.child[x].begin;
    OnlyKey(recs, sch, done, x);
    var recs', sch', done' := StepBack(recs, i, x), Finished(sch, x), done + {i};
    forall q | q in sch'.waiting ensures WaitingOk(recs', sch', done', q) {
      WaitingAfterLeaf(recs, sch, done, x, q);
    }
    forall q | sch'.IsLeafSlot(q) ensures LeafIs(recs', sch', done', q) {
      LeafAfterLeaf(recs, sch, done, x, q);
    }
    forall k | k in done' ensures DoneOk(recs', sch', k) {
      DoneAfterLeaf(recs, sch, done, x, k);
    }
    ApartAfterLeaf(sch, x);
    forall k: nat | k < |recs'| ensures k in done' || Waits(sch', k) {
      if k !in done' { WaitsAfterLeaf(sch, x, k); }
    }
    LeftAfterLeaf(recs, done, i, x);
  }

  lemma OnlyKey(recs: seq<KeyRec>, sch: Scheme, done: set<nat>, x: nat)
    requires x in sch.child && WaitingOk(recs, sch, done, x) && sch.child[x].depth > 0
    ensures var i := sch.child[x].begin; i < |recs| && recs[i].pos == sch.child[x].depth > 0 && i !in done
  {
    assert Inside(sch.child[x], sch.child[x].begin);
  }

  lemma WaitingAfterLeaf(recs: seq<KeyRec>, sch: Scheme, done: set<nat>, x: nat, q: nat)
    requires Apart(sch) && x in sch.waiting && x in sch.child && q in sch.waiting && q != x
    requires WaitingOk(recs, sch, done, q) && WaitingOk(recs, sch, done, x) && sch.child[x].depth > 0
    requires sch.child[x].end == sch.child[x].begin + 1
    ensures var i := sch.child[x].begin;
      i < |recs| && recs[i].pos > 0 && WaitingOk(StepBack(recs, i, x), Finished(sch, x), done + {i}, q)
  {
    OnlyKey(recs, sch, done, x);
    var i := sch.child[x].begin;
    assert WaitsIn(sch, x, i);
    assert !WaitsIn(sch, q, i);
  }

  lemma LeafAfterLeaf(recs: seq<KeyRec>, sch: Scheme, done: set<nat>, x: nat, q: nat)
    requires Finished(sch, x).IsLeafSlot(q) && (sch.IsLeafSlot(q) ==> LeafIs(recs, sch, done, q))
    requires x in sch.waiting && x in sch.child && WaitingOk(recs, sch, done, x) && sch.child[x].depth > 0
    requires sch.child[x].begin < |recs| ==> recs[sch.child[x].begin].pos <= |recs[sch.child[x].begin].text| + 1
    requires sch.child[x].end == sch.child[x].begin + 1
    ensures var i := sch.child[x].begin;
      i < |recs| && recs[i].pos > 0 && LeafIs(StepBack(recs, i, x), Finished(sch, x), done + {i}, q)
  {
    OnlyKey(recs, sch, done, x);
  }

  lemma DoneAfterLeaf(recs: seq<KeyRec>, sch: Scheme, done: set<nat>, x: nat, k: nat)
    requires x in sch.waiting && x != 0 && x in sch.child && WaitingOk(recs, sch, done, x) && sch.child[x].depth > 0
    requires sch.child[x].end == sch.child[x].begin + 1
    requires k == sch.child[x].begin || (k in done && DoneOk(recs, sch, k))
    ensures var i := sch.child[x].begin;
      i < |recs| && recs[i].pos > 0 && DoneOk(StepBack(recs, i, x), Finished(sch, x), k)
  {
    OnlyKey(recs, sch, done, x);
  }

  lemma ApartAfterLeaf(sch: Scheme, x: nat)
    requires Apart(sch)
    ensures Apart(Finished(sch, x))
  {
    hide Inside;
    var sch' := Finished(sch, x);
    forall q, p, i: nat | WaitsIn(sch', q, i) && WaitsIn(sch', p, i) ensures p == q {
      assert WaitsIn(sch, q, i) && WaitsIn(sch, p, i);
    }
  }

  lemma WaitsAfterLeaf(sch: Scheme, x: nat, k: nat)
    requires Waits(sch, k) && x in sch.child && sch.child[x].end == sch.child[x].begin + 1 && k != sch.child[x].begin
    ensures Waits(Finished(sch, x), k)
  {
    var q :| q in sch.waiting && q in sch.child && Inside(sch.child[q], k);
    assert q in Finished(sch, x).waiting;
  }

  lemma LeftAfterLeaf(recs: seq<KeyRec>, done: set<nat>, i: nat, x: nat)
    requires i < |recs| && recs[i].pos > 0 && i !in done && recs[i].pos <= |recs[i].text| + 1
    ensures Left(StepBack(recs, i, x), done + {i}, |recs|) < Left(recs, done, |recs|)
  {
    LessLeft(recs, StepBack(recs, i, x), done, done + {i}, |recs|, i);
  }

  lemma StackAfterLeaf(stack: seq<Task>, sch: Scheme, x: nat)
    requires stack != [] && StackIs(stack, sch) && stack[|stack| - 1].index == x
    ensures StackIs(stack[..|stack| - 1], Finished(sch, x))
  {
    var s, sch' := stack[..|stack| - 1], Finished(sch, x);
    forall k | 0 <= k < |s| ensures TaskOk(s[k], sch') {
      assert TaskOk(stack[k], sch);
    }
    forall q | q in sch'.waiting ensures exists k :: 0 <= k < |s| && s[k].index == q {
      var k :| 0 <= k < |stack| && stack[k].index == q;
      assert s[k].index == q;
    }
  }

  // Inner nodes.

  /** The keys of a span go on by one byte. */
  function Advanced(recs: seq<KeyRec>, begin: nat, at: nat): (r: seq<KeyRec>)
    requires begin <= at <= |recs|
    ensures |r| == |recs|
    ensures forall i :: 0 <= i < |recs| ==> r[i] == if begin <= i < at then recs[i].(pos := recs[i].pos + 1)
      else recs[i]
  {
    seq(|recs|, i requires 0 <= i < |recs| => if begin <= i < at then recs[i].(pos := recs[i].pos + 1) else recs[i])
  }

  lemma AdvancedTexts(recs: seq<KeyRec>, begin: nat, at: nat)
    requires begin <= at <= |recs|
    ensures Texts(Advanced(recs, begin, at)) == Texts(recs)
  {
  }

  /** What is known when the span of `x` has been placed. */
  ghost predicate NodeDone(recs: seq<KeyRec>, sch: Scheme, x: nat, b: nat, labels: seq<nat>, ranges: seq<(nat, nat)>) {
    && x in sch.waiting && x in sch.child && |labels| == |ranges|
    && SpanOk(Texts(recs), sch.child[x])
    && Runs(Texts(recs), sch.child[x], labels, ranges, sch.child[x].end)
    && CanPlace(sch, x, b, labels) && 0 !in SlotSet(b, labels)
    && sch.waiting <= sch.owner.Keys && sch.child.Keys <= sch.owner.Keys
    && (x == 0 || sch.child[x].end > sch.child[x].begin + 1)
    && forall i :: sch.child[x].begin <= i < sch.child[x].end ==> recs[i].pos <= |recs[i].text|
  }

  lemma NodePlaced(recs: seq<KeyRec>, sch: Scheme, done: set<nat>, x: nat, b: nat, labels: seq<nat>,
                   ranges: seq<(nat, nat)>)
    requires Placement(recs, sch, done) && NodeDone(recs, sch, x, b, labels, ranges)
    ensures var s := sch.child[x];
      && s.begin < s.end <= |recs|
      && Placement(Advanced(recs, s.begin, s.end), Placed(sch, x, b, labels, ranges), done)
      && Left(Advanced(recs, s.begin, s.end), done, |recs|) < Left(recs, done, |recs|)
  {
    hide Runs, SlotSet, Placed, SpanOk, WaitingOk, LeafIs, DoneOk, Apart, Waits, Left, NodeDone, Advanced;
    NodeBasics(recs, sch, x, b, labels, ranges);
    assert WaitingOk(recs, sch, done, x);
    NodeParts(recs, sch, done, x, b, labels, ranges);
    var s := sch.child[x];
    var recs', sch' := Advanced(recs, s.begin, s.end), Placed(sch, x, b, labels, ranges);
    forall q | q in sch'.waiting ensures WaitingOk(recs', sch', done, q) {
      WaitingPlaced(recs, sch, done, x, b, labels, ranges, q);
    }
    forall q | sch'.IsLeafSlot(q) ensures LeafIs(recs', sch', done, q) {
      LeafStays(recs, sch, done, x, b, labels, ranges, q);
    }
    forall i | i in done ensures DoneOk(recs', sch', i) {
      DoneStays(recs, sch, done, x, b, labels, ranges, i);
    }
    ApartPlaced(recs, sch, done, x, b, labels, ranges);
    forall i: nat | i < |recs'| ensures i in done || Waits(sch', i) {
      if i !in done { StillWaits(recs, sch, done, x, b, labels, ranges, i); }
    }
    LeftAfterNode(recs, sch, done, x);
  }

  lemma NodeBasics(recs: seq<KeyRec>, sch: Scheme, x: nat, b: nat, labels: seq<nat>, ranges: seq<(nat, nat)>)
    requires NodeDone(recs, sch, x, b, labels, ranges)
    ensures x in sch.waiting && x in sch.child && |labels| == |ranges|
  {
    hide Runs, SlotSet, SpanOk;
  }

  lemma NodeParts(recs: seq<KeyRec>, sch: Scheme, done: set<nat>, x: nat, b: nat, labels: seq<nat>,
                  ranges: seq<(nat, nat)>)
    requires NodeDone(recs, sch, x, b, labels, ranges) && WaitingOk(recs, sch, done, x)
    ensures x in sch.waiting && x in sch.child && |labels| == |ranges|
    ensures var s := sch.child[x];
      s.begin < s.end <= |recs| && forall i: nat :: Inside(s, i) ==> recs[i].pos <= |recs[i].text| && i !in done
  {
    hide Runs, SlotSet, SpanOk;
  }

  lemma LeafStays(recs: seq<KeyRec>, sch: Scheme, done: set<nat>, x: nat, b: nat, labels: seq<nat>,
                  ranges: seq<(nat, nat)>, q: nat)
    requires NodeDone(recs, sch, x, b, labels, ranges) && WaitingOk(recs, sch, done, x)
    requires Placed(sch, x, b, labels, ranges).IsLeafSlot(q) && (sch.IsLeafSlot(q) ==> LeafIs(recs, sch, done, q))
    ensures var s := sch.child[x];
      s.begin < s.end <= |recs| && LeafIs(Advanced(recs, s.begin, s.end), Placed(sch, x, b, labels, ranges), done, q)
  {
    hide Runs, SlotSet, Placed, SpanOk;
    PlacedOwner(sch, x, b, labels, ranges, q);
    assert sch.IsLeafSlot(q);
    var inside := Inside(sch.child[x], sch.child[q].begin);
  }

  lemma DoneStays(recs: seq<KeyRec>, sch: Scheme, done: set<nat>, x: nat, b: nat, labels: seq<nat>,
                  ranges: seq<(nat, nat)>, i: nat)
    requires NodeDone(recs, sch, x, b, labels, ranges) && WaitingOk(recs, sch, done, x) && i in done
      && DoneOk(recs, sch, i)
    ensures var s := sch.child[x];
      s.begin < s.end <= |recs| && DoneOk(Advanced(recs, s.begin, s.end), Placed(sch, x, b, labels, ranges), i)
  {
    hide Runs, SlotSet, Placed, SpanOk;
    var inside := Inside(sch.child[x], i);
    PlacedOwner(sch, x, b, labels, ranges, recs[i].index);
  }

  lemma LeftAfterNode(recs: seq<KeyRec>, sch: Scheme, done: set<nat>, x: nat)
    requires x in sch.child && WaitingOk(recs, sch, done, x)
    requires forall i: nat :: Inside(sch.child[x], i) ==> i < |recs| && recs[i].pos <= |recs[i].text|
    ensures var s := sch.child[x]; Left(Advanced(recs, s.begin, s.end), done, |recs|) < Left(recs, done, |recs|)
  {
    var s := sch.child[x];
    assert Inside(s, s.begin);
    LessLeft(recs, Advanced(recs, s.begin, s.end), done, done, |recs|, s.begin);
  }

  /** A waiting slot after the placement is a new one, or an old one with another span. */
  lemma WaitingPlaced(recs: seq<KeyRec>, sch: Scheme, done: set<nat>, x: nat, b: nat, labels: seq<nat>,
                      ranges: seq<(nat, nat)>, q: nat)
    requires Placement(recs, sch, done) && NodeDone(recs, sch, x, b, labels, ranges)
    requires q in Placed(sch, x, b, labels, ranges).waiting
    ensures var s, sch' := sch.child[x], Placed(sch, x, b, labels, ranges);
      && s.begin < s.end <= |recs| && WaitingOk(Advanced(recs, s.begin, s.end), sch', done, q)
      && (q in SlotSet(b, labels) <==> q !in sch.waiting)
      && (q in SlotSet(b, labels) ==> s.begin <= sch'.child[q].begin && sch'.child[q].end <= s.end)
      && (q !in SlotSet(b, labels) ==> q != x && q in sch.child && sch'.child[q] == sch.child[q])
  {
    hide SlotSet, Placed, SpanOk;
    var s, sch' := sch.child[x], Placed(sch, x, b, labels, ranges);
    PlacedOwner(sch, x, b, labels, ranges, q);
    assert WaitingOk(recs, sch, done, x);
    if q in SlotSet(b, labels) {
      InSlotSet(b, labels, q);
      var j := NewSpan(sch, x, b, labels, ranges, q);
      forall i: nat | Inside(sch'.child[q], i) ensures recs[i].pos == s.depth && i !in done {
        assert Inside(s, i);
      }
    } else {
      assert WaitingOk(recs, sch, done, q);
      forall i: nat | Inside(sch.child[q], i) ensures !Inside(s, i) {
        assert WaitsIn(sch, q, i);
        assert !WaitsIn(sch, x, i);
      }
    }
  }

  lemma NewSpan(sch: Scheme, x: nat, b: nat, labels: seq<nat>, ranges: seq<(nat, nat)>, q: nat) returns (j: nat)
    requires x in sch.child && |labels| == |ranges| && q in SlotSet(b, labels)
    ensures var sch' := Placed(sch, x, b, labels, ranges);
      j < |labels| && labels[j] == Bits.Xor(b, q) && q in sch'.child
      && sch'.child[q] == Span(ranges[j].0, ranges[j].1, sch.child[x].depth + 1)
  {
    hide SlotSet, Placed;
    PlacedOwner(sch, x, b, labels, ranges, q);
    InSlotSet(b, labels, q);
    j := IndexOf(labels, Bits.Xor(b, q));
  }

  lemma ApartPlaced(recs: seq<KeyRec>, sch: Scheme, done: set<nat>, x: nat, b: nat, labels: seq<nat>,
                    ranges: seq<(nat, nat)>)
    requires Placement(recs, sch, done) && NodeDone(recs, sch, x, b, labels, ranges)
    ensures Apart(Placed(sch, x, b, labels, ranges))
  {
    hide SlotSet, Placed, NodeDone, Placement, Inside;
    NodeBasics(recs, sch, x, b, labels, ranges);
    var sch' := Placed(sch, x, b, labels, ranges);
    forall q, p, i: nat | WaitsIn(sch', q, i) && WaitsIn(sch', p, i) ensures p == q
    {
      OneSpan(recs, sch, done, x, b, labels, ranges, q, p, i);
    }
  }

  lemma NotBoth(recs: seq<KeyRec>, sch: Scheme, done: set<nat>, x: nat, p: nat, i: nat)
    requires Placement(recs, sch, done) && x in sch.waiting && p in sch.waiting && x in sch.child && p in sch.child
    requires Inside(sch.child[x], i) && Inside(sch.child[p], i)
    ensures p == x
  {
    hide Inside, WaitingOk, LeafIs, DoneOk;
    assert WaitsIn(sch, x, i) && WaitsIn(sch, p, i);
  }

  lemma OneSpan(recs: seq<KeyRec>, sch: Scheme, done: set<nat>, x: nat, b: nat, labels: seq<nat>,
                ranges: seq<(nat, nat)>, q: nat, p: nat, i: nat)
    requires Placement(recs, sch, done) && NodeDone(recs, sch, x, b, labels, ranges)
    requires var sch' := Placed(sch, x, b, labels, ranges);
      q in sch'.waiting && p in sch'.waiting && q in sch'.child && p in sch'.child
      && Inside(sch'.child[q], i) && Inside(sch'.child[p], i)
    ensures p == q
  {
    hide SlotSet, Placed, SpanOk, Placement, Runs;
    WaitingPlaced(recs, sch, done, x, b, labels, ranges, q);
    WaitingPlaced(recs, sch, done, x, b, labels, ranges, p);
    if q in SlotSet(b, labels) && p in SlotSet(b, labels) {
      var j := NewSpan(sch, x, b, labels, ranges, q);
      var k := NewSpan(sch, x, b, labels, ranges, p);
      SameRun(Texts(recs), sch.child[x], labels, ranges, j, k, i);
      Bits.XorInjective(b, q, p);
    } else if q in SlotSet(b, labels) {
      NotBoth(recs, sch, done, x, p, i);
    } else if p in SlotSet(b, labels) {
      NotBoth(recs, sch, done, x, q, i);
    } else {
      NotBoth(recs, sch, done, q, p, i);
    }
  }

  lemma SameRun(keys: seq<Key>, s: Span, labels: seq<nat>, ranges: seq<(nat, nat)>, j: nat, k: nat, i: nat)
    requires SpanOk(keys, s) && Runs(keys, s, labels, ranges, s.end) && j < |ranges| && k < |ranges|
    requires ranges[j].0 <= i < ranges[j].1 && ranges[k].0 <= i < ranges[k].1
    ensures j == k
  {
    InSpan(keys, s, i);
    assert labels[j] == ByteAt(keys[i], s.depth) == labels[k];
  }

  lemma StillWaits(recs: seq<KeyRec>, sch: Scheme, done: set<nat>, x: nat, b: nat, labels: seq<nat>,
                   ranges: seq<(nat, nat)>, i: nat)
    requires Placement(recs, sch, done) && NodeDone(recs, sch, x, b, labels, ranges) && i < |recs| && i !in done
    ensures Waits(Placed(sch, x, b, labels, ranges), i)
  {
    hide SlotSet, Placed, SpanOk;
    var s, sch' := sch.child[x], Placed(sch, x, b, labels, ranges);
    if Inside(s, i) {
      var j := InSomeRun(ranges, |ranges|, i);
      InSlotSet(b, labels, 0);
      var q := Bits.Xor(b, labels[j]);
      PlacedOwner(sch, x, b, labels, ranges, q);
      var k := NewSpan(sch, x, b, labels, ranges, q);
      SameLabel(Texts(recs), s, labels, ranges, j, k);
      assert q in sch'.waiting && Inside(sch'.child[q], i);
    } else {
      assert Waits(sch, i);
      var q :| q in sch.waiting && q in sch.child && Inside(sch.child[q], i);
      PlacedOwner(sch, x, b, labels, ranges, q);
      assert q in sch'.waiting && Inside(sch'.child[q], i);
    }
  }

  lemma SameLabel(keys: seq<Key>, s: Span, labels: seq<nat>, ranges: seq<(nat, nat)>, j: nat, k: nat)
    requires SpanOk(keys, s) && Runs(keys, s, labels, ranges, s.end) && j < |labels| && k < |labels|
      && labels[j] == labels[k]
    ensures j == k
  {
    hide SpanOk;
  }

  /** The tasks of the new slots, from the last label to the `i`-th. */
  function Tasks(b: nat, labels: seq<nat>, ranges: seq<(nat, nat)>, i: nat): (r: seq<Task>)
    requires i <= |labels| == |ranges|
    ensures |r| == |labels| - i
    decreases |labels| - i
  {
    if i == |labels| then []
      else Tasks(b, labels, ranges, i + 1) + [Task(ranges[i].0, ranges[i].1, Bits.Xor(b, labels[i]))]
  }

  lemma {:induction false} TaskAt(b: nat, labels: seq<nat>, ranges: seq<(nat, nat)>, i: nat, j: nat)
    requires i <= j < |labels| == |ranges|
    ensures Tasks(b, labels, ranges, i)[|labels| - 1 - j] == Task(ranges[j].0, ranges[j].1, Bits.Xor(b, labels[j]))
    decreases |labels| - i
  {
    hide Bits.Xor;
    if i < j { TaskAt(b, labels, ranges, i + 1, j); }
  }

  lemma StackAfterNode(stack: seq<Task>, sch: Scheme, x: nat, b: nat, labels: seq<nat>, ranges: seq<(nat, nat)>,
                       keys: seq<Key>)
    requires stack != [] && StackIs(stack, sch) && stack[|stack| - 1].index == x
    requires x in sch.child && |labels| == |ranges| && CanPlace(sch, x, b, labels) && sch.waiting <= sch.owner.Keys
    requires SpanOk(keys, sch.child[x]) && Runs(keys, sch.child[x], labels, ranges, sch.child[x].end)
    ensures StackIs(stack[..|stack| - 1] + Tasks(b, labels, ranges, 0), Placed(sch, x, b, labels, ranges))
  {
    hide SlotSet, Placed, SpanOk, Bits.Xor, Tasks;
    var old_ := stack[..|stack| - 1];
    var new_, sch' := Tasks(b, labels, ranges, 0), Placed(sch, x, b, labels, ranges);
    var st := old_ + new_;
    InSlotSet(b, labels, 0);
    forall k | 0 <= k < |st| ensures TaskOk(st[k], sch') && (k >= |old_| <==> st[k].index in SlotSet(b, labels)) {
      if k < |old_| {
        assert TaskOk(stack[k], sch);
        PlacedOwner(sch, x, b, labels, ranges, st[k].index);
      } else {
        TaskAt(b, labels, ranges, 0, |labels| - 1 - (k - |old_|));
        TaskOfLabel(sch, x, b, labels, ranges, keys, |labels| - 1 - (k - |old_|));
      }
    }
    forall j, k | 0 <= j < k < |st| ensures st[j].index != st[k].index {
      if j >= |old_| {
        DifferentTasks(keys, sch.child[x], b, labels, ranges, j - |old_|, k - |old_|);
      }
    }
    forall q | q in sch'.waiting ensures exists k :: 0 <= k < |st| && st[k].index == q {
      PlacedOwner(sch, x, b, labels, ranges, q);
      if q in SlotSet(b, labels) {
        var j := NewSpan(sch, x, b, labels, ranges, q);
        Bits.XorCancel(b, q);
        TaskAt(b, labels, ranges, 0, j);
        assert st[|old_| + (|labels| - 1 - j)].index == q;
      } else {
        var k :| 0 <= k < |stack| && stack[k].index == q;
        assert st[k].index == q;
      }
    }
  }

  lemma DifferentTasks(keys: seq<Key>, s: Span, b: nat, labels: seq<nat>, ranges: seq<(nat, nat)>, j: nat, k: nat)
    requires SpanOk(keys, s) && |labels| == |ranges| && Runs(keys, s, labels, ranges, s.end) && j < k < |labels|
    ensures Tasks(b, labels, ranges, 0)[j].index != Tasks(b, labels, ranges, 0)[k].index
  {
    hide SpanOk, Bits.Xor, Tasks;
    var x, y := |labels| - 1 - j, |labels| - 1 - k;
    TaskAt(b, labels, ranges, 0, x);
    TaskAt(b, labels, ranges, 0, y);
    if Bits.Xor(b, labels[x]) == Bits.Xor(b, labels[y]) { Bits.XorInjective(b, labels[x], labels[y]); }
  }

  lemma TaskOfLabel(sch: Scheme, x: nat, b: nat, labels: seq<nat>, ranges: seq<(nat, nat)>, keys: seq<Key>, j: nat)
    requires x in sch.child && |labels| == |ranges| && j < |labels|
    requires SpanOk(keys, sch.child[x]) && Runs(keys, sch.child[x], labels, ranges, sch.child[x].end)
    ensures var q := Bits.Xor(b, labels[j]);
      q in SlotSet(b, labels) && TaskOk(Task(ranges[j].0, ranges[j].1, q), Placed(sch, x, b, labels, ranges))
  {
    hide SlotSet, Placed, SpanOk, Bits.Xor;
    var q := Bits.Xor(b, labels[j]);
    InSlotSet(b, labels, q);
    PlacedOwner(sch, x, b, labels, ranges, q);
    var k := NewSpan(sch, x, b, labels, ranges, q);
    SameLabel(keys, sch.child[x], labels, ranges, j, k);
  }
}
