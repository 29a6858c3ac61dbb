/** The finished array with its tail, and what the searches rely on. */
module CloneArray {
  import opened Language
  import opened CloneUnit
  import opened CloneSlots
  import opened CloneTrie
  import opened CloneWork
  import opened CloneTail

  function FillerUnit(q: nat, unused: nat): Word {
    WithLabel(0, FillerLabel(q, unused))
  }

  /** Every slot is an edge of the trie or leads to an offset not in use. */
  ghost predicate Built(units: seq<Word>, keys: seq<Key>, sch: Scheme) {
    && TrieOk(units, keys, sch) && sch.waiting == {} && AreKeys(keys) && keys != []
    && |units| % 256 == 0 && Offset(units[1]) == |units|
    && forall q: nat :: q < |units| ==> q in sch.owner || Filler(units, sch.node.Keys + {0}, q)
  }

  /** The array for no keys at all: the root leads to offset 1, and so do the fillers. */
  ghost predicate EmptyArray(units: seq<Word>) {
    && |units| == 256 && units[0] == WithLabel(WithOffset(0, 1), 0) && units[1] == WithOffset(WithLabel(0, 1), 256)
    && forall q :: 2 <= q < 256 ==> units[q] == FillerUnit(q, 1)
  }

  function Values(recs: seq<KeyRec>): (r: seq<int>)
    ensures |r| == |recs| && forall i :: 0 <= i < |recs| ==> r[i] == recs[i].value
  {
    seq(|recs|, i requires 0 <= i < |recs| => recs[i].value)
  }

  /** The leaf leads to the rest of its key, from the leaf's label on, and to the key's value. */
  ghost predicate LeafStored(units: seq<Word>, tail: seq<nat>, ids: nat, keys: seq<Key>, values: seq<int>, sch: Scheme,
                             q: nat)
    requires q in sch.child
  {
    var i, d := sch.child[q].begin, sch.child[q].depth;
    && q < |units| && i < |keys| == |values| && 0 < d <= |keys[i]| + 1
    && LinksRest(units[q], tail, ids, keys[i][d - 1..], values[i])
  }

  /** The array and the tail for the keys with their values. */
  ghost predicate Whole(units: seq<Word>, tail: seq<nat>, ids: nat, keys: seq<Key>, values: seq<int>, sch: Scheme) {
    && Built(units, keys, sch) && |values| == |keys|
    && forall q: nat :: sch.IsLeafSlot(q) ==> LeafStored(units, tail, ids, keys, values, sch, q)
  }

  /** Leaves may be rewritten as long as they stay leaves. */
  lemma LeavesMayChange(units: seq<Word>, units': seq<Word>, tail: seq<nat>, ids: nat, keys: seq<Key>, values: seq<int>,
                        sch: Scheme)
    requires Built(units, keys, sch) && |units'| == |units| && |values| == |keys|
    requires forall q: nat :: q < |units| && !sch.IsLeafSlot(q) ==> units'[q] == units[q]
    requires forall q: nat :: sch.IsLeafSlot(q) ==> LeafStored(units', tail, ids, keys, values, sch, q)
    ensures Whole(units', tail, ids, keys, values, sch)
  {
    hide AreKeys, Filler, IsLeaf, Offset, NodeOk, SlotOwned, UnitOk, LinksRest;
    ChildKeys(units, keys, sch);
    forall q | q in sch.owner ensures UnitOk(units', keys, sch, q) {
      TrieParts(units, keys, sch, q);
      if sch.IsLeafSlot(q) {
        StillLeaf(units', tail, ids, keys, values, sch, q);
      } else {
        UnitSame(units, units', keys, sch, q);
      }
    }
    forall q: nat | q < |units| ensures q in sch.owner || Filler(units', sch.node.Keys + {0}, q) {
      if q !in sch.owner { FillerSame(units, units', sch.node.Keys + {0}, q); }
    }
  }

  /** What lies behind the tail does not matter. */
  lemma WholeLonger(units: seq<Word>, tail: seq<nat>, tail': seq<nat>, ids: nat, keys: seq<Key>, values: seq<int>,
                    sch: Scheme)
    requires Whole(units, tail, ids, keys, values, sch) && tail <= tail'
    ensures Whole(units, tail', ids, keys, values, sch)
  {
    hide Built, LinksRest;
    forall q: nat | sch.IsLeafSlot(q) ensures LeafStored(units, tail', ids, keys, values, sch, q) {
      assert LeafStored(units, tail, ids, keys, values, sch, q);
      var i, d := sch.child[q].begin, sch.child[q].depth;
      LinksLonger(units[q], tail, tail', ids, keys[i][d - 1..], values[i]);
    }
  }

  lemma StillLeaf(units: seq<Word>, tail: seq<nat>, ids: nat, keys: seq<Key>, values: seq<int>, sch: Scheme, q: nat)
    requires sch.IsLeafSlot(q) && q in sch.owner && q != 1 && LeafStored(units, tail, ids, keys, values, sch, q)
    ensures UnitOk(units, keys, sch, q)
  {
    hide IsLeaf, LinksTo, Label, StoredAt, ValueIs;
  }
}
