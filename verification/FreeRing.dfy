/** The circular list of unfixed slots that the array builder threads through its `extras`.

    Only the last 16 blocks of the array can still receive units, so the bookkeeping lives
    in a ring of 4096 records indexed by slot modulo 4096.  A ring is described by the window
    `[lo, n)` of live slots, the records of those slots, and `free`, the unfixed slots of the
    window in list order. */
module FreeRing {
  const NUM_EXTRAS: nat := 4096

  datatype Extra = Extra(prev: nat, next: nat, isFixed: bool, isUsed: bool)

  type Extras = s: seq<Extra> | |s| == NUM_EXTRAS witness seq(NUM_EXTRAS, i => Extra(0, 0, false, false))

  type Records = map<nat, Extra>

  function At(ex: Extras, id: nat): Extra {
    ex[id % NUM_EXTRAS]
  }

  function Put(ex: Extras, id: nat, r: Extra): Extras {
    ex[id % NUM_EXTRAS := r]
  }

  function SetNext(ex: Extras, id: nat, next: nat): Extras {
    Put(ex, id, At(ex, id).(next := next))
  }

  function SetPrev(ex: Extras, id: nat, prev: nat): Extras {
    Put(ex, id, At(ex, id).(prev := prev))
  }

  predicate Window(lo: nat, n: nat) {
    lo % 256 == 0 && n % 256 == 0 && lo <= n <= lo + NUM_EXTRAS
  }

  /** The records of the live slots. */
  function RecordsOf(lo: nat, n: nat, ex: Extras): Records {
    map id: nat | lo <= id < n :: At(ex, id)
  }

  /** Indexing modulo 4096 never confuses two live slots. */
  lemma LiveSlotsDistinct(lo: nat, n: nat, a: nat, b: nat)
    requires Window(lo, n) && lo <= a < n && lo <= b < n && a != b
    ensures a % NUM_EXTRAS != b % NUM_EXTRAS
  {
    var qa, qb := a / NUM_EXTRAS, b / NUM_EXTRAS;
    if qa == qb {
    } else if qa > qb + 1 {
      assert false;
    } else if qb > qa + 1 {
      assert false;
    }
  }

  lemma PutRecord(lo: nat, n: nat, ex: Extras, id: nat, r: Extra)
    requires Window(lo, n) && lo <= id < n
    ensures At(ex, id) == RecordsOf(lo, n, ex)[id]
    ensures RecordsOf(lo, n, Put(ex, id, r)) == RecordsOf(lo, n, ex)[id := r]
  {
    forall x: nat | lo <= x < n
      ensures At(Put(ex, id, r), x) == if x == id then r else At(ex, x)
    {
      if x != id { LiveSlotsDistinct(lo, n, x, id); }
    }
  }

  lemma SetNextRecord(lo: nat, n: nat, ex: Extras, id: nat, next: nat)
    requires Window(lo, n) && lo <= id < n
    ensures var m := RecordsOf(lo, n, ex);
      id in m && m[id] == At(ex, id) && RecordsOf(lo, n, SetNext(ex, id, next)) == m[id := m[id].(next := next)]
  {
    PutRecord(lo, n, ex, id, At(ex, id).(next := next));
  }

  lemma SetPrevRecord(lo: nat, n: nat, ex: Extras, id: nat, prev: nat)
    requires Window(lo, n) && lo <= id < n
    ensures var m := RecordsOf(lo, n, ex);
      id in m && m[id] == At(ex, id) && RecordsOf(lo, n, SetPrev(ex, id, prev)) == m[id := m[id].(prev := prev)]
  {
    PutRecord(lo, n, ex, id, At(ex, id).(prev := prev));
  }

  ghost predicate Increasing(s: seq<nat>) {
    forall i, j :: 0 <= i < j < |s| ==> s[i] < s[j]
  }

  function Succ(free: seq<nat>, i: nat): nat
    requires i < |free|
  {
    if i + 1 < |free| then free[i + 1] else free[0]
  }

  function Pred(free: seq<nat>, i: nat): nat
    requires i < |free|
  {
    if i > 0 then free[i - 1] else free[|free| - 1]
  }

  function Head(n: nat, free: seq<nat>): nat {
    if free == [] then n else free[0]
  }

  ghost predicate Covers(lo: nat, n: nat, m: Records) {
    forall id: nat :: id in m <==> lo <= id < n
  }

  ghost predicate Linked(m: Records, free: seq<nat>) {
    forall i: nat :: i < |free| ==> free[i] in m && m[free[i]].next == Succ(free, i) && m[free[i]].prev == Pred(free, i)
  }

  /** `free` lists exactly the live slots that are not fixed. */
  ghost predicate ListsFree(m: Records, free: seq<nat>) {
    forall id: nat :: id in m ==> (m[id].isFixed <==> id !in free)
  }

  ghost predicate Ring(lo: nat, n: nat, m: Records, head: nat, free: seq<nat>) {
    && Window(lo, n)
    && Covers(lo, n, m)
    && Increasing(free)
    && Linked(m, free)
    && ListsFree(m, free)
    && head == Head(n, free)
  }

  // Taking a slot out of the list.

  function Without(free: seq<nat>, j: nat): seq<nat>
    requires j < |free|
  {
    free[..j] + free[j + 1..]
  }

  lemma WithoutKeeps(free: seq<nat>, j: nat)
    requires j < |free| && Increasing(free)
    ensures Increasing(Without(free, j))
    ensures forall x :: x in Without(free, j) <==> x in free && x != free[j]
  {
    var f := Without(free, j);
    forall x ensures x in f <==> x in free && x != free[j] {
      if x in free && x != free[j] {
        var i :| 0 <= i < |free| && free[i] == x;
        assert f[if i < j then i else i - 1] == x;
      }
    }
  }

  /** The neighbours of `id` are joined, and `id` is fixed. */
  function Unlink(m: Records, id: nat): (r: Records)
    requires id in m && m[id].prev in m && m[id].next in m
    ensures r.Keys == m.Keys
  {
    var p, q := m[id].prev, m[id].next;
    var m1 := m[p := m[p].(next := q)];
    var m2 := m1[q := m1[q].(prev := p)];
    m2[id := m2[id].(isFixed := true)]
  }

  /** The same on the ring of 4096 records. */
  function UnlinkIn(ex: Extras, id: nat): Extras {
    var ex1 := SetNext(ex, At(ex, id).prev, At(ex, id).next);
    var ex2 := SetPrev(ex1, At(ex1, id).next, At(ex1, id).prev);
    Put(ex2, id, At(ex2, id).(isFixed := true))
  }

  lemma UnlinkRecords(lo: nat, n: nat, ex: Extras, id: nat)
    requires Window(lo, n)
    requires var m := RecordsOf(lo, n, ex); id in m && m[id].prev in m && m[id].next in m
    ensures RecordsOf(lo, n, UnlinkIn(ex, id)) == Unlink(RecordsOf(lo, n, ex), id)
  {
    hide At, Put, Window, SetNext, SetPrev;
    var m := RecordsOf(lo, n, ex);
    var p, q := m[id].prev, m[id].next;
    SetNextRecord(lo, n, ex, p, q);
    var ex1 := SetNext(ex, p, q);
    SetPrevRecord(lo, n, ex1, q, p);
    var ex2 := SetPrev(ex1, q, p);
    assert At(ex1, id).next == q && At(ex1, id).prev == p;
    PutRecord(lo, n, ex2, id, At(ex2, id).(isFixed := true));
  }

  lemma {:induction false} UnlinkLinks(m: Records, free: seq<nat>, j: nat)
    requires Linked(m, free) && Increasing(free) && j < |free|
    ensures Pred(free, j) in m && Succ(free, j) in m
    ensures Linked(Unlink(m, free[j]), Without(free, j))
  {
    var id, f := free[j], Without(free, j);
    assert free[j] in m && m[id].next == Succ(free, j) && m[id].prev == Pred(free, j);
    assert free[0] in m && free[|free| - 1] in m;
    assert j + 1 < |free| ==> free[j + 1] in m;
    assert j > 0 ==> free[j - 1] in m;
    var r := Unlink(m, id);
    forall i: nat | i < |f|
      ensures f[i] in r && r[f[i]].next == Succ(f, i) && r[f[i]].prev == Pred(f, i)
    {
      UnlinkOne(m, free, j, i);
    }
  }

  /** Neighbours in the shortened list. */
  lemma NeighboursWithout(free: seq<nat>, j: nat, i: nat)
    requires Increasing(free) && j < |free| && i < |Without(free, j)|
    ensures var i0 := if i < j then i else i + 1;
      && i0 < |free| && Without(free, j)[i] == free[i0] && free[i0] != free[j]
      && Succ(Without(free, j), i) == (if free[i0] == Pred(free, j) then Succ(free, j) else Succ(free, i0))
      && Pred(Without(free, j), i) == (if free[i0] == Succ(free, j) then Pred(free, j) else Pred(free, i0))
  {
    var f := Without(free, j);
    var i0 := if i < j then i else i + 1;
    assert f[i] == free[i0];
    assert i + 1 < |f| ==> f[i + 1] == free[if i + 1 < j then i + 1 else i + 2];
    assert i > 0 ==> f[i - 1] == free[if i - 1 < j then i - 1 else i];
    assert f[0] == free[if 0 < j then 0 else 1];
    assert f[|f| - 1] == free[if |f| - 1 < j then |f| - 1 else |f|];
  }

  lemma UnlinkOne(m: Records, free: seq<nat>, j: nat, i: nat)
    requires Linked(m, free) && Increasing(free) && j < |free| && i < |Without(free, j)|
    requires Pred(free, j) in m && Succ(free, j) in m && free[j] in m
    requires m[free[j]].prev == Pred(free, j) && m[free[j]].next == Succ(free, j)
    ensures var f, r := Without(free, j), Unlink(m, free[j]);
      f[i] in r && r[f[i]].next == Succ(f, i) && r[f[i]].prev == Pred(f, i)
  {
    hide Succ, Pred, Without, Increasing, Unlink;
    NeighboursWithout(free, j, i);
    var i0 := if i < j then i else i + 1;
    assert free[i0] in m && m[free[i0]].next == Succ(free, i0) && m[free[i0]].prev == Pred(free, i0);
    UnlinkFields(m, free[j], free[i0]);
  }

  lemma UnlinkFields(m: Records, id: nat, x: nat)
    requires id in m && m[id].prev in m && m[id].next in m && x in m && x != id
    ensures Unlink(m, id)[x].next == if x == m[id].prev then m[id].next else m[x].next
    ensures Unlink(m, id)[x].prev == if x == m[id].next then m[id].prev else m[x].prev
  {
  }

  lemma HeadWithout(lo: nat, n: nat, m: Records, free: seq<nat>, j: nat)
    requires Linked(m, free) && Increasing(free) && j < |free|
    ensures free[j] in m && m[free[j]].next == Succ(free, j) && m[free[j]].prev == Pred(free, j)
    ensures var head, id, next := Head(n, free), free[j], Succ(free, j);
      Head(n, Without(free, j)) == if id == head then (if next == id then n else next) else head
  {
    var f := Without(free, j);
    assert f != [] ==> f[0] == free[if 0 < j then 0 else 1];
  }

  lemma UnlinkFlags(m: Records, id: nat, x: nat)
    requires id in m && m[id].prev in m && m[id].next in m && x in m
    ensures Unlink(m, id)[x].isUsed == m[x].isUsed
    ensures Unlink(m, id)[x].isFixed == (x == id || m[x].isFixed)
  {
  }

  /** Reserving a free slot keeps the ring, minus that slot, and nobody's `isUsed` changes. */
  lemma UnlinkKeepsRing(lo: nat, n: nat, m: Records, head: nat, free: seq<nat>, j: nat)
    requires Ring(lo, n, m, head, free) && j < |free|
    ensures free[j] in m && m[free[j]].prev in m && m[free[j]].next in m
    ensures var id := free[j];
      var next := m[id].next;
      var head' := if id == head then (if next == id then n else next) else head;
      Ring(lo, n, Unlink(m, id), head', Without(free, j))
    ensures forall x :: x in m ==> Unlink(m, free[j])[x].isUsed == m[x].isUsed
  {
    hide Succ, Pred, Without, Linked, Increasing, Head, Unlink;
    HeadWithout(lo, n, m, free, j);
    UnlinkLinks(m, free, j);
    WithoutKeeps(free, j);
    forall x | x in m
      ensures Unlink(m, free[j])[x].isUsed == m[x].isUsed
      ensures Unlink(m, free[j])[x].isFixed == (x == free[j] || m[x].isFixed)
    {
      UnlinkFlags(m, free[j], x);
    }
  }

  // Adding a block.

  function Block(n: nat): (r: seq<nat>)
    ensures |r| == 256 && forall i :: 0 <= i < 256 ==> r[i] == n + i
  {
    seq(256, i requires 0 <= i => n + i)
  }

  lemma BlockMembers(n: nat)
    ensures forall x :: x in Block(n) <==> n <= x < n + 256
  {
    forall x | n <= x < n + 256 ensures x in Block(n) {
      assert Block(n)[x - n] == x;
    }
  }

  /** The links `expand_units` writes: the new block is a chain that goes in front of the
      head, which is the end of the list. */
  ghost predicate Spliced(n: nat, m: Records, free: seq<nat>, m': Records) {
    && (forall id: nat :: id in m' <==> id in m || n <= id < n + 256)
    && (forall id: nat :: n <= id < n + 256 ==>
          && !m'[id].isFixed
          && m'[id].next == (if id < n + 255 then id + 1 else Head(n, free))
          && m'[id].prev == (if id > n then id - 1 else Last(n, free)))
    && (forall id: nat :: id in m ==>
          && m'[id].isFixed == m[id].isFixed
          && m'[id].next == (if free != [] && id == Last(n, free) then n else m[id].next)
          && m'[id].prev == (if free != [] && id == Head(n, free) then n + 255 else m[id].prev))
  }

  function Last(n: nat, free: seq<nat>): nat {
    if free == [] then n + 255 else free[|free| - 1]
  }

  lemma SpliceNeighbours(n: nat, free: seq<nat>, i: nat)
    requires i < |free| + 256
    ensures var f := free + Block(n);
      && (i < |free| ==> f[i] == free[i])
      && (i >= |free| ==> f[i] == n + (i - |free|))
      && Succ(f, i) == (if i < |free| then (if i + 1 == |free| then n else Succ(free, i))
                        else if f[i] < n + 255 then f[i] + 1 else Head(n, free))
      && Pred(f, i) == (if i < |free| then (if i == 0 then n + 255 else Pred(free, i))
                        else if f[i] > n then f[i] - 1 else Last(n, free))
  {
  }

  lemma SpliceLinks(lo: nat, n: nat, m: Records, head: nat, free: seq<nat>, m': Records)
    requires Ring(lo, n, m, head, free) && Spliced(n, m, free, m')
    ensures Linked(m', free + Block(n))
  {
    hide Succ, Pred, Head, Last, Block;
    var f := free + Block(n);
    forall i: nat | i < |f|
      ensures f[i] in m' && m'[f[i]].next == Succ(f, i) && m'[f[i]].prev == Pred(f, i)
    {
      SpliceNeighbours(n, free, i);
      if i < |free| {
        assert free[i] in m && m[free[i]].next == Succ(free, i) && m[free[i]].prev == Pred(free, i);
        EndsOfList(n, free, i);
      }
    }
  }

  lemma EndsOfList(n: nat, free: seq<nat>, i: nat)
    requires Increasing(free) && i < |free|
    ensures free[i] == Last(n, free) <==> i + 1 == |free|
    ensures free[i] == Head(n, free) <==> i == 0
  {
  }

  /** A new block joins the ring as its last 256 slots. */
  lemma SpliceKeepsRing(lo: nat, n: nat, m: Records, head: nat, free: seq<nat>, m': Records)
    requires Ring(lo, n, m, head, free) && Spliced(n, m, free, m') && Window(lo, n + 256)
    ensures Ring(lo, n + 256, m', head, free + Block(n))
  {
    hide Succ, Pred, Last, Linked;
    SpliceLinks(lo, n, m, head, free, m');
    SpliceOrder(lo, n, m, head, free);
    var f := free + Block(n);
    forall id: nat | id in m' ensures m'[id].isFixed <==> id !in f {
      if n <= id < n + 256 {
        assert f[|free| + (id - n)] == id;
      } else {
        assert id in f <==> id in free;
      }
    }
  }

  lemma SpliceOrder(lo: nat, n: nat, m: Records, head: nat, free: seq<nat>)
    requires Ring(lo, n, m, head, free)
    ensures Increasing(free + Block(n))
    ensures Head(n + 256, free + Block(n)) == Head(n, free)
  {
    hide Succ, Pred;
    forall i: nat | i < |free| ensures free[i] < n {
      assert free[i] in m;
    }
  }

  // Retiring a block.

  /** Once the oldest block has no unfixed slot, its records are no longer needed. */
  lemma RetireKeepsRing(lo: nat, n: nat, m: Records, head: nat, free: seq<nat>, m': Records)
    requires Ring(lo, n, m, head, free) && lo + 256 <= n
    requires forall id :: id in free ==> lo + 256 <= id
    requires Covers(lo + 256, n, m') && forall id :: id in m' && id in m ==> m'[id] == m[id]
    ensures Ring(lo + 256, n, m', head, free)
  {
    hide Succ, Pred;
    forall i: nat | i < |free|
      ensures free[i] in m' && m'[free[i]].next == Succ(free, i) && m'[free[i]].prev == Pred(free, i)
    {
      assert free[i] in m;
      assert free[i] in free;
    }
  }

  /** The new block as a chain, up to `i`. */
  ghost predicate Chained(n: nat, m0: Records, i: nat, m: Records) {
    && m.Keys == m0.Keys
    && forall id: nat :: id in m0 ==>
         m[id] == m0[id].(prev := if n < id < i then id - 1 else m0[id].prev,
                          next := if n <= id < i - 1 then id + 1 else m0[id].next)
  }

  lemma ChainedStep(n: nat, m0: Records, i: nat, m: Records)
    requires Chained(n, m0, i, m) && n < i && i - 1 in m0 && i in m0
    ensures i - 1 in m && i in m
    ensures var m1 := m[i - 1 := m[i - 1].(next := i)];
      Chained(n, m0, i + 1, m1[i := m1[i].(prev := i - 1)])
  {
  }

  /** The chain after joining it to the list at `head`, whose last element is `last`. */
  function Join(n: nat, head: nat, last: nat, m: Records): Records
    requires n in m && n + 255 in m && head in m && last in m
  {
    var m1 := m[n := m[n].(prev := last)];
    var m2 := m1[n + 255 := m1[n + 255].(next := head)];
    var m3 := m2[last := m2[last].(next := n)];
    m3[head := m3[head].(prev := n + 255)]
  }

  lemma JoinRecord(n: nat, head: nat, last: nat, m: Records, id: nat)
    requires n in m && n + 255 in m && head in m && last in m && id in m
    ensures id in Join(n, head, last, m)
    ensures Join(n, head, last, m)[id] == m[id].(
      next := if id == last then n else if id == n + 255 then head else m[id].next,
      prev := if id == head then n + 255 else if id == n then last else m[id].prev)
  {
  }

  /** The slots at which the old list and the new block meet. */
  lemma JoinEnds(lo: nat, n: nat, m: Records, head: nat, free: seq<nat>, m0: Records, m1: Records)
    requires Ring(lo, n, m, head, free) && Covers(lo, n + 256, m0) && m1.Keys == m0.Keys
    ensures n in m1 && n + 255 in m1 && head in m1 && Last(n, free) in m1 && head == Head(n, free)
    ensures if free == [] then head == n && Last(n, free) == n + 255 else head < n && Last(n, free) < n
    ensures forall id: nat :: id in m1 <==> id in m || n <= id < n + 256
    ensures forall id :: id in m ==> id < n
  {
    hide Succ, Pred, ListsFree;
    if free != [] {
      assert free[0] in m && free[|free| - 1] in m;
    }
  }

  lemma JoinSplices(lo: nat, n: nat, m: Records, head: nat, free: seq<nat>, m0: Records, m1: Records)
    requires Ring(lo, n, m, head, free) && Covers(lo, n + 256, m0) && Chained(n, m0, n + 256, m1)
    requires forall id :: id in m ==> m0[id] == m[id]
    requires forall id: nat :: n <= id < n + 256 ==> !m0[id].isFixed
    ensures n in m1 && n + 255 in m1 && head in m1 && Last(n, free) in m1
    ensures Spliced(n, m, free, Join(n, head, Last(n, free), m1))
    ensures forall id :: id in m1 ==> Join(n, head, Last(n, free), m1)[id].isUsed == m0[id].isUsed
  {
    hide Join, Ring, Covers, Head, Last;
    JoinEnds(lo, n, m, head, free, m0, m1);
    forall id | id in m1
      ensures id in Join(n, head, Last(n, free), m1)
      ensures Join(n, head, Last(n, free), m1)[id] == m1[id].(
        next := if id == Last(n, free) then n else if id == n + 255 then head else m1[id].next,
        prev := if id == head then n + 255 else if id == n then Last(n, free) else m1[id].prev)
    {
      JoinRecord(n, head, Last(n, free), m1, id);
    }
    JoinKeys(n, head, Last(n, free), m1);
  }

  lemma JoinKeys(n: nat, head: nat, last: nat, m: Records)
    requires n in m && n + 255 in m && head in m && last in m
    ensures Join(n, head, last, m).Keys == m.Keys
  {
  }
}
