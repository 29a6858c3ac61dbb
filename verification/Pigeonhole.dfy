/** Counting: as many owners as slots leave no slot without one. */
module Pigeonhole {
  lemma {:induction false} ImageIsSmaller(s: set<nat>, f: map<nat, nat>)
    requires s <= f.Keys
    ensures |set x | x in s :: f[x]| <= |s|
  {
    if s != {} {
      var x :| x in s;
      ImageIsSmaller(s - {x}, f);
      assert (set y | y in s :: f[y]) == (set y | y in s - {x} :: f[y]) + {f[x]};
    }
  }

  function Range(lo: nat, n: nat): (r: set<nat>)
    ensures forall q :: q in r <==> lo <= q < lo + n
    ensures |r| == n
  {
    if n == 0 then {} else Range(lo, n - 1) + {lo + n - 1}
  }

  lemma Larger(a: set<nat>, b: set<nat>)
    requires a <= b
    ensures |a| <= |b| && (|a| == |b| ==> a == b)
  {
    assert b == a + (b - a);
  }

  ghost predicate OwnsOne(owner: map<nat, nat>, lo: nat, n: nat, b: nat) {
    exists q: nat :: q in owner && owner[q] == b && lo <= q < lo + n
  }

  /** If every number of a range owns a slot of the range, every slot is owned. */
  lemma AllOwned(owner: map<nat, nat>, lo: nat, n: nat)
    requires forall b: nat :: lo <= b < lo + n ==> OwnsOne(owner, lo, n, b)
    ensures forall q: nat :: lo <= q < lo + n ==> q in owner
  {
    var range := Range(lo, n);
    var taken := set q | q in range && q in owner;
    var image := set q | q in taken :: owner[q];
    forall b | b in range ensures b in image {
      assert OwnsOne(owner, lo, n, b);
      var q: nat :| q in owner && owner[q] == b && lo <= q < lo + n;
      assert q in taken;
    }
    Larger(range, image);
    ImageIsSmaller(taken, owner);
    Larger(taken, range);
  }
}
