/** The hash table of frozen states: open addressing with linear probing. */
module DawgTable {
  import opened Bits
  import opened DawgStore

  const WORD: nat := 0x1_0000_0000

  /** 32-bit mix function. */
  function Mix(key: nat): nat {
    var k := key % WORD;
    var k1 := (WORD - 1 - k + k * 0x8000) % WORD;
    var k2 := Xor(k1, k1 / 0x1000);
    var k3 := (k2 + k2 * 4) % WORD;
    var k4 := Xor(k3, k3 / 16);
    var k5 := k4 * 2057 % WORD;
    Xor(k5, k5 / 0x1_0000)
  }

  function MixCell(c: Cell): nat {
    Mix(Xor(c.byte * 0x100_0000, c.word))
  }

  /** The hash of a state: the mixes of its edges, joined by exclusive-or. */
  function Hash(g: seq<Cell>): nat {
    if g == [] then 0 else Xor(MixCell(g[0]), Hash(g[1..]))
  }

  /** Adding the edges from the last one to the first. */
  lemma HashDown(g: seq<Cell>, i: nat)
    requires i < |g|
    ensures Xor(Hash(g[i + 1..]), MixCell(g[i])) == Hash(g[i..])
  {
    hide Xor, MixCell;
    assert g[i..][0] == g[i] && g[i..][1..] == g[i + 1..];
    XorComm(MixCell(g[i]), Hash(g[i + 1..]));
  }

  /** Adding the edges from the first one to the last gives the same. */
  lemma HashUp(h: nat, g: seq<Cell>, i: nat)
    requires i < |g| && Xor(h, Hash(g[i..])) == Hash(g)
    ensures Xor(Xor(h, MixCell(g[i])), Hash(g[i + 1..])) == Hash(g)
  {
    hide Xor, MixCell;
    assert g[i..][0] == g[i] && g[i..][1..] == g[i + 1..];
    XorAssoc(h, MixCell(g[i]), Hash(g[i + 1..]));
  }

  lemma HashEnds(g: seq<Cell>)
    ensures Xor(0, Hash(g)) == Hash(g) && Hash(g[|g|..]) == 0
    ensures forall h: nat {:trigger Xor(h, 0)} :: Xor(h, 0) == h
  {
    XorZero(Hash(g));
    forall h: nat ensures Xor(h, 0) == h { XorZero(h); }
  }

  /** The slot `d` probes after `home`. */
  function Probe(home: nat, d: nat, n: nat): (r: nat)
    requires home < n && d < n
    ensures r < n
  {
    if home + d < n then home + d else home + d - n
  }

  lemma NextProbe(home: nat, d: nat, n: nat)
    requires home < n && d + 1 < n
    ensures (Probe(home, d, n) + 1) % n == Probe(home, d + 1, n)
  {
    var x := Probe(home, d, n) + 1;
    if x == n {
      assert n % n == 0;
    } else {
      SmallMod(x, n);
    }
  }

  lemma SmallMod(x: nat, n: nat)
    requires x < n
    ensures x % n == x
  {
  }

  /** The first `d` probes hit used slots. */
  ghost predicate Busy(table: seq<nat>, home: nat, d: nat)
    requires home < |table|
  {
    forall e :: 0 <= e < d && e < |table| ==> table[Probe(home, e, |table|)] != 0
  }

  function Used(table: seq<nat>): nat {
    if table == [] then 0 else Used(table[..|table| - 1]) + (if table[|table| - 1] != 0 then 1 else 0)
  }

  lemma {:induction false} UsedSet(table: seq<nat>, i: nat, v: nat)
    requires i < |table| && table[i] == 0 && v != 0
    ensures Used(table[i := v]) == Used(table) + 1
  {
    var n := |table| - 1;
    if i < n {
      UsedSet(table[..n], i, v);
      assert table[i := v][..n] == table[..n][i := v];
    } else {
      assert table[i := v][..n] == table[..n];
    }
  }

  lemma {:induction false} UsedFull(table: seq<nat>)
    requires forall i :: 0 <= i < |table| ==> table[i] != 0
    ensures Used(table) == |table|
  {
    if table != [] { UsedFull(table[..|table| - 1]); }
  }

  lemma {:induction false} UsedNone(table: seq<nat>)
    requires forall i :: 0 <= i < |table| ==> table[i] == 0
    ensures Used(table) == 0
  {
    if table != [] { UsedNone(table[..|table| - 1]); }
  }

  /** A table with a free slot is not busy all around. */
  lemma SomeFree(table: seq<nat>, home: nat)
    requires home < |table| && Used(table) < |table|
    ensures !Busy(table, home, |table|)
  {
    if Busy(table, home, |table|) {
      forall i | 0 <= i < |table| ensures table[i] != 0 {
        assert Probe(home, if i >= home then i - home else i - home + |table|, |table|) == i;
      }
      UsedFull(table);
      assert false;
    }
  }

  function Home(g: seq<Cell>, n: nat): (r: nat)
    requires n > 0
    ensures r < n
  {
    Hash(g) % n
  }

  /** The state `s` is in the table, `d` probes from its home. */
  ghost predicate Stored(cells: Cells, table: seq<nat>, s: nat, d: nat)
    requires |table| > 0
  {
    && d < |table|
    && Busy(table, Home(Group(cells, s), |table|), d)
    && table[Probe(Home(Group(cells, s), |table|), d, |table|)] == s
  }

  /** No two states have the same edges. */
  ghost predicate Distinct(cells: Cells) {
    forall s, t :: IsStart(cells, s) && IsStart(cells, t) && Group(cells, s) == Group(cells, t) ==> s == t
  }

  /** The table holds exactly the states before `bound`; `probes` tells where. */
  ghost predicate TableOk(cells: Cells, table: seq<nat>, probes: map<nat, nat>, bound: nat) {
    && |table| > 0
    && (forall i :: 0 <= i < |table| && table[i] != 0 ==> IsStart(cells, table[i]))
    && (forall s: nat :: s in probes <==> IsStart(cells, s) && s < bound)
    && (forall s :: s in probes ==> Stored(cells, table, s, probes[s]))
  }

  /** When probing meets a free slot, no state in the table has these edges. */
  lemma NotFound(cells: Cells, table: seq<nat>, probes: map<nat, nat>, bound: nat, g: seq<Cell>, d: nat, s: nat)
    requires TableOk(cells, table, probes, bound) && d < |table|
    requires table[Probe(Home(g, |table|), d, |table|)] == 0
    requires forall e :: 0 <= e < d ==> table[Probe(Home(g, |table|), e, |table|)] != s
    requires s in probes
    ensures Group(cells, s) != g
  {
    hide Home, Group;
    assert Stored(cells, table, s, probes[s]);
  }

  /** Using a free slot keeps all others reachable. */
  lemma StoreOne(cells: Cells, table: seq<nat>, probes: map<nat, nat>, bound: nat, s: nat, d: nat, i: nat)
    requires TableOk(cells, table, probes, bound) && IsStart(cells, s) && bound <= s
    requires d < |table| && Busy(table, Home(Group(cells, s), |table|), d)
    requires i == Probe(Home(Group(cells, s), |table|), d, |table|) && table[i] == 0
    requires forall t: nat :: IsStart(cells, t) && t <= s ==> t < bound || t == s
    ensures TableOk(cells, table[i := s], probes[s := d], s + 1)
  {
    hide Home, Group, Probe;
    var table', probes' := table[i := s], probes[s := d];
    forall t | t in probes' ensures Stored(cells, table', t, probes'[t]) {
      if t != s {
        assert Stored(cells, table, t, probes[t]);
        StoredKept(cells, table, t, probes[t], i, s);
      } else {
        BusyKept(table, Home(Group(cells, s), |table|), d, i, s);
      }
    }
  }

  lemma BusyKept(table: seq<nat>, home: nat, d: nat, i: nat, v: nat)
    requires home < |table| && i < |table| && v != 0 && Busy(table, home, d)
    ensures Busy(table[i := v], home, d)
  {
  }

  lemma StoredKept(cells: Cells, table: seq<nat>, t: nat, d: nat, i: nat, v: nat)
    requires |table| > 0 && i < |table| && table[i] == 0 && v != 0 && t != 0 && Stored(cells, table, t, d)
    ensures Stored(cells, table[i := v], t, d)
  {
    hide Home, Group, Probe, Busy;
    BusyKept(table, Home(Group(cells, t), |table|), d, i, v);
  }

  /** States appended to the store do not disturb the table. */
  lemma TableKept(cells: Cells, g: seq<Cell>, table: seq<nat>, probes: map<nat, nat>)
    requires StoreOk(cells) && GroupOk(cells, |cells|, g) && TableOk(cells, table, probes, |cells|)
    ensures TableOk(cells + g, table, probes, |cells|)
  {
    hide Home, Group, GroupOk, StoreOk, Busy;
    AppendState(cells, g);
    GroupFlags(cells, |cells|, g);
    forall s: nat ensures s in probes <==> IsStart(cells + g, s) && s < |cells| {
      StartsKept(cells, g, s);
    }
    forall s | s in probes ensures Stored(cells + g, table, s, probes[s]) {
      assert Stored(cells, table, s, probes[s]);
    }
  }

  lemma DistinctMore(cells: Cells, g: seq<Cell>)
    requires StoreOk(cells) && GroupOk(cells, |cells|, g) && Distinct(cells)
    requires forall s :: IsStart(cells, s) ==> Group(cells, s) != g
    ensures Distinct(cells + g)
  {
    hide Group, GroupOk, StoreOk;
    AppendState(cells, g);
    GroupFlags(cells, |cells|, g);
    forall s: nat ensures IsStart(cells + g, s) <==> IsStart(cells, s) || s == |cells| {
      StartsKept(cells, g, s);
    }
  }

  // Counting states.

  /** The number of states before `bound`. */
  ghost function CountStarts(cells: Cells, bound: nat): nat {
    if bound == 0 then 0 else CountStarts(cells, bound - 1) + (if IsStart(cells, bound - 1) then 1 else 0)
  }

  lemma {:induction false} CountGrows(cells: Cells, a: nat, b: nat)
    requires a <= b
    ensures CountStarts(cells, a) <= CountStarts(cells, b)
    decreases b
  {
    if a < b { CountGrows(cells, a, b - 1); }
  }

  lemma {:induction false} CountKept(cells: Cells, g: seq<Cell>, bound: nat)
    requires StoreOk(cells) && GroupOk(cells, |cells|, g)
    ensures bound <= |cells| ==> CountStarts(cells + g, bound) == CountStarts(cells, bound)
    ensures |cells| < bound ==> CountStarts(cells + g, bound) == CountStarts(cells, |cells|) + 1
    decreases bound
  {
    hide GroupOk, StoreOk, IsStart;
    if bound != 0 {
      CountKept(cells, g, bound - 1);
      GroupFlags(cells, |cells|, g);
      StartsKept(cells, g, bound - 1);
      NoStartOutside(cells, bound - 1);
    }
  }

  lemma NoStartOutside(cells: Cells, s: nat)
    ensures IsStart(cells, s) ==> 0 < s < |cells|
  {
  }

  /** The test of `expand_table` finds the first edge of each state. */
  lemma {:induction false} StartFlag(cells: Cells, id: nat)
    requires StoreOk(cells) && 0 < id < |cells|
    ensures cells[id].byte == 0 || cells[id].IsState() <==> IsStart(cells, id)
  {
    hide GroupOk, Group;
    var s, j := OwnGroup(cells, id);
    FlagInGroup(cells, s, Group(cells, s), j);
    GroupSpan(cells, s);
    assert cells[s..s + |Group(cells, s)|][j] == cells[id];
    if j > 0 {
      assert cells[s..s + |Group(cells, s)|][j - 1] == cells[id - 1];
    }
  }

  lemma FlagInGroup(cells: Cells, s: nat, g: seq<Cell>, j: nat)
    requires GroupOk(cells, s, g) && j < |g|
    ensures g[j].byte == 0 || g[j].IsState() <==> j == 0
    ensures j > 0 ==> g[j - 1].HasSibling()
  {
  }

  /** The state a cell belongs to. */
  lemma {:induction false} OwnGroup(cells: Cells, id: nat) returns (s: nat, j: nat)
    requires StoreOk(cells) && 0 < id < |cells|
    ensures IsStart(cells, s) && GroupOk(cells, s, Group(cells, s)) && j < |Group(cells, s)| && s + j == id
    decreases id
  {
    hide GroupOk, Group;
    if IsStart(cells, id) {
      s, j := id, 0;
      GroupFlags(cells, s, Group(cells, s));
    } else {
      s, j := OwnGroup(cells, id - 1);
      var g := Group(cells, s);
      GroupFlags(cells, s, g);
      GroupSpan(cells, s);
      assert cells[s..s + |g|][j] == cells[id - 1];
      j := j + 1;
    }
  }

  lemma EmptyTable(cells: Cells, n: nat, table: seq<nat>)
    requires n > 0 && |table| == n && forall i :: 0 <= i < n ==> table[i] == 0
    ensures TableOk(cells, table, map[], 1) && Used(table) == 0 == CountStarts(cells, 1)
  {
    UsedNone(table);
    assert CountStarts(cells, 1) == CountStarts(cells, 0);
  }

  lemma TableSkip(cells: Cells, table: seq<nat>, probes: map<nat, nat>, i: nat)
    requires TableOk(cells, table, probes, i) && !IsStart(cells, i)
    ensures TableOk(cells, table, probes, i + 1) && CountStarts(cells, i + 1) == CountStarts(cells, i)
  {
    hide IsStart, Stored;
  }
}
