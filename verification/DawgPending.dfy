/** The part of the word graph that is still open: the path of the last key.

    A level of the path holds the finished edges before the one the last key takes, and the
    label of that one.  Below the last level hangs a complete group of edges, `top`. */
module DawgPending {
  import opened Wrappers
  import opened Language
  import opened DawgStore

  datatype Level = Level(older: seq<Cell>, byte: nat, sib: bool)

  /** The value of `k`, looked up through the open path and then in the frozen states. */
  function Lookup(cells: Cells, path: seq<Level>, top: seq<Cell>, k: Key): Option<nat>
    decreases path
  {
    if path == [] then LookupIn(cells, top, k)
    else if k != [] && k[0] == path[0].byte then Lookup(cells, path[1..], top, k[1..])
    else LookupIn(cells, path[0].older, k)
  }

  ghost function Lang'(cells: Cells, path: seq<Level>, top: seq<Cell>): Lang {
    imap k: Key | Lookup(cells, path, top, k).Some? :: Lookup(cells, path, top, k).value
  }

  /** Edges that will be followed by one more. */
  ghost predicate OlderOk(cells: Cells, older: seq<Cell>) {
    && Ascending(older)
    && forall i :: 0 <= i < |older| ==> EdgeOk(cells, older, i, true)
  }

  /** One edge of a group: `more` tells whether another one follows. */
  ghost predicate EdgeOk(cells: Cells, g: seq<Cell>, i: nat, more: bool)
    requires i < |g|
  {
    && g[i].byte < 256
    && g[i].word < 0x1_0000_0000
    && (g[i].HasSibling() <==> more)
    && (g[i].byte == 0 || g[i].IsState() <==> i == 0)
    && (g[i].byte != 0 ==> g[i].Child() < |cells| && IsStart(cells, g[i].Child()))
  }

  ghost predicate LevelOk(cells: Cells, l: Level) {
    OlderOk(cells, l.older) && 0 < l.byte < 256 && forall i :: 0 <= i < |l.older| ==> l.older[i].byte < l.byte
  }

  ghost predicate PathOk(cells: Cells, path: seq<Level>) {
    forall i :: 0 <= i < |path| ==> LevelOk(cells, path[i])
  }

  /** The edge of a level whose subtree has become the state `m`. */
  function Edge(l: Level, m: nat): Cell {
    Cell(4 * m + (if l.older == [] then 2 else 0) + (if l.sib then 1 else 0), l.byte)
  }

  function Close(l: Level, m: nat): seq<Cell> {
    l.older + [Edge(l, m)]
  }

  lemma EdgeFields(l: Level, m: nat)
    ensures Edge(l, m).Child() == m && (Edge(l, m).HasSibling() <==> l.sib)
    ensures Edge(l, m).IsState() <==> l.older == []
  {
  }

  lemma CloseEdge(cells: Cells, l: Level, m: nat, i: nat)
    requires LevelOk(cells, l) && IsStart(cells, m) && |cells| < 0x4000_0000 && i <= |l.older|
    ensures EdgeOk(cells, Close(l, m), i, i < |l.older| || l.sib)
  {
    hide IsStart;
    EdgeFields(l, m);
    StartInside(cells, m);
    if i < |l.older| { assert EdgeOk(cells, l.older, i, true); }
  }

  lemma CloseOk(cells: Cells, l: Level, m: nat)
    requires LevelOk(cells, l) && IsStart(cells, m) && |cells| < 0x4000_0000
    ensures l.sib ==> OlderOk(cells, Close(l, m))
    ensures !l.sib ==> GroupOk(cells, |cells|, Close(l, m))
    ensures Close(l, m)[|l.older|].byte == l.byte
  {
    hide IsStart;
    var g := Close(l, m);
    if l.sib {
      forall i: nat | i < |g| ensures EdgeOk(cells, g, i, true) {
        CloseEdge(cells, l, m, i);
      }
    } else {
      forall i | 0 <= i < |g|
        ensures g[i].byte < 256 && g[i].word < 0x1_0000_0000 && (g[i].HasSibling() <==> i + 1 < |g|)
        ensures g[i].byte == 0 || g[i].IsState() <==> i == 0
        ensures g[i].byte != 0 ==> g[i].Child() < |cells| && IsStart(cells, g[i].Child())
      {
        CloseEdge(cells, l, m, i);
      }
    }
  }

  lemma StartInside(cells: Cells, m: nat)
    requires IsStart(cells, m)
    ensures 0 < m < |cells|
  {
  }

  // Lookups do not change when a subtree is frozen.

  lemma FindAppend(g: seq<Cell>, e: Cell, c: nat)
    ensures Find(g + [e], c) == if Find(g, c) < |g| then Find(g, c) else if e.byte == c then |g| else |g| + 1
  {
    if g == [] {
      assert [] + [e] == [e];
    } else {
      assert (g + [e])[0] == g[0] && (g + [e])[1..] == g[1..] + [e];
      if g[0].byte != c { FindAppend(g[1..], e, c); }
    }
  }

  lemma FindSmaller(g: seq<Cell>, c: nat)
    requires forall i :: 0 <= i < |g| ==> g[i].byte < c
    ensures Find(g, c) == |g|
  {
  }

  /** A level whose subtree is the state `m` looks up like the level with the subtree `top`. */
  lemma CloseLookup(cells: Cells, l: Level, m: nat, top: seq<Cell>, k: Key)
    requires LevelOk(cells, l) && m > 0 && Group(cells, m) == top
    ensures LookupIn(cells, Close(l, m), k) == Lookup(cells, [l], top, k)
  {
    EdgeFields(l, m);
    var g := Close(l, m);
    assert [l][1..] == [];
    if k == [] {
      FindAppend(l.older, Edge(l, m), 0);
    } else {
      FindAppend(l.older, Edge(l, m), k[0]);
      FindSmaller(l.older, l.byte);
    }
  }

  /** Freezing the last level of a path keeps all lookups. */
  lemma {:induction false} FreezeLookup(cells: Cells, path: seq<Level>, l: Level, m: nat, top: seq<Cell>, k: Key)
    requires LevelOk(cells, l) && m > 0 && Group(cells, m) == top
    ensures Lookup(cells, path, Close(l, m), k) == Lookup(cells, path + [l], top, k)
    decreases path
  {
    if path == [] {
      assert [] + [l] == [l];
      CloseLookup(cells, l, m, top, k);
    } else {
      assert (path + [l])[0] == path[0] && (path + [l])[1..] == path[1..] + [l];
      if k != [] && k[0] == path[0].byte {
        FreezeLookup(cells, path[1..], l, m, top, k[1..]);
      }
    }
  }

  // Lookups do not change when a state is appended to the store.

  lemma OlderKept(cells: Cells, g: seq<Cell>, older: seq<Cell>)
    requires StoreOk(cells) && GroupOk(cells, |cells|, g) && OlderOk(cells, older)
    ensures OlderOk(cells + g, older)
  {
    hide GroupOk, StoreOk, IsStart;
    AppendState(cells, g);
    forall i | 0 <= i < |older| ensures EdgeOk(cells + g, older, i, true) {
      assert EdgeOk(cells, older, i, true);
    }
  }

  lemma PathKept(cells: Cells, g: seq<Cell>, path: seq<Level>)
    requires StoreOk(cells) && GroupOk(cells, |cells|, g) && PathOk(cells, path)
    ensures PathOk(cells + g, path)
  {
    hide GroupOk, StoreOk, OlderOk;
    forall i | 0 <= i < |path| ensures LevelOk(cells + g, path[i]) {
      assert LevelOk(cells, path[i]);
      OlderKept(cells, g, path[i].older);
    }
  }

  lemma OlderLookupKept(cells: Cells, g: seq<Cell>, older: seq<Cell>, k: Key)
    requires StoreOk(cells) && GroupOk(cells, |cells|, g)
    requires forall i :: 0 <= i < |older| && older[i].byte != 0 ==> IsStart(cells, older[i].Child())
    ensures LookupIn(cells + g, older, k) == LookupIn(cells, older, k)
  {
    if k != [] {
      var i := Find(older, k[0]);
      if k[0] != 0 && i < |older| {
        var child := older[i].Child();
        AppendState(cells, g);
        LookupKept(cells, g, child, Group(cells, child), k[1..]);
      }
    }
  }

  ghost predicate Leads(cells: Cells, g: seq<Cell>) {
    forall i :: 0 <= i < |g| && g[i].byte != 0 ==> IsStart(cells, g[i].Child())
  }

  lemma {:induction false} PathLookupKept(cells: Cells, g: seq<Cell>, path: seq<Level>, top: seq<Cell>, k: Key)
    requires StoreOk(cells) && GroupOk(cells, |cells|, g) && PathOk(cells, path) && Leads(cells, top)
    ensures Lookup(cells + g, path, top, k) == Lookup(cells, path, top, k)
    decreases path
  {
    hide StoreOk, GroupOk, LookupIn, IsStart;
    if path == [] {
      OlderLookupKept(cells, g, top, k);
    } else {
      assert LevelOk(cells, path[0]);
      OlderLeads(cells, path[0].older);
      OlderLookupKept(cells, g, path[0].older, k);
      if k != [] && k[0] == path[0].byte {
        assert forall i :: 0 <= i < |path[1..]| ==> path[1..][i] == path[i + 1];
        PathLookupKept(cells, g, path[1..], top, k[1..]);
      }
    }
  }

  lemma OlderLeads(cells: Cells, older: seq<Cell>)
    requires OlderOk(cells, older)
    ensures Leads(cells, older)
  {
    forall i | 0 <= i < |older| && older[i].byte != 0 ensures IsStart(cells, older[i].Child()) {
      assert EdgeOk(cells, older, i, true);
    }
  }

  lemma GroupLeads(cells: Cells, s: nat, g: seq<Cell>)
    requires GroupOk(cells, s, g)
    ensures Leads(cells, g)
  {
  }

  // A new key.

  /** The labels of a path. */
  function Bytes(path: seq<Level>): Key {
    if path == [] then [] else [path[0].byte] + Bytes(path[1..])
  }

  /** The path of the rest of a new key. */
  function Spine(k: Key): seq<Level> {
    if k == [] then [] else [Level([], k[0], false)] + Spine(k[1..])
  }

  /** The edge of a key's end. */
  function Leaf(value: nat): seq<Cell> {
    [Cell(2 * value, 0)]
  }

  lemma {:induction false} SpineLookup(cells: Cells, rest: Key, value: nat, q: Key)
    requires IsText(rest)
    ensures Lookup(cells, Spine(rest), Leaf(value), q) == if q == rest then Some(value) else None
    decreases rest
  {
    if rest == [] {
      if q != [] && q[0] != 0 {
        assert Find(Leaf(value), q[0]) == 1;
      }
    } else {
      var path := Spine(rest);
      assert path[0] == Level([], rest[0], false) && path[1..] == Spine(rest[1..]);
      assert rest[0] != 0;
      if q != [] && q[0] == rest[0] {
        SpineLookup(cells, rest[1..], value, q[1..]);
        assert q == [q[0]] + q[1..] && rest == [rest[0]] + rest[1..];
      }
    }
  }

  /** Branching off: all other keys keep their value, and the new key gets its own. */
  lemma {:induction false} BranchLookup(cells: Cells, path: seq<Level>, older: seq<Cell>, key: Key, value: nat, q: Key)
    requires IsText(key) && |path| < |key| && Bytes(path) == key[..|path|]
    requires forall i :: 0 <= i < |older| ==> older[i].byte < key[|path|]
    ensures Lookup(cells, path + [Level(older, key[|path|], false)] + Spine(key[|path| + 1..]), Leaf(value), q)
         == if q == key then Some(value) else Lookup(cells, path, older, q)
    decreases path
  {
    var n := |path|;
    var l := Level(older, key[n], false);
    var all := path + [l] + Spine(key[n + 1..]);
    if path == [] {
      assert all[0] == l && all[1..] == Spine(key[1..]);
      if q != [] && q[0] == key[0] {
        SpineLookup(cells, key[1..], value, q[1..]);
        assert q == [q[0]] + q[1..] && key == [key[0]] + key[1..];
        FindSmaller(older, key[0]);
      }
    } else {
      assert all[0] == path[0] && all[1..] == path[1..] + [l] + Spine(key[1..][n..]);
      assert key[0] == Bytes(path)[0] == path[0].byte;
      assert Bytes(path[1..]) == Bytes(path)[1..] == key[1..][..n - 1];
      if q != [] && q[0] == path[0].byte {
        BranchLookup(cells, path[1..], older, key[1..], value, q[1..]);
        assert q == [q[0]] + q[1..] && key == [key[0]] + key[1..];
      }
    }
  }

  /** The group of a finished level may get one more edge once its last edge has a sibling. */
  function WithSibling(g: seq<Cell>): seq<Cell>
    requires g != []
  {
    g[|g| - 1 := g[|g| - 1].(word := g[|g| - 1].word / 2 * 2 + 1)]
  }

  lemma SiblingFields(c: Cell)
    ensures var d := c.(word := c.word / 2 * 2 + 1);
      d.HasSibling() && d.Child() == c.Child() && d.Value() == c.Value() && (d.IsState() <==> c.IsState())
        && d.byte == c.byte
      && (c.word < 0x1_0000_0000 ==> d.word < 0x1_0000_0000)
  {
    var v := c.word / 2;
    assert (v * 2 + 1) / 2 == v;
    assert (v * 2 + 1) / 4 == v / 2 == c.word / 4;
  }

  lemma WithSiblingOk(cells: Cells, g: seq<Cell>)
    requires GroupOk(cells, |cells|, g)
    ensures OlderOk(cells, WithSibling(g)) && |WithSibling(g)| == |g|
    ensures forall i :: 0 <= i < |g| ==> WithSibling(g)[i].byte == g[i].byte
  {
    hide IsStart;
    var h := WithSibling(g);
    SiblingFields(g[|g| - 1]);
    forall i: nat | i < |h| ensures EdgeOk(cells, h, i, true) {
    }
  }

  lemma WithSiblingLookup(cells: Cells, g: seq<Cell>, k: Key)
    requires g != []
    ensures LookupIn(cells, WithSibling(g), k) == LookupIn(cells, g, k)
  {
    SiblingFields(g[|g| - 1]);
    FindSameBytes(g, WithSibling(g), if k == [] then 0 else k[0]);
  }

  lemma {:induction false} FindSameBytes(g: seq<Cell>, h: seq<Cell>, c: nat)
    requires |g| == |h| && forall i :: 0 <= i < |g| ==> g[i].byte == h[i].byte
    ensures Find(g, c) == Find(h, c)
  {
    if g != [] && g[0].byte != c { FindSameBytes(g[1..], h[1..], c); }
  }

  lemma {:induction false} PathLookupSame(cells: Cells, path: seq<Level>, g: seq<Cell>, h: seq<Cell>, k: Key)
    requires forall q: Key :: LookupIn(cells, g, q) == LookupIn(cells, h, q)
    ensures Lookup(cells, path, g, k) == Lookup(cells, path, h, k)
    decreases path
  {
    hide LookupIn;
    if path != [] && k != [] && k[0] == path[0].byte {
      PathLookupSame(cells, path[1..], g, h, k[1..]);
    }
  }

  /** The number of edges in the open part. */
  function Size(path: seq<Level>): nat {
    if path == [] then 0 else Size(path[..|path| - 1]) + |path[|path| - 1].older| + 1
  }

  lemma SizeOfMore(path: seq<Level>, l: Level)
    ensures Size(path + [l]) == Size(path) + |l.older| + 1
  {
    assert (path + [l])[..|path|] == path;
  }

  // The path while a key is being added.

  function PathAt(path: seq<Level>, older: seq<Cell>, key: Key, i: nat): seq<Level>
    requires |path| <= i <= |key|
  {
    if i == |path| then path else path + [Level(older, key[|path|], false)] + Spine(key[|path| + 1..i])
  }

  lemma {:induction false} SpineMore(k: Key, c: nat)
    ensures Spine(k + [c]) == Spine(k) + [Level([], c, false)]
  {
    if k != [] {
      assert (k + [c])[1..] == k[1..] + [c];
      SpineMore(k[1..], c);
    } else {
      assert ([] + [c])[1..] == [];
    }
  }

  lemma PathAtNext(path: seq<Level>, older: seq<Cell>, key: Key, i: nat)
    requires |path| <= i < |key|
    ensures PathAt(path, older, key, i + 1)
         == PathAt(path, older, key, i) + [Level(if i == |path| then older else [], key[i], false)]
  {
    var p := |path|;
    if i == p {
      assert key[p + 1..p + 1] == [];
    } else {
      assert key[p + 1..i + 1] == key[p + 1..i] + [key[i]];
      SpineMore(key[p + 1..i], key[i]);
    }
  }

  lemma {:induction false} BytesOfSpine(k: Key)
    ensures Bytes(Spine(k)) == k && |Spine(k)| == |k|
  {
    if k != [] {
      var s := Spine(k);
      assert s[0] == Level([], k[0], false) && s[1..] == Spine(k[1..]);
      BytesOfSpine(k[1..]);
    }
  }

  lemma {:induction false} BytesOfSum(a: seq<Level>, b: seq<Level>)
    ensures Bytes(a + b) == Bytes(a) + Bytes(b)
  {
    if a == [] {
      assert a + b == b;
    } else {
      assert (a + b)[0] == a[0] && (a + b)[1..] == a[1..] + b;
      BytesOfSum(a[1..], b);
    }
  }

  lemma {:induction false} BytesAt(path: seq<Level>, i: nat)
    requires i < |path|
    ensures |Bytes(path)| == |path| && Bytes(path)[i] == path[i].byte
    decreases i
  {
    BytesSize(path);
    if i > 0 { BytesAt(path[1..], i - 1); }
  }

  lemma {:induction false} BytesSize(path: seq<Level>)
    ensures |Bytes(path)| == |path|
  {
    if path != [] { BytesSize(path[1..]); }
  }

  lemma {:induction false} BytesPrefix(path: seq<Level>, p: nat)
    requires p <= |path|
    ensures |Bytes(path)| == |path| && Bytes(path[..p]) == Bytes(path)[..p]
  {
    BytesSize(path);
    BytesSize(path[..p]);
    forall i | 0 <= i < p ensures Bytes(path[..p])[i] == Bytes(path)[i] {
      BytesAt(path[..p], i);
      BytesAt(path, i);
    }
  }

  lemma PathAtEnd(path: seq<Level>, older: seq<Cell>, key: Key)
    requires |path| < |key|
    ensures PathAt(path, older, key, |key|) == path + [Level(older, key[|path|], false)] + Spine(key[|path| + 1..])
  {
    assert key[|path| + 1..|key|] == key[|path| + 1..];
  }

  lemma BytesOfOne(l: Level)
    ensures Bytes([l]) == [l.byte]
  {
    assert [l][1..] == [];
  }

  lemma BytesOfPathAt(path: seq<Level>, older: seq<Cell>, key: Key)
    requires |path| < |key| && Bytes(path) == key[..|path|]
    ensures Bytes(PathAt(path, older, key, |key|)) == key
  {
    hide Bytes, Spine, PathAt;
    var p := |path|;
    var l := Level(older, key[p], false);
    PathAtEnd(path, older, key);
    BytesOfSum(path + [l], Spine(key[p + 1..]));
    BytesOfSum(path, [l]);
    BytesOfSpine(key[p + 1..]);
    BytesOfOne(l);
    assert key == key[..p] + [key[p]] + key[p + 1..];
  }

  /** A key that branches off was not there. */
  lemma {:induction false} NotYet(cells: Cells, path: seq<Level>, older: seq<Cell>, key: Key)
    requires |path| < |key| && Bytes(path) == key[..|path|]
    requires forall i :: 0 <= i < |older| ==> older[i].byte < key[|path|]
    ensures Lookup(cells, path, older, key) == None
    decreases path
  {
    if path == [] {
      FindSmaller(older, key[0]);
    } else {
      assert key[0] == Bytes(path)[0] == path[0].byte;
      assert Bytes(path[1..]) == Bytes(path)[1..] == key[1..][..|path| - 1];
      NotYet(cells, path[1..], older, key[1..]);
    }
  }

  /** The language after a key has been added. */
  lemma BranchLang(cells: Cells, path: seq<Level>, older: seq<Cell>, key: Key, value: nat)
    requires IsText(key) && |path| < |key| && Bytes(path) == key[..|path|]
    requires forall i :: 0 <= i < |older| ==> older[i].byte < key[|path|]
    ensures Lang'(cells, PathAt(path, older, key, |key|), Leaf(value)) == Added(Lang'(cells, path, older), key, value)
    ensures key !in Lang'(cells, path, older)
  {
    hide Lookup, Spine, Leaf, PathAt, Bytes, IsText;
    NotYet(cells, path, older, key);
    PathAtEnd(path, older, key);
    forall q: Key
      ensures Lookup(cells, PathAt(path, older, key, |key|), Leaf(value), q)
           == if q == key then Some(value) else Lookup(cells, path, older, q)
    {
      BranchLookup(cells, path, older, key, value, q);
    }
  }

  lemma LeafOk(cells: Cells, value: nat)
    requires value < 0x8000_0000
    ensures GroupOk(cells, |cells|, Leaf(value))
  {
  }

  lemma {:induction false} MarkedLookup(cells: Cells, path: seq<Level>, top: seq<Cell>, p: nat, k: Key)
    requires p < |path|
    ensures Lookup(cells, path[p := path[p].(sib := true)], top, k) == Lookup(cells, path, top, k)
    decreases path
  {
    var path' := path[p := path[p].(sib := true)];
    if k != [] && k[0] == path[0].byte {
      if p == 0 {
        assert path'[1..] == path[1..];
      } else {
        assert path'[1..] == path[1..][p - 1 := path[1..][p - 1].(sib := true)];
        MarkedLookup(cells, path[1..], top, p - 1, k[1..]);
      }
    }
  }
}
