/** Every frozen state is used: an edge of the open part or of another state leads to it. */
module DawgReach {
  import opened Language
  import opened DawgStore
  import opened DawgPending
  import opened DawgTable

  ghost predicate LeadsTo(g: seq<Cell>, s: nat) {
    exists i :: 0 <= i < |g| && g[i].byte != 0 && g[i].Child() == s
  }

  ghost predicate LedByState(cells: Cells, s: nat) {
    exists t: nat :: IsStart(cells, t) && LeadsTo(Group(cells, t), s)
  }

  ghost predicate LedByPath(path: seq<Level>, top: seq<Cell>, s: nat) {
    LeadsTo(top, s) || exists i :: 0 <= i < |path| && LeadsTo(path[i].older, s)
  }

  ghost predicate AllUsed(cells: Cells, path: seq<Level>, top: seq<Cell>) {
    forall s: nat :: IsStart(cells, s) ==> LedByState(cells, s) || LedByPath(path, top, s)
  }

  /** The same when nothing is open any more but the edge to the root. */
  ghost predicate UsedBelow(cells: Cells, root: nat) {
    forall s: nat :: IsStart(cells, s) ==> s == root || LedByState(cells, s)
  }

  ghost predicate Stateless(cells: Cells) {
    forall s: nat :: !IsStart(cells, s)
  }

  lemma NothingToUse(cells: Cells)
    requires |cells| == 1
    ensures AllUsed(cells, [], [])
  {
  }

  /** Without an open part there is no state at all: the last one would have no edge to it. */
  lemma NoUse(cells: Cells)
    requires StoreOk(cells) && AllUsed(cells, [], [])
    ensures Stateless(cells)
  {
    hide StoreOk, IsStart, AllUsed;
    forall s: nat ensures !IsStart(cells, s) {
      if IsStart(cells, s) { NoLast(cells, s); }
    }
  }

  lemma {:induction false} NoLast(cells: Cells, s: nat)
    requires StoreOk(cells) && AllUsed(cells, [], []) && IsStart(cells, s)
    ensures false
    decreases |cells| - s
  {
    hide Group, StoreOk, IsStart;
    assert LedByState(cells, s) by { assert !LedByPath([], [], s); }
    var t: nat :| IsStart(cells, t) && LeadsTo(Group(cells, t), s);
    var i :| 0 <= i < |Group(cells, t)| && Group(cells, t)[i].byte != 0 && Group(cells, t)[i].Child() == s;
    EdgeDown(cells, t, i);
    NoLast(cells, t);
  }

  /** A new level takes over the edges of the open group. */
  lemma PushUses(cells: Cells, path: seq<Level>, top: seq<Cell>, c: nat, sib: bool)
    requires AllUsed(cells, path, top)
    ensures AllUsed(cells, path + [Level(top, c, sib)], [])
  {
    hide LeadsTo, LedByState, IsStart;
    var path' := path + [Level(top, c, sib)];
    forall s: nat | LedByPath(path, top, s) ensures LedByPath(path', [], s) {
      if LeadsTo(top, s) {
        assert LeadsTo(path'[|path|].older, s);
      } else {
        var i :| 0 <= i < |path| && LeadsTo(path[i].older, s);
        assert LeadsTo(path'[i].older, s);
      }
    }
  }

  /** An open group that leads nowhere may be replaced by any other. */
  lemma LeafUses(cells: Cells, path: seq<Level>, top: seq<Cell>)
    requires AllUsed(cells, path, [])
    ensures AllUsed(cells, path, top)
  {
    hide LedByState, IsStart;
    forall s: nat | LedByPath(path, [], s) ensures LedByPath(path, top, s) {
    }
  }

  lemma MarkUses(cells: Cells, path: seq<Level>, top: seq<Cell>, p: nat)
    requires AllUsed(cells, path, top) && p < |path|
    ensures AllUsed(cells, path[p := path[p].(sib := true)], top)
  {
    hide LeadsTo, LedByState, IsStart;
    var path' := path[p := path[p].(sib := true)];
    forall s: nat | LedByPath(path, top, s) ensures LedByPath(path', top, s) {
      if !LeadsTo(top, s) {
        var i :| 0 <= i < |path| && LeadsTo(path[i].older, s);
        assert LeadsTo(path'[i].older, s);
      }
    }
  }

  lemma SiblingUses(cells: Cells, path: seq<Level>, top: seq<Cell>)
    requires AllUsed(cells, path, top) && top != []
    ensures AllUsed(cells, path, WithSibling(top))
  {
    hide LedByState, IsStart;
    SiblingFields(top[|top| - 1]);
    forall s: nat | LeadsTo(top, s) ensures LeadsTo(WithSibling(top), s) {
      var i :| 0 <= i < |top| && top[i].byte != 0 && top[i].Child() == s;
      assert WithSibling(top)[i].Child() == s;
    }
  }

  /** Freezing the top group: the state `m` has its edges now. */
  lemma FreezeUses(cells0: Cells, cells: Cells, path: seq<Level>, g: seq<Cell>, m: nat)
    requires StoreOk(cells0) && GroupOk(cells0, |cells0|, g) && (cells == cells0 || cells == cells0 + g)
    requires IsStart(cells, m) && Group(cells, m) == g && Distinct(cells)
    requires AllUsed(cells0, path, g)
    ensures path == [] ==> UsedBelow(cells, m)
    ensures path != [] ==> var n := |path| - 1; path[n].byte != 0 ==> AllUsed(cells, path[..n], Close(path[n], m))
  {
    hide Group, StoreOk, GroupOk, LeadsTo, Close, IsStart, Distinct;
    forall s: nat | IsStart(cells, s) && s != m ensures LedByState(cells, s) || (path != [] && LedLower(path, s)) {
      OldStart(cells0, cells, g, m, s);
      if LedByState(cells0, s) {
        var t: nat :| IsStart(cells0, t) && LeadsTo(Group(cells0, t), s);
        OldGroup(cells0, cells, g, t);
      } else if LeadsTo(g, s) {
        assert LeadsTo(Group(cells, m), s);
      } else {
        var i :| 0 <= i < |path| && LeadsTo(path[i].older, s);
      }
    }
    if path != [] && path[|path| - 1].byte != 0 {
      var n := |path| - 1;
      ClosedLeadsTo(path[n], m);
      forall s: nat | LedLower(path, s) ensures LedByPath(path[..n], Close(path[n], m), s) {
        var i :| 0 <= i < |path| && LeadsTo(path[i].older, s);
        if i < n { assert LeadsTo(path[..n][i].older, s); }
      }
    }
  }

  ghost predicate LedLower(path: seq<Level>, s: nat) {
    exists i :: 0 <= i < |path| && LeadsTo(path[i].older, s)
  }

  lemma OldStart(cells0: Cells, cells: Cells, g: seq<Cell>, m: nat, s: nat)
    requires StoreOk(cells0) && GroupOk(cells0, |cells0|, g) && (cells == cells0 || cells == cells0 + g)
    requires IsStart(cells, m) && Group(cells, m) == g && Distinct(cells) && IsStart(cells, s) && s != m
    ensures IsStart(cells0, s)
  {
    hide Group, StoreOk, GroupOk, IsStart;
    if cells != cells0 {
      GroupFlags(cells0, |cells0|, g);
      StartsKept(cells0, g, s);
      AppendState(cells0, g);
    }
  }

  lemma OldGroup(cells0: Cells, cells: Cells, g: seq<Cell>, t: nat)
    requires StoreOk(cells0) && GroupOk(cells0, |cells0|, g) && (cells == cells0 || cells == cells0 + g)
      && IsStart(cells0, t)
    ensures IsStart(cells, t) && Group(cells, t) == Group(cells0, t)
  {
    hide Group, StoreOk, GroupOk, IsStart;
    if cells != cells0 { AppendState(cells0, g); }
  }

  lemma ClosedLeadsTo(l: Level, m: nat)
    requires l.byte != 0
    ensures LeadsTo(Close(l, m), m) && forall s: nat :: LeadsTo(l.older, s) ==> LeadsTo(Close(l, m), s)
  {
    EdgeFields(l, m);
    var g := Close(l, m);
    assert g[|l.older|].Child() == m;
    forall s: nat | LeadsTo(l.older, s) ensures LeadsTo(g, s) {
      var i :| 0 <= i < |l.older| && l.older[i].byte != 0 && l.older[i].Child() == s;
      assert g[i].Child() == s;
    }
  }

  // Reaching the states from the root.

  /** The state that the bytes of `p` lead to, or 0. */
  function Follow(cells: Cells, s: nat, p: Key): nat
    decreases |p|
  {
    if p == [] then s
    else
      var t := Follow(cells, s, p[..|p| - 1]);
      var g := Group(cells, t);
      var i := Find(g, p[|p| - 1]);
      if t == 0 || p[|p| - 1] == 0 || i == |g| then 0 else g[i].Child()
  }

  /** Every state can be reached from the root. */
  lemma {:induction false} AllReached(cells: Cells, root: nat, s: nat) returns (p: Key)
    requires StoreOk(cells) && IsStart(cells, root) && UsedBelow(cells, root) && IsStart(cells, s)
    ensures IsText(p) && Follow(cells, root, p) == s
    decreases |cells| - s
  {
    hide Group, StoreOk, IsStart, GroupOk;
    if s == root {
      p := [];
    } else {
      var t: nat :| IsStart(cells, t) && LeadsTo(Group(cells, t), s);
      var g := Group(cells, t);
      var i :| 0 <= i < |g| && g[i].byte != 0 && g[i].Child() == s;
      EdgeDown(cells, t, i);
      var q := AllReached(cells, root, t);
      p := q + [g[i].byte];
      assert p[..|p| - 1] == q;
    }
  }

  lemma EdgeDown(cells: Cells, t: nat, i: nat)
    requires StoreOk(cells) && IsStart(cells, t) && i < |Group(cells, t)| && Group(cells, t)[i].byte != 0
    ensures var g := Group(cells, t);
      g[i].byte < 256 && g[i].Child() < t < |cells| && t > 0 && Find(g, g[i].byte) == i
  {
    hide Group;
    var g := Group(cells, t);
    assert GroupOk(cells, t, g);
  }

  /** What follows after `p` in the graph is what follows after `p` in its language. */
  lemma {:induction false} FollowLang(cells: Cells, s: nat, p: Key)
    requires StoreOk(cells) && IsStart(cells, s) && IsText(p)
    ensures Follow(cells, s, p) == 0 || IsStart(cells, Follow(cells, s, p))
    ensures LangAt(cells, Follow(cells, s, p)) == AfterAll(LangAt(cells, s), p)
    decreases |p|
  {
    hide Group, StoreOk, IsStart, GroupOk, LangAt, AfterAll;
    if p == [] {
      AfterNone(LangAt(cells, s));
    } else {
      var q, c := p[..|p| - 1], p[|p| - 1];
      assert p == q + [c];
      FollowLang(cells, s, q);
      AfterOneMore(LangAt(cells, s), q, c);
      FollowOne(cells, Follow(cells, s, q), c);
    }
  }

  lemma FollowOne(cells: Cells, t: nat, c: nat)
    requires StoreOk(cells) && (t == 0 || IsStart(cells, t)) && c != 0
    ensures var g := Group(cells, t);
      var r := if t == 0 || Find(g, c) == |g| then 0 else g[Find(g, c)].Child();
      (r == 0 || IsStart(cells, r)) && LangAt(cells, r) == After(LangAt(cells, t), c)
  {
    hide Group, IsStart;
    var g := Group(cells, t);
    var r := if t == 0 || Find(g, c) == |g| then 0 else g[Find(g, c)].Child();
    if t != 0 { assert GroupOk(cells, t, g); }
    forall k: Key ensures LookupAt(cells, r, k) == LookupAt(cells, t, [c] + k) {
      assert ([c] + k)[0] == c && ([c] + k)[1..] == k;
    }
  }
}
