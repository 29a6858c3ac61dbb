/** The nodes that represent the open path: sibling chains, the stack and the recycle bin.

    `chains[i]` lists the nodes of level `i`, oldest first, so its last node is the one on the
    stack.  `home` gives the level and position of every node in use, which keeps the chains
    and the recycle bin apart. */
module DawgNodes {
  import opened DawgStore
  import opened DawgPending

  datatype Node = Node(child: nat, sibling: nat, byte: nat, isState: bool, hasSibling: bool)

  const EMPTY_NODE := Node(0, 0, 0, false, false)

  /** The word a node freezes to. */
  function Frozen(n: Node): Cell {
    Cell(if n.byte == 0 then 2 * n.child + (if n.hasSibling then 1 else 0)
         else 4 * n.child + (if n.isState then 2 else 0) + (if n.hasSibling then 1 else 0), n.byte)
  }

  function Last(s: seq<nat>): nat {
    if s == [] then 0 else s[|s| - 1]
  }

  function Before(ids: seq<nat>, j: nat): nat
    requires j <= |ids|
  {
    if j == 0 then 0 else ids[j - 1]
  }

  /** The chain `ids` holds the edges `g`. */
  ghost predicate ChainIs(nodes: seq<Node>, ids: seq<nat>, g: seq<Cell>) {
    && |ids| == |g|
    && forall j :: 0 <= j < |ids| ==>
         0 < ids[j] < |nodes| && Frozen(nodes[ids[j]]) == g[j] && nodes[ids[j]].sibling == Before(ids, j)
  }

  /** The last node of a chain is the edge the open path takes. */
  ghost predicate HeadIs(nodes: seq<Node>, ids: seq<nat>, l: Level) {
    && |ids| == |l.older| + 1
    && ChainIs(nodes, ids[..|l.older|], l.older)
    && 0 < Last(ids) < |nodes|
    && nodes[Last(ids)].byte == l.byte
    && nodes[Last(ids)].sibling == Before(ids, |l.older|)
    && (nodes[Last(ids)].isState <==> l.older == [])
    && (nodes[Last(ids)].hasSibling <==> l.sib)
  }

  /** Every node of a chain knows its place. */
  ghost predicate Placed(chains: seq<seq<nat>>, home: map<nat, (nat, nat)>) {
    && (forall i, j ::
       0 <= i < |chains| && 0 <= j < |chains[i]|
       ==> chains[i][j] in home && home[chains[i][j]] == (i, j))
    && 0 !in home
  }

  /** Nodes in use and nodes to be reused are different. */
  ghost predicate BinOk(nodes: seq<Node>, bin: seq<nat>, home: map<nat, (nat, nat)>) {
    && (forall x :: x in home ==> x < |nodes|)
    && (forall i :: 0 <= i < |bin| ==> 0 < bin[i] < |nodes| && bin[i] !in home)
    && (forall i, j :: 0 <= i < j < |bin| ==> bin[i] != bin[j])
  }

  /** The child pointers follow the stack. */
  ghost predicate Pointers(nodes: seq<Node>, stack: seq<nat>, chains: seq<seq<nat>>) {
    && |stack| == |chains| && |stack| > 0 && stack[0] == 0 && |nodes| > 0
    && (forall i :: 0 <= i < |stack| ==> stack[i] < |nodes| && nodes[stack[i]].child == Last(chains[i]))
    && (forall i :: 0 <= i < |stack| - 1 ==> chains[i] != [] && stack[i + 1] == Last(chains[i]))
  }

  /** The nodes represent the path `path` with the group `top` below it; the stack ends in the
      parent of `top`. */
  ghost predicate Open(nodes: seq<Node>, stack: seq<nat>, bin: seq<nat>, path: seq<Level>, top: seq<Cell>,
                       chains: seq<seq<nat>>, home: map<nat, (nat, nat)>) {
    && |chains| == |path| + 1
    && Pointers(nodes, stack, chains)
    && (forall i :: 0 <= i < |path| ==> HeadIs(nodes, chains[i], path[i]))
    && ChainIs(nodes, chains[|path|], top)
    && Placed(chains, home)
    && BinOk(nodes, bin, home)
  }

  // Framing.

  lemma ChainKept(nodes: seq<Node>, nodes': seq<Node>, ids: seq<nat>, g: seq<Cell>)
    requires ChainIs(nodes, ids, g) && |nodes| <= |nodes'|
    requires forall j :: 0 <= j < |ids| && ids[j] < |nodes| ==> nodes'[ids[j]] == nodes[ids[j]]
    ensures ChainIs(nodes', ids, g)
  {
    hide Frozen, Before;
  }

  lemma HeadKept(nodes: seq<Node>, nodes': seq<Node>, ids: seq<nat>, l: Level)
    requires HeadIs(nodes, ids, l) && |nodes| <= |nodes'|
    requires forall j :: 0 <= j < |ids| && ids[j] < |nodes| ==> nodes'[ids[j]] == nodes[ids[j]]
    ensures HeadIs(nodes', ids, l)
  {
    hide Before, ChainIs;
    assert Last(ids) == ids[|l.older|];
    ChainKept(nodes, nodes', ids[..|l.older|], l.older);
  }

  /** Writing to nodes outside the chains of the path. */
  lemma HeadsKept(nodes: seq<Node>, nodes': seq<Node>, path: seq<Level>, chains: seq<seq<nat>>)
    requires |path| <= |chains| && forall i :: 0 <= i < |path| ==> HeadIs(nodes, chains[i], path[i])
    requires |nodes| <= |nodes'|
    requires forall i, j :: 0 <= i < |path| && 0 <= j < |chains[i]| && chains[i][j] < |nodes|
               ==> nodes'[chains[i][j]] == nodes[chains[i][j]]
    ensures forall i :: 0 <= i < |path| ==> HeadIs(nodes', chains[i], path[i])
  {
    hide HeadIs;
    forall i | 0 <= i < |path| ensures HeadIs(nodes', chains[i], path[i]) {
      HeadKept(nodes, nodes', chains[i], path[i]);
    }
  }

  // Taking a node.

  /** The state of the pools after `append_node`. */
  function Take(nodes: seq<Node>, bin: seq<nat>): (seq<Node>, seq<nat>, nat)
    requires forall i :: 0 <= i < |bin| ==> bin[i] < |nodes|
  {
    if bin == [] then (nodes + [EMPTY_NODE], [], |nodes|)
    else (nodes[bin[|bin| - 1] := EMPTY_NODE], bin[..|bin| - 1], bin[|bin| - 1])
  }

  lemma TakeFresh(nodes: seq<Node>, bin: seq<nat>, home: map<nat, (nat, nat)>)
    requires BinOk(nodes, bin, home) && |nodes| > 0
    ensures var (nodes', bin', id) := Take(nodes, bin);
      && 0 < id < |nodes'| && nodes'[id] == EMPTY_NODE && id !in home && id !in bin'
      && |nodes| <= |nodes'| && (forall x :: 0 <= x < |nodes| && x != id ==> nodes'[x] == nodes[x])
      && BinOk(nodes', bin', home)
  {
  }

  /** `Push`: the node `id` becomes the last edge of the open group. */
  ghost function PushedChains(chains: seq<seq<nat>>, id: nat): seq<seq<nat>>
    requires chains != []
  {
    chains[|chains| - 1 := chains[|chains| - 1] + [id]]
  }

  lemma PlacedPush(chains: seq<seq<nat>>, home: map<nat, (nat, nat)>, id: nat)
    requires Placed(chains, home) && chains != [] && id != 0 && id !in home
    ensures var n := |chains| - 1;
      Placed(PushedChains(chains, id), home[id := (n, |chains[n]|)])
    ensures var n := |chains| - 1;
      Placed(PushedChains(chains, id) + [[]], home[id := (n, |chains[n]|)])
  {
    var n := |chains| - 1;
    var c := PushedChains(chains, id);
    var h := home[id := (n, |chains[n]|)];
    forall i, j | 0 <= i < |c| && 0 <= j < |c[i]| ensures c[i][j] in h && h[c[i][j]] == (i, j) {
      if i < n || j < |chains[n]| {
        assert c[i][j] == chains[i][j];
      }
    }
  }

  /** Where the nodes of the stack are. */
  lemma StackPlaces(nodes: seq<Node>, stack: seq<nat>, chains: seq<seq<nat>>, home: map<nat, (nat, nat)>, i: nat)
    requires Pointers(nodes, stack, chains) && Placed(chains, home) && i < |stack|
    ensures i == 0 ==> stack[i] == 0
    ensures i > 0 ==> stack[i] in home && home[stack[i]] == (i - 1, |chains[i - 1]| - 1)
  {
    if i > 0 {
      assert stack[i] == Last(chains[i - 1]) == chains[i - 1][|chains[i - 1]| - 1];
    }
  }

  /** A node outside the chains may be written freely. */
  lemma WriteOutside(nodes: seq<Node>, nodes': seq<Node>, stack: seq<nat>, bin: seq<nat>, path: seq<Level>,
                     top: seq<Cell>, chains: seq<seq<nat>>, home: map<nat, (nat, nat)>, id: nat)
    requires Open(nodes, stack, bin, path, top, chains, home) && id !in home && id != 0
    requires |nodes| <= |nodes'| && forall x :: 0 <= x < |nodes| && x != id ==> nodes'[x] == nodes[x]
    ensures Open(nodes', stack, bin, path, top, chains, home)
  {
    hide HeadIs, ChainIs, Last;
    HeadsKept(nodes, nodes', path, chains);
    ChainKept(nodes, nodes', chains[|path|], top);
    forall i | 0 <= i < |stack| ensures stack[i] != id {
      StackPlaces(nodes, stack, chains, home, i);
    }
  }

  /** The top of the stack gets the child `x`. */
  function WithChild(nodes: seq<Node>, p: nat, x: nat): seq<Node>
    requires p < |nodes|
  {
    nodes[p := nodes[p].(child := x)]
  }

  lemma HeadChild(nodes: seq<Node>, ids: seq<nat>, l: Level, x: nat)
    requires HeadIs(nodes, ids, l) && forall j :: 0 <= j < |l.older| && j < |ids| ==> ids[j] != Last(ids)
    ensures HeadIs(WithChild(nodes, Last(ids), x), ids, l)
  {
    hide Before, ChainIs;
    ChainKept(nodes, WithChild(nodes, Last(ids), x), ids[..|l.older|], l.older);
  }

  lemma SetTopChild(nodes: seq<Node>, stack: seq<nat>, path: seq<Level>, top: seq<Cell>, chains: seq<seq<nat>>,
                    home: map<nat, (nat, nat)>, x: nat)
    requires |chains| == |path| + 1 && Pointers(nodes, stack, chains) && Placed(chains, home)
    requires ChainIs(nodes, chains[|path|], top)
    requires forall i :: 0 <= i < |path| ==> HeadIs(nodes, chains[i], path[i])
    ensures var nodes' := WithChild(nodes, stack[|path|], x);
      && (forall i :: 0 <= i < |path| ==> HeadIs(nodes', chains[i], path[i]))
      && (forall i :: 0 <= i < |path| ==> nodes'[stack[i]] == nodes[stack[i]])
      && ChainIs(nodes', chains[|path|], top)
  {
    hide HeadIs, ChainIs, Last;
    var n := |path|;
    var p := stack[n];
    var nodes' := WithChild(nodes, p, x);
    StackPlaces(nodes, stack, chains, home, n);
    forall i | 0 <= i < n ensures nodes'[stack[i]] == nodes[stack[i]] {
      StackPlaces(nodes, stack, chains, home, i);
    }
    ChainKept(nodes, nodes', chains[n], top);
    forall i | 0 <= i < n ensures HeadIs(nodes', chains[i], path[i]) {
      if i == n - 1 {
        OlderAreNotHead(nodes, chains[i], path[i], home, i);
        HeadChild(nodes, chains[i], path[i], x);
      } else {
        HeadKept(nodes, nodes', chains[i], path[i]);
      }
    }
  }

  lemma OlderAreNotHead(nodes: seq<Node>, ids: seq<nat>, l: Level, home: map<nat, (nat, nat)>, i: nat)
    requires HeadIs(nodes, ids, l) && forall j :: 0 <= j < |ids| ==> ids[j] in home && home[ids[j]] == (i, j)
    ensures forall j :: 0 <= j < |l.older| && j < |ids| ==> ids[j] != Last(ids)
  {
    hide ChainIs;
  }

  /** The parent's new edge: `id` becomes the last node of the open group. */
  function Pushed(nodes: seq<Node>, parent: nat, id: nat, c: nat): seq<Node>
    requires parent < |nodes| && id < |nodes|
  {
    var first := nodes[parent].child;
    WithChild(nodes[id := Node(0, first, c, first == 0, false)], parent, id)
  }

  lemma PushCommon(nodes: seq<Node>, stack: seq<nat>, bin: seq<nat>, path: seq<Level>, top: seq<Cell>,
                   chains: seq<seq<nat>>, home: map<nat, (nat, nat)>, id: nat, c: nat)
    requires Open(nodes, stack, bin, path, top, chains, home) && 0 < id < |nodes| && id !in home && id !in bin
    ensures var n := |path|; var nodes' := Pushed(nodes, stack[n], id, c);
      && (forall i :: 0 <= i < n ==> HeadIs(nodes', chains[i], path[i]))
      && (forall i :: 0 <= i < n ==> nodes'[stack[i]] == nodes[stack[i]])
      && ChainIs(nodes', chains[n], top)
      && nodes'[id] == Node(0, Last(chains[n]), c, top == [], false)
      && nodes'[stack[n]].child == id && stack[n] != id
      && |nodes'| == |nodes|
  {
    hide HeadIs;
    var n := |path|;
    StackPlaces(nodes, stack, chains, home, n);
    var nodes1 := nodes[id := Node(0, nodes[stack[n]].child, c, nodes[stack[n]].child == 0, false)];
    WriteOutside(nodes, nodes1, stack, bin, path, top, chains, home, id);
    SetTopChild(nodes1, stack, path, top, chains, home, id);
  }

  lemma PointersPush(nodes: seq<Node>, nodes': seq<Node>, stack: seq<nat>, chains: seq<seq<nat>>, id: nat)
    requires Pointers(nodes, stack, chains) && |nodes'| == |nodes| && 0 < id < |nodes|
    requires var n := |stack| - 1;
      && (forall i :: 0 <= i < n ==> nodes'[stack[i]] == nodes[stack[i]])
      && nodes'[stack[n]].child == id && nodes'[id].child == 0
    ensures Pointers(nodes', stack, PushedChains(chains, id))
    ensures Pointers(nodes', stack + [id], PushedChains(chains, id) + [[]])
  {
    var n := |stack| - 1;
    var c := PushedChains(chains, id);
    assert Last(c[n]) == id && forall i :: 0 <= i < n ==> c[i] == chains[i];
    hide Last;
    assert Pointers(nodes', stack, c);
    PointersMore(nodes', stack, c, id);
  }

  lemma PointersMore(nodes: seq<Node>, stack: seq<nat>, chains: seq<seq<nat>>, id: nat)
    requires Pointers(nodes, stack, chains) && id < |nodes| && nodes[id].child == 0
    requires var n := |stack| - 1; chains[n] != [] && Last(chains[n]) == id
    ensures Pointers(nodes, stack + [id], chains + [[]])
  {
    hide Last;
    assert Last([]) == 0 by { LastEmpty(); }
    var s, c := stack + [id], chains + [[]];
    forall i | 0 <= i < |s| ensures s[i] < |nodes| && nodes[s[i]].child == Last(c[i]) {
      if i < |stack| { assert c[i] == chains[i] && s[i] == stack[i]; }
    }
    forall i | 0 <= i < |s| - 1 ensures c[i] != [] && s[i + 1] == Last(c[i]) {
      assert c[i] == chains[i];
    }
  }

  lemma LastEmpty()
    ensures Last([]) == 0
  {
  }

  lemma PushLevel(nodes: seq<Node>, stack: seq<nat>, bin: seq<nat>, path: seq<Level>, top: seq<Cell>,
                  chains: seq<seq<nat>>, home: map<nat, (nat, nat)>, id: nat, c: nat)
    requires Open(nodes, stack, bin, path, top, chains, home) && 0 < id < |nodes| && id !in home && id !in bin
    ensures var n := |path|;
      Open(Pushed(nodes, stack[n], id, c), stack + [id], bin, path + [Level(top, c, false)], [],
           PushedChains(chains, id) + [[]], home[id := (n, |chains[n]|)])
  {
    hide HeadIs, Pushed, Placed, Pointers;
    var n := |path|;
    OpenParts(nodes, stack, bin, path, top, chains, home);
    var nodes' := Pushed(nodes, stack[n], id, c);
    PushCommon(nodes, stack, bin, path, top, chains, home, id, c);
    PlacedPush(chains, home, id);
    PointersPush(nodes, nodes', stack, chains, id);
    var chains' := PushedChains(chains, id) + [[]];
    assert chains'[n] == chains[n] + [id];
    NewHead(nodes', chains[n], id, Level(top, c, false));
    forall i | 0 <= i < n + 1 ensures HeadIs(nodes', chains'[i], (path + [Level(top, c, false)])[i]) {
      if i < n { assert chains'[i] == chains[i]; }
    }
  }

  lemma OpenParts(nodes: seq<Node>, stack: seq<nat>, bin: seq<nat>, path: seq<Level>, top: seq<Cell>,
                  chains: seq<seq<nat>>, home: map<nat, (nat, nat)>)
    requires Open(nodes, stack, bin, path, top, chains, home)
    ensures |stack| == |chains| == |path| + 1 && stack[|path|] < |nodes| && |nodes| > 0 && stack[0] == 0
    ensures nodes[stack[|path|]].child == Last(chains[|path|])
    ensures BinOk(nodes, bin, home)
    ensures forall i :: 0 <= i < |stack| ==> stack[i] < |nodes|
    ensures forall i :: 0 <= i < |bin| ==> bin[i] < |nodes|
  {
    hide HeadIs, ChainIs, Placed;
  }

  lemma NewHead(nodes: seq<Node>, ids: seq<nat>, id: nat, l: Level)
    requires ChainIs(nodes, ids, l.older) && 0 < id < |nodes|
    requires nodes[id] == Node(nodes[id].child, Last(ids), l.byte, l.older == [], l.sib)
    ensures HeadIs(nodes, ids + [id], l)
  {
    hide Frozen;
    assert (ids + [id])[..|l.older|] == ids;
    assert Before(ids + [id], |l.older|) == Last(ids);
  }

  /** The end of a key: the node `id` holds the value. */
  lemma PushLeaf(nodes: seq<Node>, stack: seq<nat>, bin: seq<nat>, path: seq<Level>,
                 chains: seq<seq<nat>>, home: map<nat, (nat, nat)>, id: nat, value: nat)
    requires Open(nodes, stack, bin, path, [], chains, home) && 0 < id < |nodes| && id !in home && id !in bin
    ensures var n := |path|;
      Open(WithChild(Pushed(nodes, stack[n], id, 0), id, value), stack, bin, path, Leaf(value),
           PushedChains(chains, id), home[id := (n, |chains[n]|)])
  {
    hide HeadIs, Pushed, Placed, Pointers;
    var n := |path|;
    OpenParts(nodes, stack, bin, path, [], chains, home);
    var nodes1 := Pushed(nodes, stack[n], id, 0);
    PushCommon(nodes, stack, bin, path, [], chains, home, id, 0);
    var nodes' := WithChild(nodes1, id, value);
    HeadsOutside(nodes1, nodes', path, chains, home, id);
    PlacedPush(chains, home, id);
    PointersLeaf(nodes, nodes', stack, chains, home, id);
    var chains' := PushedChains(chains, id);
    assert chains'[n] == [id];
    forall i | 0 <= i < n ensures HeadIs(nodes', chains'[i], path[i]) {
      assert chains'[i] == chains[i];
    }
  }

  lemma HeadsOutside(nodes: seq<Node>, nodes': seq<Node>, path: seq<Level>, chains: seq<seq<nat>>,
                     home: map<nat, (nat, nat)>, id: nat)
    requires |chains| == |path| + 1 && forall i :: 0 <= i < |path| ==> HeadIs(nodes, chains[i], path[i])
    requires Placed(chains, home) && id !in home
    requires |nodes'| == |nodes| && forall x :: 0 <= x < |nodes| && x != id ==> nodes'[x] == nodes[x]
    ensures forall i :: 0 <= i < |path| ==> HeadIs(nodes', chains[i], path[i])
  {
    hide HeadIs;
    HeadsKept(nodes, nodes', path, chains);
  }

  lemma PointersLeaf(nodes: seq<Node>, nodes': seq<Node>, stack: seq<nat>, chains: seq<seq<nat>>,
                     home: map<nat, (nat, nat)>, id: nat)
    requires Pointers(nodes, stack, chains) && Placed(chains, home) && id !in home && |nodes'| == |nodes|
      && 0 < id < |nodes|
    requires var n := |stack| - 1;
      && (forall i :: 0 <= i < n && stack[i] != id ==> nodes'[stack[i]] == nodes[stack[i]])
      && nodes'[stack[n]].child == id
    ensures Pointers(nodes', stack, PushedChains(chains, id))
  {
    hide Placed;
    forall i | 0 <= i < |stack| ensures stack[i] != id {
      StackPlaces(nodes, stack, chains, home, i);
    }
    var n := |stack| - 1;
    var c := PushedChains(chains, id);
    assert Last(c[n]) == id && forall i :: 0 <= i < n ==> c[i] == chains[i];
  }

  // Freezing the last level.

  /** The last `j` nodes of a chain, in the order in which they are freed. */
  function Freed(ids: seq<nat>, j: nat): (r: seq<nat>)
    requires j <= |ids|
    ensures |r| == j && forall k :: 0 <= k < j ==> r[k] == ids[|ids| - 1 - k]
  {
    seq(j, k requires 0 <= k < j => ids[|ids| - 1 - k])
  }

  ghost function Forget(home: map<nat, (nat, nat)>, ids: seq<nat>): map<nat, (nat, nat)> {
    map x | x in home && x !in ids :: home[x]
  }

  lemma FreeKeeps(nodes: seq<Node>, bin: seq<nat>, chains: seq<seq<nat>>, home: map<nat, (nat, nat)>, n: nat)
    requires Placed(chains, home) && BinOk(nodes, bin, home) && n + 1 == |chains|
    ensures BinOk(nodes, bin + Freed(chains[n], |chains[n]|), Forget(home, chains[n]))
    ensures Placed(chains[..n], Forget(home, chains[n]))
  {
    var ids := chains[n];
    var b, h := bin + Freed(ids, |ids|), Forget(home, ids);
    assert forall j :: 0 <= j < |ids| ==> ids[j] in home && home[ids[j]] == (n, j);
    forall i, j | 0 <= i < n && 0 <= j < |chains[i]| ensures chains[i][j] !in ids {
      assert home[chains[i][j]] == (i, j);
    }
    forall i | 0 <= i < |b| ensures 0 < b[i] < |nodes| && b[i] !in h {
      if i >= |bin| { assert b[i] == ids[|ids| - 1 - (i - |bin|)]; }
    }
    forall i, j | 0 <= i < j < |b| ensures b[i] != b[j] {
      if j >= |bin| {
        assert b[j] == ids[|ids| - 1 - (j - |bin|)];
        if i >= |bin| { assert b[i] == ids[|ids| - 1 - (i - |bin|)]; }
      }
    }
  }

  /** The edge of the open path becomes finished: its subtree is the state `m`. */
  lemma HeadCloses(nodes: seq<Node>, ids: seq<nat>, l: Level, m: nat)
    requires HeadIs(nodes, ids, l) && l.byte != 0
    requires forall j :: 0 <= j < |l.older| && j < |ids| ==> ids[j] != Last(ids)
    ensures ChainIs(WithChild(nodes, Last(ids), m), ids, Close(l, m))
  {
    hide Close;
    var nodes' := WithChild(nodes, Last(ids), m);
    var g := Close(l, m);
    var n := |l.older|;
    CloseParts(l, m);
    assert Frozen(nodes'[Last(ids)]) == Edge(l, m);
    forall j | 0 <= j < |ids|
      ensures 0 < ids[j] < |nodes'| && Frozen(nodes'[ids[j]]) == g[j] && nodes'[ids[j]].sibling == Before(ids, j)
    {
      if j < n {
        assert ids[..n][j] == ids[j] && Before(ids[..n], j) == Before(ids, j);
      }
    }
  }

  lemma CloseParts(l: Level, m: nat)
    ensures |Close(l, m)| == |l.older| + 1 && Close(l, m)[|l.older|] == Edge(l, m)
    ensures forall j :: 0 <= j < |l.older| ==> Close(l, m)[j] == l.older[j]
  {
  }

  lemma CloseKeeps(nodes: seq<Node>, stack: seq<nat>, bin: seq<nat>, path: seq<Level>, l: Level, top: seq<Cell>,
                   chains: seq<seq<nat>>, home: map<nat, (nat, nat)>, m: nat)
    requires Open(nodes, stack, bin, path + [l], top, chains, home) && l.byte != 0
    ensures |stack| == |path| + 2 && |chains| == |path| + 2 && stack[|path| + 1] == Last(chains[|path|]) < |nodes|
    ensures var n := |path|;
      Open(WithChild(nodes, stack[n + 1], m), stack[..n + 1], bin + Freed(chains[n + 1], |chains[n + 1]|), path,
           Close(l, m), chains[..n + 1], Forget(home, chains[n + 1]))
  {
    hide HeadIs, ChainIs, Close, Freed, Forget, Last;
    var n := |path|;
    var p := stack[n + 1];
    var nodes' := WithChild(nodes, p, m);
    assert (path + [l])[n] == l;
    forall i | 0 <= i < n ensures (path + [l])[i] == path[i] {
    }
    assert HeadIs(nodes, chains[n], l);
    OlderAreNotHead(nodes, chains[n], l, home, n);
    HeadCloses(nodes, chains[n], l, m);
    FreeKeeps(nodes, bin, chains, home, n + 1);
    StackPlaces(nodes, stack, chains, home, n + 1);
    forall i | 0 <= i < n + 1 ensures stack[i] != p {
      StackPlaces(nodes, stack, chains, home, i);
    }
    forall i | 0 <= i < n ensures HeadIs(nodes', chains[i], path[i]) {
      assert HeadIs(nodes, chains[i], (path + [l])[i]);
      HeadKept(nodes, nodes', chains[i], path[i]);
    }
    BinWrite(nodes, nodes', bin + Freed(chains[n + 1], |chains[n + 1]|), Forget(home, chains[n + 1]));
  }

  lemma BinWrite(nodes: seq<Node>, nodes': seq<Node>, bin: seq<nat>, home: map<nat, (nat, nat)>)
    requires BinOk(nodes, bin, home) && |nodes| == |nodes'|
    ensures BinOk(nodes', bin, home)
  {
  }

  // The sibling bit.

  function WithSiblingBit(nodes: seq<Node>, id: nat): seq<Node>
    requires id < |nodes|
  {
    nodes[id := nodes[id].(hasSibling := true)]
  }

  /** The edge of level `i` gets a younger sibling. */
  lemma MarkLevel(nodes: seq<Node>, stack: seq<nat>, bin: seq<nat>, path: seq<Level>, top: seq<Cell>,
                  chains: seq<seq<nat>>, home: map<nat, (nat, nat)>, i: nat)
    requires Open(nodes, stack, bin, path, top, chains, home) && i < |path|
    ensures Last(chains[i]) < |nodes|
    ensures Open(WithSiblingBit(nodes, Last(chains[i])), stack, bin, path[i := path[i].(sib := true)], top, chains,
      home)
  {
    hide HeadIs, ChainIs, Last, BinOk;
    assert HeadIs(nodes, chains[i], path[i]);
    HeadPlace(nodes, chains[i], path[i]);
    var id := Last(chains[i]);
    var nodes' := WithSiblingBit(nodes, id);
    var path' := path[i := path[i].(sib := true)];
    forall k, j | 0 <= k < |chains| && k != i && 0 <= j < |chains[k]| ensures chains[k][j] != id {
      assert home[chains[k][j]] == (k, j);
    }
    ChainKept(nodes, nodes', chains[|path|], top);
    OlderAreNotHead(nodes, chains[i], path[i], home, i);
    HeadMarked(nodes, chains[i], path[i]);
    forall k | 0 <= k < |path'| ensures HeadIs(nodes', chains[k], path'[k]) {
      if k != i { HeadKept(nodes, nodes', chains[k], path[k]); }
    }
    BinWrite(nodes, nodes', bin, home);
  }

  lemma HeadPlace(nodes: seq<Node>, ids: seq<nat>, l: Level)
    requires HeadIs(nodes, ids, l)
    ensures ids != [] && Last(ids) == ids[|ids| - 1] < |nodes|
  {
  }

  lemma HeadMarked(nodes: seq<Node>, ids: seq<nat>, l: Level)
    requires HeadIs(nodes, ids, l)
    requires forall j :: 0 <= j < |l.older| && j < |ids| ==> ids[j] != Last(ids)
    ensures Last(ids) < |nodes| && HeadIs(WithSiblingBit(nodes, Last(ids)), ids, l.(sib := true))
  {
    hide Before, ChainIs;
    ChainKept(nodes, WithSiblingBit(nodes, Last(ids)), ids[..|l.older|], l.older);
  }

  /** The last edge of the top group gets a younger sibling. */
  lemma MarkTop(nodes: seq<Node>, stack: seq<nat>, bin: seq<nat>, path: seq<Level>, top: seq<Cell>,
                chains: seq<seq<nat>>, home: map<nat, (nat, nat)>)
    requires Open(nodes, stack, bin, path, top, chains, home) && top != []
    ensures Last(chains[|path|]) < |nodes|
    ensures Open(WithSiblingBit(nodes, Last(chains[|path|])), stack, bin, path, WithSibling(top), chains, home)
  {
    hide HeadIs, ChainIs, Last, BinOk, WithSibling;
    var n := |path|;
    ChainEnd(nodes, chains[n], top);
    var id := Last(chains[n]);
    var nodes' := WithSiblingBit(nodes, id);
    forall k, j | 0 <= k < n && 0 <= j < |chains[k]| ensures chains[k][j] != id {
      assert home[chains[k][j]] == (k, j);
    }
    HeadsKept(nodes, nodes', path, chains);
    forall j | 0 <= j < |chains[n]| - 1 ensures chains[n][j] != id {
      assert home[chains[n][j]] == (n, j);
    }
    ChainMarked(nodes, chains[n], top);
    BinWrite(nodes, nodes', bin, home);
  }

  lemma ChainEnd(nodes: seq<Node>, ids: seq<nat>, g: seq<Cell>)
    requires ChainIs(nodes, ids, g) && g != []
    ensures ids != [] && Last(ids) == ids[|ids| - 1] < |nodes| && Last(ids) > 0
  {
  }

  lemma FrozenMarked(n: Node)
    ensures Frozen(n.(hasSibling := true)) == Frozen(n).(word := Frozen(n).word / 2 * 2 + 1)
  {
  }

  lemma ChainMarked(nodes: seq<Node>, ids: seq<nat>, g: seq<Cell>)
    requires ChainIs(nodes, ids, g) && g != [] && Last(ids) < |nodes|
    requires forall j :: 0 <= j < |ids| - 1 ==> ids[j] != Last(ids)
    ensures ChainIs(WithSiblingBit(nodes, Last(ids)), ids, WithSibling(g))
  {
    hide Frozen, Before;
    var nodes' := WithSiblingBit(nodes, Last(ids));
    FrozenMarked(nodes[Last(ids)]);
    forall j | 0 <= j < |ids|
      ensures 0 < ids[j] < |nodes'| && Frozen(nodes'[ids[j]]) == WithSibling(g)[j]
      ensures nodes'[ids[j]].sibling == Before(ids, j)
    {
      assert 0 < ids[j] < |nodes| && Frozen(nodes[ids[j]]) == g[j] && nodes[ids[j]].sibling == Before(ids, j);
    }
  }
}
