/** Builder of the minimal word graph. */
module DawgBuilder {
  import opened Bits
  import opened Wrappers
  import opened Language
  import opened DawgStore
  import opened DawgPending
  import opened DawgTable
  import opened DawgNodes
  import opened DawgReach
  import BV = BitVector

  const INITIAL_TABLE_SIZE: nat := 1024

  /** More units than this could not be addressed by the words. */
  const MAX_UNITS: nat := 0x4000_0000

  datatype Inserted = Done | NegativeValue | ZeroLength | NulInKey | WrongOrder

  /** How a new key relates to the last one. */
  datatype Branch = AtRoot | NulFound | Smaller | Larger | Same

  class DawgBuilder {
    var nodes: seq<Node>
    var cells: Cells
    var table: seq<nat>
    var nodeStack: seq<nat>
    var recycleBin: seq<nat>
    var numStates: nat
    const isIntersections: BV.BitVector
    ghost var path: seq<Level>
    ghost var top: seq<Cell>
    ghost var chains: seq<seq<nat>>
    ghost var home: map<nat, (nat, nat)>
    ghost var probes: map<nat, nat>
    ghost var last: Key
    ghost var lang: Lang
    ghost var spent: nat

    constructor ()
      ensures fresh(isIntersections)
    {
      nodes, cells, table, nodeStack, recycleBin, numStates := [], [], [], [], [], 0;
      isIntersections := new BV.BitVector();
    }

    // The finished graph, as the array builder reads it.

    function Sibling(id: nat): nat
      requires id < |cells|
      reads this
    {
      if cells[id].HasSibling() then id + 1 else 0
    }

    predicate IsIntersection(id: nat)
      reads this, isIntersections
    {
      isIntersections.Get(id)
    }

    function IntersectionId(id: nat): nat
      requires isIntersections.Ranked() && id < isIntersections.size && IsIntersection(id)
      reads this, isIntersections
    {
      isIntersections.Rank(id) - 1
    }

    ghost predicate Finished()
      reads this, isIntersections
    {
      && StoreOk(cells)
      && isIntersections.Ranked() && isIntersections.size == |cells|
      && (cells[0].Child() == 0 || IsStart(cells, cells[0].Child()))
    }

    // The hash table.

    /** The frozen states are all different and can be found through the table. */
    ghost predicate StoreInv()
      reads `cells, `table, `probes, `numStates, isIntersections
    {
      && StoreOk(cells) && Distinct(cells)
      && TableOk(cells, table, probes, |cells|)
      && Used(table) == CountStarts(cells, |cells|) && numStates == Used(table) + 1
      && |table| >= 4 && numStates <= |table| - |table| / 4
      && isIntersections.Valid() && isIntersections.size == |cells|
    }

    /** `hash_node`: adds up the edges from the last one to the first. */
    method HashNode(nodeId: nat, ghost ids: seq<nat>, ghost g: seq<Cell>) returns (h: nat)
      requires ChainIs(nodes, ids, g) && g != [] && nodeId == Last(ids)
      ensures h == Hash(g)
    {
      hide Frozen, Xor, Hash, MixCell, ChainIs, Before;
      h := 0;
      var id := nodeId;
      ghost var j: nat := |g|;
      HashEnds(g);
      ChainLast(nodes, ids, g);
      while id != 0
        invariant j <= |g| == |ids| && id == Before(ids, j) && h == Hash(g[j..])
        decreases j
      {
        ChainNode(nodes, ids, g, j);
        HashDown(g, j - 1);
        h := Xor(h, MixCell(Frozen(nodes[id])));
        id := nodes[id].sibling;
        j := j - 1;
      }
      ChainStart(nodes, ids, g, j);
      assert g[0..] == g;
    }

    /** `hash_unit`: adds up the edges from the first one to the last. */
    method HashUnit(s: nat) returns (h: nat)
      requires StoreOk(cells) && IsStart(cells, s)
      ensures h == Hash(Group(cells, s))
    {
      hide Xor, Hash, MixCell, Group, StoreOk;
      h := 0;
      var id := s;
      ghost var g := Group(cells, s);
      ghost var j: nat := 0;
      HashEnds(g);
      assert g[0..] == g;
      StartGroup(cells, s);
      while true
        invariant j < |g| && id == s + j && Xor(h, Hash(g[j..])) == Hash(g)
        decreases |g| - j
      {
        assert cells[s..s + |g|][j] == cells[id];
        HashUp(h, g, j);
        h := Xor(h, MixCell(cells[id]));
        if !cells[id].HasSibling() {
          break;
        }
        id := id + 1;
        j := j + 1;
      }
    }

    /** `are_equal`: whether the chain of `nodeId` has the edges of the state `unitId`. */
    method AreEqual(nodeId: nat, unitId: nat, ghost ids: seq<nat>, ghost g: seq<Cell>) returns (equal: bool)
      requires ChainIs(nodes, ids, g) && g != [] && nodeId == Last(ids)
      requires StoreOk(cells) && IsStart(cells, unitId)
      ensures equal <==> Group(cells, unitId) == g
    {
      hide Frozen, Group, StoreOk, IsStart, ChainIs, Before, Last;
      ghost var h := Group(cells, unitId);
      StartGroup(cells, unitId);
      ChainLast(nodes, ids, g);
      ChainNode(nodes, ids, g, |g|);
      var unit := unitId;
      var i := nodes[nodeId].sibling;
      ghost var t: nat := 0;
      while i != 0
        invariant t < |ids| && i == Before(ids, |ids| - 1 - t) && unit == unitId + t && t < |h|
        decreases |ids| - t
      {
        StartCell(cells, unitId, t);
        ChainNode(nodes, ids, g, |ids| - 1 - t);
        if !cells[unit].HasSibling() {
          return false;
        }
        unit := unit + 1;
        i := nodes[i].sibling;
        t := t + 1;
      }
      ChainStart(nodes, ids, g, |ids| - 1 - t);
      StartCell(cells, unitId, t);
      if cells[unit].HasSibling() {
        return false;
      }
      equal := SameEdges(nodeId, unitId, unit, ids, g);
    }

    /** The second loop of `are_equal`, from the last edge to the first. */
    method SameEdges(nodeId: nat, ghost unitId: nat, lastUnit: nat, ghost ids: seq<nat>, ghost g: seq<Cell>)
      returns (equal: bool)
      requires ChainIs(nodes, ids, g) && g != [] && nodeId == Last(ids)
      requires StoreOk(cells) && IsStart(cells, unitId) && |Group(cells, unitId)| == |g| && lastUnit == unitId + |g| - 1
      ensures equal <==> Group(cells, unitId) == g
    {
      hide Frozen, Group, StoreOk, IsStart, ChainIs, Before, Last;
      ghost var h := Group(cells, unitId);
      StartGroup(cells, unitId);
      ChainLast(nodes, ids, g);
      var i, unit := nodeId, lastUnit;
      ghost var j: nat := |ids|;
      while i != 0
        invariant j <= |ids| == |g| && i == Before(ids, j) && (j > 0 ==> unit == unitId + j - 1)
        invariant forall x :: j <= x < |ids| ==> h[x] == g[x]
        decreases j
      {
        ChainNode(nodes, ids, g, j);
        StartCell(cells, unitId, j - 1);
        if Frozen(nodes[i]) != cells[unit] {
          return false;
        }
        i := nodes[i].sibling;
        unit := unit - 1;
        j := j - 1;
      }
      ChainStart(nodes, ids, g, j);
      return true;
    }

    /** `find_node`: a frozen state with the edges `g`, or the slot where it belongs. */
    method FindNode(nodeId: nat, ghost ids: seq<nat>, ghost g: seq<Cell>)
      returns (matchId: nat, hashId: nat, ghost d: nat)
      requires StoreInv() && ChainIs(nodes, ids, g) && g != [] && nodeId == Last(ids)
      requires Used(table) < |table|
      ensures matchId != 0 ==> IsStart(cells, matchId) && Group(cells, matchId) == g
      ensures matchId == 0 ==> forall s :: IsStart(cells, s) ==> Group(cells, s) != g
      ensures matchId == 0 ==> d < |table| && hashId == Probe(Home(g, |table|), d, |table|) && table[hashId] == 0
                               && Busy(table, Home(g, |table|), d)
    {
      hide ChainIs, Group, StoreOk, IsStart, Distinct, Used, Hash, Probe, CountStarts, Stored;
      var h := HashNode(nodeId, ids, g);
      hashId := h % |table|;
      d := 0;
      FirstProbe(g, |table|);
      while table[hashId] != 0
        invariant d < |table| && hashId == Probe(Home(g, |table|), d, |table|)
        invariant forall e :: 0 <= e < d ==> var x := table[Probe(Home(g, |table|), e, |table|)];
                                             x != 0 && Group(cells, x) != g
        decreases |table| - d
      {
        var unitId := table[hashId];
        var equal := AreEqual(nodeId, unitId, ids, g);
        if equal {
          return unitId, hashId, d;
        }
        if d + 1 == |table| {
          SomeFree(table, Home(g, |table|));
        }
        NextProbe(Home(g, |table|), d, |table|);
        hashId := (hashId + 1) % |table|;
        d := d + 1;
      }
      forall s: nat | IsStart(cells, s) ensures Group(cells, s) != g {
        NotInTable(cells, table, probes, g, d, s);
      }
      return 0, hashId, d;
    }

    /** `find_unit`: the slot where the state `s`, which is not in the table, belongs. */
    method FindUnit(s: nat) returns (hashId: nat, ghost d: nat)
      requires StoreOk(cells) && IsStart(cells, s) && |table| > 0 && Used(table) < |table|
      ensures hashId < |table| && table[hashId] == 0
      ensures var g := Group(cells, s);
        d < |table| && hashId == Probe(Home(g, |table|), d, |table|) && Busy(table, Home(g, |table|), d)
    {
      hide Group, StoreOk, IsStart, Used, Hash, Probe;
      var h := HashUnit(s);
      ghost var g := Group(cells, s);
      hashId := h % |table|;
      d := 0;
      FirstProbe(g, |table|);
      while table[hashId] != 0
        invariant d < |table| && hashId == Probe(Home(g, |table|), d, |table|)
        invariant Busy(table, Home(g, |table|), d)
        decreases |table| - d
      {
        if d + 1 == |table| {
          SomeFree(table, Home(g, |table|));
        }
        NextProbe(Home(g, |table|), d, |table|);
        hashId := (hashId + 1) % |table|;
        d := d + 1;
      }
    }

    /** `expand_table`: doubles the table and stores all frozen states again. */
    method ExpandTable()
      requires StoreInv()
      modifies `table, `probes
      ensures StoreInv() && |table| == 2 * |old(table)|
    {
      hide Group, StoreOk, IsStart, Used, Probe, CountStarts, Stored, Distinct, TableOk;
      table := seq(2 * |table|, i => 0);
      probes := map[];
      EmptyTable(cells, |table|, table);
      StoreSize(cells);
      var id := 1;
      while id < |cells|
        invariant 1 <= id <= |cells| && |table| == 2 * |old(table)|
        invariant TableOk(cells, table, probes, id) && Used(table) == CountStarts(cells, id)
      {
        StartFlag(cells, id);
        CountGrows(cells, id, |cells|);
        if cells[id].byte == 0 || cells[id].IsState() {
          ghost var d;
          var hashId;
          hashId, d := FindUnit(id);
          StoreNext(cells, table, probes, id, d, hashId);
          table := table[hashId := id];
          probes := probes[id := d];
        } else {
          TableSkip(cells, table, probes, id);
        }
        id := id + 1;
      }
    }

    method AppendUnit()
      requires isIntersections.Valid() && isIntersections.size == |cells|
      modifies `cells, isIntersections
      ensures isIntersections.Valid() && isIntersections.size == |cells|
      ensures cells == old(cells) + [Cell(0, 0)]
    {
      isIntersections.Append();
      cells := cells + [Cell(0, 0)];
    }

    /** Appends the chain of `nodeId` to the frozen units. */
    method AppendGroup(nodeId: nat, ghost ids: seq<nat>, ghost g: seq<Cell>) returns (unitId: nat)
      requires isIntersections.Valid() && isIntersections.size == |cells| > 0
      requires ChainIs(nodes, ids, g) && g != [] && nodeId == Last(ids)
      modifies `cells, isIntersections
      ensures isIntersections.Valid() && isIntersections.size == |cells|
      ensures cells == old(cells) + g && unitId == |old(cells)|
    {
      hide ChainIs, Before, Last, Frozen;
      var numSiblings := CountSiblings(nodeId, ids, g);
      ghost var n := |cells|;
      ghost var cells0 := cells;
      var i := 0;
      while i < numSiblings
        invariant 0 <= i <= numSiblings && isIntersections.Valid() && isIntersections.size == |cells|
        invariant |cells| == n + i && cells[..n] == cells0
      {
        AppendUnit();
        i := i + 1;
      }
      unitId := |cells| - 1;
      var id := nodeId;
      ghost var j: nat := |g|;
      ChainLast(nodes, ids, g);
      while id != 0
        invariant j <= |g| == |ids| && id == Before(ids, j) && unitId == n + j - 1
        invariant isIntersections.Valid() && isIntersections.size == |cells| == n + |g|
        invariant cells[..n] == cells0 && forall x :: j <= x < |g| ==> cells[n + x] == g[x]
        decreases j
      {
        ChainNode(nodes, ids, g, j);
        cells := cells[unitId := Frozen(nodes[id])];
        unitId := unitId - 1;
        id := nodes[id].sibling;
        j := j - 1;
      }
      ChainStart(nodes, ids, g, j);
      unitId := unitId + 1;
      assert cells == cells0 + g;
    }

    method CountSiblings(nodeId: nat, ghost ids: seq<nat>, ghost g: seq<Cell>) returns (n: nat)
      requires ChainIs(nodes, ids, g) && g != [] && nodeId == Last(ids)
      ensures n == |g|
    {
      hide ChainIs, Before, Last, Frozen;
      n := 0;
      var id := nodeId;
      ChainLast(nodes, ids, g);
      while id != 0
        invariant n <= |g| == |ids| && id == Before(ids, |g| - n)
        decreases |g| - n
      {
        ChainNode(nodes, ids, g, |g| - n);
        n := n + 1;
        id := nodes[id].sibling;
      }
      ChainStart(nodes, ids, g, |g| - n);
    }

    /** The nodes of a frozen chain go to the recycle bin. */
    method FreeChain(nodeId: nat, ghost ids: seq<nat>, ghost g: seq<Cell>)
      requires ChainIs(nodes, ids, g) && g != [] && nodeId == Last(ids)
      modifies `recycleBin
      ensures recycleBin == old(recycleBin) + Freed(ids, |ids|)
    {
      hide ChainIs, Before, Last, Frozen;
      var i := nodeId;
      ghost var j: nat := |ids|;
      ChainLast(nodes, ids, g);
      while i != 0
        invariant j <= |g| == |ids| && i == Before(ids, j)
        invariant recycleBin == old(recycleBin) + Freed(ids, |ids| - j)
        decreases j
      {
        ChainNode(nodes, ids, g, j);
        var next := nodes[i].sibling;
        assert Freed(ids, |ids| - j + 1) == Freed(ids, |ids| - j) + [i];
        recycleBin := recycleBin + [i];
        i := next;
        j := j - 1;
      }
      ChainStart(nodes, ids, g, j);
    }

    /** The stack ends in the last node of the top group. */
    ghost predicate Closed()
      reads this
    {
      && |nodeStack| > 0 && top != [] && |nodes| > 0 && nodes[0].byte == 255
      && Open(nodes, nodeStack[..|nodeStack| - 1], recycleBin, path, top, chains, home)
      && nodeStack[|nodeStack| - 1] == Last(chains[|path|])
    }

    ghost predicate StatesOk()
      reads this, isIntersections
    {
      StoreInv() && PathOk(cells, path)
    }

    /** Finds or makes the frozen state with the edges of the chain of `nodeId`. */
    method FreezeGroup(nodeId: nat, ghost ids: seq<nat>, ghost g: seq<Cell>) returns (matchId: nat)
      requires StatesOk() && ChainIs(nodes, ids, g) && nodeId == Last(ids) && GroupOk(cells, |cells|, g)
      modifies `cells, `table, `probes, `numStates, isIntersections
      ensures StatesOk() && IsStart(cells, matchId) && Group(cells, matchId) == g
      ensures cells == old(cells) || cells == old(cells) + g
    {
      hide ChainIs, Group, StoreOk, IsStart, Distinct, Used, Probe, CountStarts, PathOk, TableOk, Busy, Home, GroupOk;
      GroupFlags(cells, |cells|, g);
      if numStates >= |table| - |table| / 4 {
        ExpandTable();
      }
      var hashId;
      ghost var d;
      matchId, hashId, d := FindNode(nodeId, ids, g);
      if matchId != 0 {
        InsideStore(cells, matchId);
        isIntersections.Set(matchId, true);
      } else {
        ghost var cells0 := cells;
        StoreSize(cells);
        NewState(cells, table, probes, g, d, hashId);
        matchId := AppendGroup(nodeId, ids, g);
        PathKept(cells0, g, path);
        table := table[hashId := matchId];
        probes := probes[matchId := d];
        numStates := numStates + 1;
      }
    }

    /** One round of `flush`: the group on top becomes the child of its parent as a frozen state.
        Its level is finished by that, except for the group of the root's children. */
    method FreezeTop() returns (ghost m: nat)
      requires Closed() && StatesOk() && GroupOk(cells, |cells|, top) && |cells| + |top| < MAX_UNITS
      requires AllUsed(cells, path, top)
      modifies `nodes, `cells, `table, `nodeStack, `recycleBin, `numStates, `path, `top, `chains, `home, `probes,
        isIntersections
      ensures StatesOk() && IsStart(cells, m)
      ensures |cells| <= |old(cells)| + |old(top)|
      ensures old(path) == [] ==> nodeStack == [0] && |nodes| > 0 && nodes[0].child == m && nodes[0].byte == 255
                                  && LangAt(cells, m) == old(LangIn(cells, top)) && UsedBelow(cells, m)
      ensures old(path) != [] ==> var n := |old(path)| - 1;
        && path == old(path)[..n] && top == Close(old(path)[n], m) && Closed()
        && nodeStack == old(nodeStack)[..n + 2]
        && LevelOk(cells, old(path)[n])
        && Lang'(cells, path, top) == old(Lang'(cells, path, top)) && AllUsed(cells, path, top)
    {
      hide Group, StoreOk, Distinct, TableOk, Used, CountStarts, IsStart, PathOk, GroupOk, Open, Close, Lang', LangIn,
        LangAt, LevelOk, Last, Freed, Forget, Frozen, ChainIs, AllUsed, UsedBelow;
      var nodeId := nodeStack[|nodeStack| - 1];
      nodeStack := nodeStack[..|nodeStack| - 1];
      OpenParts(nodes, nodeStack, recycleBin, path, top, chains, home);
      ghost var ids := chains[|path|];
      ghost var g, cells0 := top, cells;
      TopChain(nodes, nodeStack, recycleBin, path, top, chains, home);
      var matchId := FreezeGroup(nodeId, ids, g);
      m := matchId;
      StoreFacts(this, path);
      FreezeUses(cells0, cells, path, g, m);
      FreeChain(nodeId, ids, g);
      var parent := nodeStack[|nodeStack| - 1];
      ghost var nodes0 := nodes;
      nodes := nodes[parent := nodes[parent].(child := matchId)];
      if path == [] {
        FrozenRoot(cells0, cells, g, m);
      } else {
        ghost var n := |path| - 1;
        CloseStep(nodes0, nodeStack, old(recycleBin), path, top, chains, home, cells0, cells, m);
        home := Forget(home, chains[n + 1]);
        chains := chains[..n + 1];
        path, top := path[..n], Close(path[n], m);
      }
    }

    /** Room for all edges of the open part: `spent` bounds the edges of all keys so far. */
    ghost predicate Fits()
      reads this
    {
      |cells| + Size(path) + |top| <= spent + 1 < MAX_UNITS
    }

    /** The open part when `flush` has gone up to depth `k`: levels below `p` are untouched, and
        the edge at depth `p` is about to get a sibling. */
    ghost predicate Flushing(p: int, k: int, path0: seq<Level>, top0: seq<Cell>, lang: Lang)
      reads this, isIntersections
    {
      && StatesOk() && p <= k
      && (k >= 0 ==>
            && k <= |path0| && Closed() && Fits()
            && path == path0[..k]
            && (k > p ==> GroupOk(cells, |cells|, top)) && (k == p ==> OlderOk(cells, top))
            && (if k == |path0| then top == top0 else top[|top| - 1].byte == path0[k].byte)
            && Lang'(cells, path, top) == lang && AllUsed(cells, path, top))
      && (k < 0 ==>
            && nodeStack == [0] && |nodes| > 0 && nodes[0].byte == 255
            && IsStart(cells, nodes[0].child) && LangAt(cells, nodes[0].child) == lang
            && UsedBelow(cells, nodes[0].child))
    }

    /** One round of `flush` at depth `k`. */
    method FlushStep(ghost p: int, ghost k: int, ghost path0: seq<Level>, ghost top0: seq<Cell>, ghost lang: Lang)
      requires -1 <= p < k <= |path0| && Flushing(p, k, path0, top0, lang)
      requires forall i :: 0 <= i < |path0| ==> path0[i].sib == (i == p)
      modifies `nodes, `cells, `table, `nodeStack, `recycleBin, `numStates, `path, `top, `chains, `home, `probes,
        isIntersections
      ensures Flushing(p, k - 1, path0, top0, lang)
      ensures nodeStack == old(nodeStack)[..k + 1]
    {
      hide StatesOk, GroupOk, OlderOk, LangAt, LangIn, IsStart, Open, Close, LevelOk, Last, Edge, AllUsed, UsedBelow;
      ClosedParts();
      if k > 0 {
        SizeOfPrefix(path0, k);
      } else {
        RootLang(cells, top);
      }
      ghost var m := FreezeTop();
      if k > 0 {
        assert path0[..k][..k - 1] == path0[..k - 1];
        InsideStore(cells, m);
        CloseParts(path0[k - 1], m);
        CloseOk(cells, path0[k - 1], m);
      }
    }

    lemma ClosedParts()
      requires Closed()
      ensures |nodeStack| == |path| + 2 && |chains| == |path| + 1
      ensures nodeStack[0] == 0
    {
      hide Last;
      OpenParts(nodes, nodeStack[..|nodeStack| - 1], recycleBin, path, top, chains, home);
    }

    /** `flush`: freezes everything above the node `id`, which is at depth `p` of the stack, and
        takes `id` off the stack.  Depth -1 is the root. */
    method Flush(id: nat, ghost p: int, ghost lang: Lang)
      requires -1 <= p <= |path| && Flushing(p, |path|, path, top, lang)
      requires |nodeStack| == |path| + 2 && nodeStack[p + 1] == id
      requires forall i :: 0 <= i < |path| ==> path[i].sib == (i == p)
      modifies `nodes, `cells, `table, `nodeStack, `recycleBin, `numStates, `path, `top, `chains, `home, `probes,
        isIntersections
      ensures StatesOk() && nodeStack == old(nodeStack)[..p + 1]
      ensures p >= 0 ==>
        && |nodes| > 0 && nodes[0].byte == 255 && top != []
        && Open(nodes, nodeStack, recycleBin, path, top, chains, home) && Fits()
        && path == old(path)[..p] && OlderOk(cells, top) && Lang'(cells, path, top) == lang
        && AllUsed(cells, path, top)
        && (if p == |old(path)| then top == old(top) else top[|top| - 1].byte == old(path)[p].byte)
      ensures p < 0 ==>
        && |nodes| > 0 && nodes[0].byte == 255 && IsStart(cells, nodes[0].child)
        && LangAt(cells, nodes[0].child) == lang && UsedBelow(cells, nodes[0].child)
    {
      hide StoreOk, Distinct, TableOk, Used, CountStarts, PathOk, GroupOk, OlderOk, Lang', LangAt, IsStart, Open, Close,
        AllUsed, UsedBelow;
      ghost var path0, top0, stack0 := path, top, nodeStack;
      ClosedParts();
      StackDistinct(nodes, nodeStack[..|nodeStack| - 1], nodeStack[|nodeStack| - 1], recycleBin, path, top, chains,
        home);
      ghost var k := |path|;
      assert stack0[..k + 2] == stack0 == stack0[..k + 1] + [stack0[k + 1]];
      while nodeStack[|nodeStack| - 1] != id
        invariant p <= k <= |path0| && nodeStack == stack0[..k + 2]
        invariant Flushing(p, k, path0, top0, lang)
        decreases k - p
      {
        FlushStep(p, k, path0, top0, lang);
        k := k - 1;
      }
      assert stack0[..p + 2][..p + 1] == stack0[..p + 1];
      nodeStack := nodeStack[..|nodeStack| - 1];
    }

    // Keys.

    /** Between two keys: the graph holds `lang`, and `last` was the last key, if any. */
    ghost predicate Building()
      reads this, isIntersections
    {
      && StatesOk() && |nodes| > 0 && nodes[0].byte == 255
      && |cells| + Size(path) + |top| <= spent + 1
      && Lang'(cells, path, top) == lang && AllUsed(cells, path, top)
      && IsText(last) && Bytes(path) == last
      && (forall i :: 0 <= i < |path| ==> !path[i].sib)
      && (if last == [] then top == [] && Open(nodes, nodeStack, recycleBin, path, top, chains, home)
          else Closed() && exists v: nat :: v < 0x8000_0000 && top == Leaf(v))
    }

    /** `append_node` */
    method AppendNode() returns (id: nat)
      requires |nodes| > 0 && BinOk(nodes, recycleBin, home)
      modifies `nodes, `recycleBin
      ensures (nodes, recycleBin, id) == Take(old(nodes), old(recycleBin))
    {
      if recycleBin == [] {
        id := |nodes|;
        nodes := nodes + [EMPTY_NODE];
      } else {
        id := recycleBin[|recycleBin| - 1];
        nodes := nodes[id := EMPTY_NODE];
        recycleBin := recycleBin[..|recycleBin| - 1];
      }
    }

    /** Adds a node for `c` as the last edge of the open group. */
    method Push(c: nat) returns (id: nat)
      requires |nodes| > 0 && nodes[0].byte == 255 && Open(nodes, nodeStack, recycleBin, path, top, chains, home)
      modifies `nodes, `recycleBin, `nodeStack, `home, `chains, `path, `top
      ensures |nodes| > 0 && nodes[0].byte == 255
      ensures Open(nodes, nodeStack, recycleBin, path, top, chains, home)
      ensures path == old(path) + [Level(old(top), c, false)] && top == []
      ensures nodeStack == old(nodeStack) + [id]
    {
      hide Open, BinOk, ChainIs, HeadIs;
      OpenParts(nodes, nodeStack, recycleBin, path, top, chains, home);
      TakeFresh(nodes, recycleBin, home);
      ghost var nodes0, bin0, n := nodes, recycleBin, |path|;
      var parent := nodeStack[|nodeStack| - 1];
      id := AppendNode();
      OpenAfterTake(nodes0, nodeStack, bin0, path, top, chains, home);
      ghost var nodes1 := nodes;
      PushLevel(nodes, nodeStack, recycleBin, path, top, chains, home, id, c);
      if nodes[parent].child == 0 {
        nodes := nodes[id := nodes[id].(isState := true)];
      }
      nodes := nodes[id := nodes[id].(sibling := nodes[parent].child)];
      nodes := nodes[id := nodes[id].(byte := c)];
      nodes := nodes[parent := nodes[parent].(child := id)];
      nodeStack := nodeStack + [id];
      assert nodes == Pushed(nodes1, parent, id, c);
      home := home[id := (n, |chains[n]|)];
      chains := PushedChains(chains, id) + [[]];
      path, top := path + [Level(top, c, false)], [];
    }

    /** Adds the end of a key and its value. */
    method PushEnd(value: nat) returns (id: nat)
      requires |nodes| > 0 && nodes[0].byte == 255 && Open(nodes, nodeStack, recycleBin, path, top, chains, home)
      requires top == []
      modifies `nodes, `recycleBin, `nodeStack, `home, `chains, `top
      ensures Closed() && top == Leaf(value)
    {
      hide Open, BinOk, ChainIs, HeadIs;
      OpenParts(nodes, nodeStack, recycleBin, path, top, chains, home);
      TakeFresh(nodes, recycleBin, home);
      ghost var nodes0, bin0, n := nodes, recycleBin, |path|;
      var parent := nodeStack[|nodeStack| - 1];
      id := AppendNode();
      OpenAfterTake(nodes0, nodeStack, bin0, path, top, chains, home);
      ghost var nodes1 := nodes;
      PushLeaf(nodes, nodeStack, recycleBin, path, chains, home, id, value);
      if nodes[parent].child == 0 {
        nodes := nodes[id := nodes[id].(isState := true)];
      }
      nodes := nodes[id := nodes[id].(sibling := nodes[parent].child)];
      nodes := nodes[id := nodes[id].(byte := 0)];
      nodes := nodes[parent := nodes[parent].(child := id)];
      assert nodes == Pushed(nodes1, parent, id, 0);
      nodeStack := nodeStack + [id];
      nodes := nodes[id := nodes[id].(child := value)];
      home := home[id := (n, |chains[n]|)];
      chains := PushedChains(chains, id);
      top := Leaf(value);
      assert nodeStack[..|nodeStack| - 1] == old(nodeStack);
    }

    /** The pools of a new graph. */
    method InitPools()
      modifies this, isIntersections
      ensures nodes == [Node(0, 0, 0xFF, false, false)] && cells == [Cell(0, 0)] && nodeStack == [0] && recycleBin == []
      ensures |table| == INITIAL_TABLE_SIZE && (forall i :: 0 <= i < |table| ==> table[i] == 0) && numStates == 1
      ensures isIntersections.Valid() && isIntersections.size == |cells|
    {
      isIntersections.Clear();
      nodes, cells, nodeStack, recycleBin := [], [], [], [];
      table := seq(INITIAL_TABLE_SIZE, i => 0);
      nodes := nodes + [EMPTY_NODE];
      AppendUnit();
      numStates := 1;
      nodes := nodes[0 := nodes[0].(byte := 0xFF)];
      nodeStack := nodeStack + [0];
    }

    method Init()
      modifies this, isIntersections
      ensures Building() && last == [] && lang == imap[] && spent == 0
    {
      hide StoreOk, Distinct, TableOk, Used, CountStarts, Lang', Open, Closed, Leaf, LevelOk, AllUsed;
      InitPools();
      path, top, chains, home, probes := [], [], [[]], map[], map[];
      last, lang, spent := [], imap[], 0;
      InitialTable(cells, table);
      InitialOpen(nodes);
      EmptyLang(cells);
      NothingToUse(cells);
    }

    /** The key leaves the open path at `keyPos`, where the path goes on with the node `childId`. */
    ghost predicate DivergesAt(key: Key, keyPos: nat, childId: nat)
      reads this
    {
      && keyPos < |key| && keyPos <= |path| && |last| == |path| && key[..keyPos] == last[..keyPos]
      && |nodeStack| == |path| + 2 && childId == nodeStack[keyPos + 1]
      && ByteAt(last, keyPos) < key[keyPos]
    }

    /** How a key compares to the last one. */
    method Walk(key: seq<nat>) returns (branch: Branch, keyPos: nat, childId: nat)
      requires Building() && IsBytes(key) && key != []
      ensures branch.AtRoot? <==> last == []
      ensures branch.AtRoot? ==> keyPos == 0
      ensures branch.NulFound? ==> !IsText(key) && Cut(key) <= last
      ensures branch.Smaller? ==> Less(Cut(key), last) && (IsText(key) || !(Cut(key) <= last))
      ensures branch.Same? ==> key == last
      ensures branch.Larger? ==> Less(last, Cut(key)) && (IsText(key) ==> DivergesAt(key, keyPos, childId))
    {
      hide StatesOk, Open, Lang', Bytes, IsText, IsBytes, Cut, Less, AllUsed;
      ghost var text := Cut(key);
      CutIsText(key);
      var id := 0;
      keyPos, childId := 0, 0;
      BytesSize(path);
      if last == [] {
        EmptyRoot(nodes, nodeStack, recycleBin, path, top, chains, home);
      } else {
        ClosedParts();
      }
      while keyPos <= |key|
        invariant keyPos <= |key| + 1 && keyPos <= |path| + 1
        invariant keyPos <= |key| ==> keyPos <= |path| && key[..keyPos] == last[..keyPos] && id == nodeStack[keyPos]
        invariant keyPos == |key| + 1 ==> key == last
        invariant last == [] ==> keyPos == 0
        decreases |key| + 1 - keyPos
      {
        if last != [] {
          ClosedStep(keyPos);
        }
        childId := nodes[id].child;
        if childId == 0 {
          return AtRoot, keyPos, childId;
        }
        var keyLabel := ByteAt(key, keyPos);
        CutAgrees(key, last, keyPos);
        if keyPos < |key| && keyLabel == 0 {
          NulHere(key, last, keyPos);
          return NulFound, keyPos, childId;
        }
        var unitLabel := nodes[childId].byte;
        if keyLabel < unitLabel {
          LessAt(text, last, keyPos);
          if !IsText(key) { NotInFront(key, last, keyPos); }
          return Smaller, keyPos, childId;
        } else if keyLabel > unitLabel {
          LessAt(last, text, keyPos);
          return Larger, keyPos, childId;
        }
        SameByte(key, last, keyPos);
        id := childId;
        keyPos := keyPos + 1;
      }
      return Same, keyPos, childId;
    }

    lemma ClosedStep(i: nat)
      requires Building() && last != [] && i <= |path|
      ensures |nodeStack| == |path| + 2 && |last| == |path| && nodeStack[i] < |nodes|
      ensures var child := nodes[nodeStack[i]].child;
        child == nodeStack[i + 1] && 0 < child < |nodes| && nodes[child].byte == ByteAt(last, i)
    {
      hide Placed, BinOk, Lang', IsText, StatesOk, AllUsed;
      ClosedParts();
      BytesSize(path);
      if i < |path| {
        assert HeadIs(nodes, chains[i], path[i]);
        BytesAt(path, i);
      } else {
        ChainEnd(nodes, chains[i], top);
        assert chains[i][0] == Last(chains[i]);
      }
    }

    /** The last key's edge at `keyPos` will be followed by another one. */
    method MarkSibling(key: Key, keyPos: nat, childId: nat)
      requires Building() && last != [] && DivergesAt(key, keyPos, childId) && spent + 1 < MAX_UNITS
      modifies `nodes, `path, `top
      ensures Flushing(keyPos, |path|, path, top, lang) && |nodeStack| == |path| + 2
      ensures forall i :: 0 <= i < |path| ==> path[i].sib == (i == keyPos)
      ensures Bytes(path) == last
      ensures keyPos == |path| ==> |top| == 1 && top[0].byte == 0
    {
      hide StoreOk, Distinct, TableOk, Used, CountStarts, Open, Lang', IsText, OlderOk, GroupOk, Lookup, PathOk,
        WithSibling, Last, Size, Bytes, Leaf, AllUsed;
      ClosedParts();
      ghost var stack := nodeStack[..|nodeStack| - 1];
      PathAndTop(cells, path, top, last);
      HeadOnStack(nodes, stack, recycleBin, path, top, chains, home, keyPos);
      if keyPos < |path| {
        MarkLevel(nodes, stack, recycleBin, path, top, chains, home, keyPos);
        MarkedPath(cells, path, top, keyPos);
        MarkUses(cells, path, top, keyPos);
        path := path[keyPos := path[keyPos].(sib := true)];
      } else {
        MarkTop(nodes, stack, recycleBin, path, top, chains, home);
        MarkedTop(cells, path, top);
        SiblingUses(cells, path, top);
        top := WithSibling(top);
      }
      nodes := nodes[childId := nodes[childId].(hasSibling := true)];
    }

    /** The last key's edge at `keyPos` gets a sibling, and everything beyond it is frozen. */
    method Leave(key: Key, keyPos: nat, childId: nat)
      requires Building() && last != [] && DivergesAt(key, keyPos, childId) && spent + 1 < MAX_UNITS
      modifies `nodes, `cells, `table, `nodeStack, `recycleBin, `numStates, `path, `top, `chains, `home, `probes,
        isIntersections
      ensures StatesOk() && |nodes| > 0 && nodes[0].byte == 255
      ensures Open(nodes, nodeStack, recycleBin, path, top, chains, home) && Fits()
      ensures |path| == keyPos < |key| && Bytes(path) == key[..keyPos]
      ensures OlderOk(cells, top) && top != [] && top[|top| - 1].byte < key[keyPos]
      ensures forall i :: 0 <= i < |path| ==> !path[i].sib
      ensures Lang'(cells, path, top) == lang && AllUsed(cells, path, top)
    {
      hide StatesOk, Open, Lang', Bytes, IsText, OlderOk, GroupOk, Size, Leaf, Lookup, AllUsed;
      MarkSibling(key, keyPos, childId);
      ghost var path0 := path;
      BytesPrefix(path0, keyPos);
      if keyPos < |path0| { BytesAt(path0, keyPos); }
      Flush(childId, keyPos, lang);
    }

    /** The open path while the bytes of `key` from `|base|` on are added: `i` bytes are done. */
    ghost predicate Pushing(base: seq<Level>, older: seq<Cell>, key: Key, i: nat)
      reads this, isIntersections
    {
      && StatesOk() && |nodes| > 0 && nodes[0].byte == 255
      && Open(nodes, nodeStack, recycleBin, path, top, chains, home)
      && |base| <= i <= |key|
      && path == PathAt(base, older, key, i) && top == (if i == |base| then older else [])
      && |cells| + Size(path) + |top| <= spent + 1 + (i - |base|) && AllUsed(cells, path, top)
      && (forall j :: 0 <= j < |path| ==> !path[j].sib)
    }

    method PushByte(ghost base: seq<Level>, ghost older: seq<Cell>, key: Key, i: nat)
      requires Pushing(base, older, key, i) && i < |key| && IsText(key)
      requires OlderOk(cells, older) && forall j :: 0 <= j < |older| ==> older[j].byte < key[|base|]
      modifies `nodes, `recycleBin, `nodeStack, `home, `chains, `path, `top
      ensures Pushing(base, older, key, i + 1)
    {
      hide StoreOk, Distinct, TableOk, Used, CountStarts, Open, OlderOk, PathAt, Size, PathOk, AllUsed;
      PathAtNext(base, older, key, i);
      PushUses(cells, path, top, key[i], false);
      SizeOfMore(path, Level(top, key[i], false));
      ghost var path0, l := path, Level(top, key[i], false);
      var id := Push(key[i]);
      PathMore(cells, path0, l, older, key, i, |base|);
    }

    /** The second loop of `insert`: the bytes from `|path|` on. */
    method PushBytes(key: Key, keyPos: nat)
      requires IsText(key) && |path| == keyPos < |key| && OlderOk(cells, top)
      requires Pushing(path, top, key, |path|)
      requires forall j :: 0 <= j < |top| ==> top[j].byte < key[|path|]
      modifies `nodes, `recycleBin, `nodeStack, `home, `chains, `path, `top
      ensures Pushing(old(path), old(top), key, |key|)
    {
      hide StoreOk, Distinct, TableOk, Used, CountStarts, Open, OlderOk, PathAt, Size, PathOk, Bytes, Lookup, Leaf,
        IsText, AllUsed;
      ghost var base, older := path, top;
      var i := keyPos;
      while i < |key|
        invariant Pushing(base, older, key, i)
      {
        PushByte(base, older, key, i);
        i := i + 1;
      }
    }

    /** The value of a key whose bytes are all there. */
    method PushValue(key: Key, value: nat, ghost base: seq<Level>, ghost older: seq<Cell>)
      requires IsText(key) && value < 0x8000_0000 && |base| < |key| && Pushing(base, older, key, |key|)
      requires Bytes(base) == key[..|base|] && Lang'(cells, base, older) == lang
      requires forall j :: 0 <= j < |older| ==> older[j].byte < key[|base|]
      modifies `nodes, `recycleBin, `nodeStack, `home, `chains, `top, `spent, `last, `lang
      ensures Building() && lang == Added(old(lang), key, value) && last == key && spent == old(spent) + |key| + 1
    {
      hide StoreInv, Open, OlderOk, PathAt, Size, PathOk, Bytes, Lookup, Leaf, Added, Lang', IsText, AllUsed;
      LeafUses(cells, path, Leaf(value));
      var id := PushEnd(value);
      BytesOfPathAt(base, older, key);
      BranchLang(cells, base, older, key, value);
      LeafSize(value);
      spent := spent + |key| + 1;
      last := key;
      lang := Added(lang, key, value);
    }

    /** The second loop of `insert` and the value. */
    method PushKey(key: Key, keyPos: nat, value: nat)
      requires StatesOk() && |nodes| > 0 && nodes[0].byte == 255 && IsText(key) && value < 0x8000_0000
      requires Open(nodes, nodeStack, recycleBin, path, top, chains, home)
      requires |path| == keyPos < |key| && Bytes(path) == key[..keyPos] && OlderOk(cells, top)
      requires forall j :: 0 <= j < |top| ==> top[j].byte < key[keyPos]
      requires forall j :: 0 <= j < |path| ==> !path[j].sib
      requires Lang'(cells, path, top) == lang && |cells| + Size(path) + |top| <= spent + 1 && AllUsed(cells, path, top)
      modifies `nodes, `recycleBin, `nodeStack, `home, `chains, `path, `top, `spent, `last, `lang
      ensures Building() && lang == Added(old(lang), key, value) && last == key && spent == old(spent) + |key| + 1
    {
      hide StoreInv, Open, OlderOk, PathAt, Size, PathOk, Bytes, Lookup, Added, Lang', IsText, Building, AllUsed;
      PathAtStart(path, top, key);
      PushBytes(key, keyPos);
      PushValue(key, value, old(path), old(top));
    }

    ghost method Spend(n: nat)
      requires Building()
      modifies `spent
      ensures Building() && spent == old(spent) + n
    {
      hide StoreInv, PathOk, Open, Leaf, Lang', IsText, Bytes, AllUsed;
      spent := spent + n;
    }

    /** Whether `insert` notices that a key holds a NUL: its part in front of the NUL must not lead
        away from the last key before. */
    ghost predicate Noticed(key: Key)
      reads this
    {
      IsText(key) || (last != [] && !Less(last, Cut(key)))
    }

    /** `insert`: keys come in increasing order; a repeated key keeps its first value. */
    method Insert(key: seq<nat>, value: int) returns (result: Inserted)
      requires Building() && IsBytes(key) && -0x8000_0000 <= value < 0x8000_0000
      requires spent + |key| + 2 < MAX_UNITS && (value < 0 || Noticed(key))
      modifies this, isIntersections
      ensures Building()
      ensures result == if value < 0 then NegativeValue else if key == [] then ZeroLength
                        else if old(last) != [] && !IsText(key) && Cut(key) <= old(last) then NulInKey
                        else if old(last) != [] && Less(key, old(last)) then WrongOrder else Done
      ensures result == Done ==>
        IsText(key) && lang == Added(old(lang), key, value) && last == key
        && spent == old(spent) + |key| + 1
      ensures result != Done ==> lang == old(lang) && last == old(last) && spent == old(spent)
    {
      hide StoreOk, Distinct, TableOk, Used, CountStarts, Open, OlderOk, Size, PathOk, Bytes, Leaf, Added, Lang',
        IsText, Less, Closed, LevelOk, AllUsed, IsBytes, Cut;
      if value < 0 {
        return NegativeValue;
      } else if key == [] {
        return ZeroLength;
      }
      var branch, keyPos, childId := Walk(key);
      LessIrreflexive(key);
      CutIsText(key);
      LastIsText();
      match branch {
        case NulFound =>
          return NulInKey;
        case Smaller =>
          CutOrder(key, last);
          return WrongOrder;
        case Same =>
          LastIsStored(cells, path, top, lang, last, value);
          Spend(|key| + 1);
          return Done;
        case AtRoot =>
          RootPath(path);
          NoOlder(cells);
        case Larger =>
          NotBoth(key, last);
          Leave(key, keyPos, childId);
          LastIsGreatest(cells, top);
      }
      PushKey(key, keyPos, value);
      return Done;
    }

    lemma LastIsText()
      requires Building()
      ensures IsText(last) && IsBytes(last) && Cut(last) == last
    {
      hide StatesOk, Lang', Bytes, Open, AllUsed;
      CutIsText(last);
    }

    lemma StackSize()
      requires Building()
      ensures |nodeStack| > 0 && (|nodeStack| == 1 <==> last == [])
      ensures last == [] ==> path == [] && top == [] && |nodes| > 0 && nodes[0].child == 0
    {
      hide StatesOk, Lang', IsText, Bytes, AllUsed;
      BytesSize(path);
      if last == [] {
        EmptyRoot(nodes, nodeStack, recycleBin, path, top, chains, home);
      } else {
        ClosedParts();
      }
    }

    /** `finish`: freezes everything that is still open and makes the vector of shared states
        ready for ranking.  When no key was added there is nothing to flush but the root. */
    method Finish()
      requires Building() && spent + 1 < MAX_UNITS
      modifies this, isIntersections
      ensures Finished() && Distinct(cells)
      ensures old(last) == [] ==> cells[0].Child() == 0 && old(lang) == imap[] && Stateless(cells)
      ensures old(last) != [] ==>
        && IsStart(cells, cells[0].Child()) && LangAt(cells, cells[0].Child()) == old(lang)
        && UsedBelow(cells, cells[0].Child())
    {
      hide StoreOk, Distinct, TableOk, Used, CountStarts, PathOk, GroupOk, OlderOk, Lang', LangAt, IsStart, Open,
        IsText, Bytes, Leaf, Size, Lookup, Frozen, AllUsed, UsedBelow, Stateless;
      StackSize();
      if |nodeStack| == 1 {
        EmptyLang(cells);
        NoUse(cells);
        nodeStack := [];
      } else {
        LeafGroup(cells, top);
        ClosedParts();
        assert path[..|path|] == path;
        Flush(0, -1, lang);
      }
      RootCell(cells, Frozen(nodes[0]));
      RootUses(cells, Frozen(nodes[0]), nodes[0].child);
      FrozenRootChild(nodes[0]);
      StoreSize(cells);
      cells := cells[0 := Frozen(nodes[0])];
      nodes, table, nodeStack, recycleBin := [], [], [], [];
      isIntersections.Build();
    }
  }

  /** Cell 0 does not belong to any state. */
  lemma {:induction false} GroupSkipsRoot(cells: Cells, c: Cell, s: nat)
    requires 0 < s && |cells| > 0
    ensures Group(cells[0 := c], s) == Group(cells, s)
    decreases |cells| - s
  {
    if s < |cells| && cells[s].HasSibling() { GroupSkipsRoot(cells, c, s + 1); }
  }

  lemma {:induction false} LookupSkipsRoot(cells: Cells, c: Cell, s: nat, g: seq<Cell>, k: Key)
    requires StoreOk(cells) && GroupOk(cells, s, g)
    ensures LookupIn(cells[0 := c], g, k) == LookupIn(cells, g, k)
    decreases |k|
  {
    hide StoreOk;
    StoreSize(cells);
    if k != [] {
      var i := Find(g, k[0]);
      if k[0] != 0 && i < |g| {
        var child := g[i].Child();
        StartGroup(cells, child);
        GroupSkipsRoot(cells, c, child);
        LookupSkipsRoot(cells, c, child, Group(cells, child), k[1..]);
      }
    }
  }

  lemma RootCell(cells: Cells, c: Cell)
    requires StoreOk(cells) && Distinct(cells)
    ensures |cells| > 0 && StoreOk(cells[0 := c]) && Distinct(cells[0 := c])
    ensures forall s :: IsStart(cells[0 := c], s) <==> IsStart(cells, s)
    ensures forall s: nat :: IsStart(cells, s) ==> LangAt(cells[0 := c], s) == LangAt(cells, s)
  {
    hide GroupOk, Group, LangAt;
    var cells' := cells[0 := c];
    forall s ensures IsStart(cells', s) <==> IsStart(cells, s) {
    }
    forall s | IsStart(cells, s) ensures Group(cells', s) == Group(cells, s) {
      GroupSkipsRoot(cells, c, s);
    }
    forall s | IsStart(cells, s) ensures GroupOk(cells', s, Group(cells, s)) {
      GroupOkSkipsRoot(cells, c, s, Group(cells, s));
    }
    forall s: nat | IsStart(cells, s) ensures LangAt(cells', s) == LangAt(cells, s) {
      LangSkipsRoot(cells, c, s);
    }
  }

  lemma RootUses(cells: Cells, c: Cell, root: nat)
    requires |cells| > 0
    ensures UsedBelow(cells, root) ==> UsedBelow(cells[0 := c], root)
    ensures Stateless(cells) ==> Stateless(cells[0 := c])
  {
    hide Group, LeadsTo;
    var cells' := cells[0 := c];
    forall s: nat | LedByState(cells, s) ensures LedByState(cells', s) {
      var t: nat :| IsStart(cells, t) && LeadsTo(Group(cells, t), s);
      GroupSkipsRoot(cells, c, t);
      assert IsStart(cells', t);
    }
    if Stateless(cells) {
      forall s: nat ensures !IsStart(cells', s) { assert !IsStart(cells, s); }
    }
  }

  lemma GroupOkSkipsRoot(cells: Cells, c: Cell, s: nat, g: seq<Cell>)
    requires |cells| > 0 && GroupOk(cells, s, g)
    ensures GroupOk(cells[0 := c], s, g)
  {
    hide Ascending;
  }

  lemma LangSkipsRoot(cells: Cells, c: Cell, s: nat)
    requires StoreOk(cells) && IsStart(cells, s)
    ensures |cells| > 0 && LangAt(cells[0 := c], s) == LangAt(cells, s)
  {
    hide GroupOk, Group, LookupIn;
    GroupSkipsRoot(cells, c, s);
    forall k: Key ensures LookupAt(cells[0 := c], s, k) == LookupAt(cells, s, k) {
      LookupSkipsRoot(cells, c, s, Group(cells, s), k);
    }
  }

  lemma FrozenRootChild(n: Node)
    requires n.byte == 255
    ensures Frozen(n).Child() == n.child
  {
  }

  lemma LeafGroup(cells: Cells, top: seq<Cell>)
    requires exists v: nat :: v < 0x8000_0000 && top == Leaf(v)
    ensures GroupOk(cells, |cells|, top)
  {
    hide GroupOk;
    var v: nat :| v < 0x8000_0000 && top == Leaf(v);
    LeafOk(cells, v);
  }

  /** The stack holds the last node of every level. */
  lemma HeadOnStack(nodes: seq<Node>, stack: seq<nat>, bin: seq<nat>, path: seq<Level>, top: seq<Cell>,
                    chains: seq<seq<nat>>, home: map<nat, (nat, nat)>, i: nat)
    requires Open(nodes, stack, bin, path, top, chains, home) && i <= |path| && top != []
    ensures |stack| == |path| + 1 == |chains| && 0 < Last(chains[i]) < |nodes|
    ensures i < |path| ==> stack[i + 1] == Last(chains[i])
  {
    hide Placed, BinOk;
    if i < |path| {
      assert HeadIs(nodes, chains[i], path[i]);
    } else {
      ChainEnd(nodes, chains[i], top);
    }
  }

  lemma PathAtStart(base: seq<Level>, older: seq<Cell>, key: Key)
    requires |base| <= |key|
    ensures PathAt(base, older, key, |base|) == base
  {
  }

  lemma LeafSize(value: nat)
    ensures |Leaf(value)| == 1
  {
  }

  lemma PathMore(cells: Cells, path: seq<Level>, l: Level, older: seq<Cell>, key: Key, i: nat, p: nat)
    requires PathOk(cells, path) && OlderOk(cells, older) && IsText(key) && p <= i < |key|
    requires l == Level(if i == p then older else [], key[i], false)
    requires forall j :: 0 <= j < |older| ==> older[j].byte < key[p]
    ensures PathOk(cells, path + [l])
  {
    hide OlderOk;
    NoOlder(cells);
    assert LevelOk(cells, l);
  }

  lemma NoOlder(cells: Cells)
    ensures OlderOk(cells, [])
  {
  }

  lemma RootPath(path: seq<Level>)
    requires Bytes(path) == []
    ensures path == []
  {
    BytesSize(path);
  }

  lemma NotBoth(a: Key, b: Key)
    requires Less(b, a)
    ensures !Less(a, b) && a != b
  {
    LessAsymmetric(b, a);
    LessIrreflexive(a);
  }

  lemma LastIsGreatest(cells: Cells, g: seq<Cell>)
    requires OlderOk(cells, g) && g != []
    ensures forall j :: 0 <= j < |g| ==> g[j].byte <= g[|g| - 1].byte
  {
  }

  /** The last key is stored. */
  lemma LastIsStored(cells: Cells, path: seq<Level>, top: seq<Cell>, lang: Lang, last: Key, value: nat)
    requires lang == Lang'(cells, path, top) && Bytes(path) == last
    requires exists v: nat :: v < 0x8000_0000 && top == Leaf(v)
    ensures Added(lang, last, value) == lang
  {
    var v: nat :| v < 0x8000_0000 && top == Leaf(v);
    PathLeaf(cells, path, v);
    assert last in lang;
  }

  lemma {:induction false} PathLeaf(cells: Cells, path: seq<Level>, v: nat)
    ensures Lookup(cells, path, Leaf(v), Bytes(path)) == Some(v)
    decreases path
  {
    if path != [] { PathLeaf(cells, path[1..], v); }
  }

  lemma PathAndTop(cells: Cells, path: seq<Level>, top: seq<Cell>, last: Key)
    requires StoreOk(cells) && PathOk(cells, path) && (exists v: nat :: v < 0x8000_0000 && top == Leaf(v))
    ensures GroupOk(cells, |cells|, top) && |top| == 1 && top[0].byte == 0
  {
    hide StoreOk, GroupOk;
    var v: nat :| v < 0x8000_0000 && top == Leaf(v);
    LeafOk(cells, v);
  }

  lemma MarkedPath(cells: Cells, path: seq<Level>, top: seq<Cell>, p: nat)
    requires PathOk(cells, path) && p < |path|
    ensures var path' := path[p := path[p].(sib := true)];
      && PathOk(cells, path') && Lang'(cells, path', top) == Lang'(cells, path, top) && Bytes(path') == Bytes(path)
      && Size(path') == Size(path)
  {
    hide OlderOk, Lookup, Bytes, Size;
    var path' := path[p := path[p].(sib := true)];
    forall k: Key ensures Lookup(cells, path', top, k) == Lookup(cells, path, top, k) {
      MarkedLookup(cells, path, top, p, k);
    }
    BytesSize(path);
    BytesSize(path');
    forall i | 0 <= i < |path| ensures Bytes(path')[i] == Bytes(path)[i] {
      BytesAt(path, i);
      BytesAt(path', i);
    }
    SameSizes(path, path');
  }

  lemma {:induction false} SameSizes(a: seq<Level>, b: seq<Level>)
    requires |a| == |b| && forall i :: 0 <= i < |a| ==> a[i].older == b[i].older
    ensures Size(a) == Size(b)
  {
    if a != [] { SameSizes(a[..|a| - 1], b[..|b| - 1]); }
  }

  lemma MarkedTop(cells: Cells, path: seq<Level>, top: seq<Cell>)
    requires GroupOk(cells, |cells|, top) && |top| == 1
    ensures OlderOk(cells, WithSibling(top)) && |WithSibling(top)| == 1 && WithSibling(top)[0].byte == top[0].byte
    ensures Lang'(cells, path, WithSibling(top)) == Lang'(cells, path, top)
  {
    hide GroupOk, OlderOk, LookupIn, Lookup, WithSibling;
    WithSiblingOk(cells, top);
    forall q: Key ensures LookupIn(cells, WithSibling(top), q) == LookupIn(cells, top, q) {
      WithSiblingLookup(cells, top, q);
    }
    forall k: Key ensures Lookup(cells, path, WithSibling(top), k) == Lookup(cells, path, top, k) {
      PathLookupSame(cells, path, WithSibling(top), top, k);
    }
  }

  lemma NoStates(cells: Cells)
    requires cells == [Cell(0, 0)]
    ensures StoreOk(cells) && Distinct(cells) && forall s: nat :: !IsStart(cells, s)
    ensures CountStarts(cells, 1) == 0
  {
    assert CountStarts(cells, 1) == CountStarts(cells, 0);
  }

  lemma InitialTable(cells: Cells, table: seq<nat>)
    requires cells == [Cell(0, 0)] && |table| == INITIAL_TABLE_SIZE && forall i :: 0 <= i < |table| ==> table[i] == 0
    ensures StoreOk(cells) && Distinct(cells) && TableOk(cells, table, map[], |cells|)
    ensures Used(table) == CountStarts(cells, |cells|) == 0
  {
    hide Used, CountStarts, Stored;
    EmptyTable(cells, |table|, table);
    NoStates(cells);
  }

  lemma InitialOpen(nodes: seq<Node>)
    requires |nodes| == 1 && nodes[0].child == 0
    ensures Open(nodes, [0], [], [], [], [[]], map[])
  {
  }

  lemma EmptyLang(cells: Cells)
    ensures Lang'(cells, [], []) == imap[]
  {
    forall k: Key ensures Lookup(cells, [], [], k) == None {
    }
  }

  lemma EmptyRoot(nodes: seq<Node>, stack: seq<nat>, bin: seq<nat>, path: seq<Level>, top: seq<Cell>,
                  chains: seq<seq<nat>>, home: map<nat, (nat, nat)>)
    requires Open(nodes, stack, bin, path, top, chains, home) && path == [] && top == []
    ensures |nodes| > 0 && nodes[0].child == 0 && stack == [0]
  {
  }

  /** As long as a key agrees with the last one it has no NUL. */
  lemma CutAgrees(key: Key, last: Key, i: nat)
    requires IsBytes(key) && IsText(last) && i <= |key| && i <= |last| && key[..i] == last[..i]
    ensures IsText(Cut(key)) && i <= |Cut(key)| && Cut(key)[..i] == last[..i] && ByteAt(Cut(key), i) == ByteAt(key, i)
  {
    CutIsText(key);
    assert forall j :: 0 <= j < i ==> key[j] == key[..i][j] == last[j] != 0;
  }

  lemma NulHere(key: Key, last: Key, i: nat)
    requires i < |key| && i <= |last| && key[..i] == last[..i] && key[i] == 0 && i <= |Cut(key)|
    ensures !IsText(key) && Cut(key) <= last
  {
    hide Cut;
    assert forall j :: 0 <= j < |Cut(key)| ==> key[j] == Cut(key)[j] != 0;
    assert Cut(key) == key[..i];
  }

  lemma NotInFront(key: Key, last: Key, i: nat)
    requires IsBytes(key) && !IsText(key) && i <= |key| && i <= |last| && i <= |Cut(key)|
    requires ByteAt(key, i) < ByteAt(last, i) && (i < |key| ==> key[i] != 0)
    ensures !(Cut(key) <= last)
  {
    hide Cut, IsText;
    CutIsText(key);
    assert forall j :: 0 <= j < |Cut(key)| ==> key[j] == Cut(key)[j] != 0;
  }

  /** Keys that agree up to and including `i`. */
  lemma SameByte(key: Key, last: Key, i: nat)
    requires IsText(last) && i <= |key| && i <= |last| && key[..i] == last[..i] && (i < |key| ==> key[i] != 0)
    requires ByteAt(key, i) == ByteAt(last, i)
    ensures if i == |key| then key == last else i < |last| && key[..i + 1] == last[..i + 1]
  {
    if i < |key| && i < |last| {
      assert key[..i + 1] == key[..i] + [key[i]] && last[..i + 1] == last[..i] + [last[i]];
    } else {
      assert key[..i] == key || i < |key|;
      assert last[..i] == last || i < |last|;
    }
  }

  lemma OpenAfterTake(nodes: seq<Node>, stack: seq<nat>, bin: seq<nat>, path: seq<Level>, top: seq<Cell>,
                      chains: seq<seq<nat>>, home: map<nat, (nat, nat)>)
    requires Open(nodes, stack, bin, path, top, chains, home) && |nodes| > 0
    requires forall i :: 0 <= i < |bin| ==> bin[i] < |nodes|
    ensures var (nodes', bin', id) := Take(nodes, bin);
      Open(nodes', stack, bin', path, top, chains, home) && 0 < id < |nodes'| && id !in home && id !in bin'
  {
    hide Pointers, Placed, HeadIs, ChainIs, Take;
    TakeFresh(nodes, bin, home);
    var (nodes', bin', id) := Take(nodes, bin);
    WriteOutside(nodes, nodes', stack, bin, path, top, chains, home, id);
  }

  lemma RootLang(cells: Cells, top: seq<Cell>)
    ensures Lang'(cells, [], top) == LangIn(cells, top)
  {
    hide LookupIn;
  }

  lemma SizeOfPrefix(path: seq<Level>, k: nat)
    requires 0 < k <= |path|
    ensures Size(path[..k]) == Size(path[..k - 1]) + |path[k - 1].older| + 1
  {
    assert path[..k][..k - 1] == path[..k - 1] && path[..k][k - 1] == path[k - 1];
  }

  lemma StackDistinct(nodes: seq<Node>, stack: seq<nat>, id: nat, bin: seq<nat>, path: seq<Level>, top: seq<Cell>,
                      chains: seq<seq<nat>>, home: map<nat, (nat, nat)>)
    requires Open(nodes, stack, bin, path, top, chains, home) && top != [] && id == Last(chains[|path|])
    ensures forall i, j :: 0 <= i < j < |stack + [id]| ==> (stack + [id])[i] != (stack + [id])[j]
  {
    hide HeadIs, BinOk;
    ChainEnd(nodes, chains[|path|], top);
    var s := stack + [id];
    forall i | 0 <= i < |s| ensures if i == 0 then s[i] == 0 else s[i] in home && home[s[i]].0 == i - 1 {
      if i < |stack| { StackPlaces(nodes, stack, chains, home, i); }
    }
  }

  lemma TopChain(nodes: seq<Node>, stack: seq<nat>, bin: seq<nat>, path: seq<Level>, top: seq<Cell>,
                 chains: seq<seq<nat>>, home: map<nat, (nat, nat)>)
    requires Open(nodes, stack, bin, path, top, chains, home)
    ensures ChainIs(nodes, chains[|path|], top)
  {
    hide HeadIs, ChainIs, Placed, BinOk, Pointers;
  }

  lemma StackBottom(nodes: seq<Node>, stack: seq<nat>, bin: seq<nat>, path: seq<Level>, top: seq<Cell>,
                    chains: seq<seq<nat>>, home: map<nat, (nat, nat)>)
    requires Open(nodes, stack, bin, path, top, chains, home) && path != []
    ensures stack[|path|] != 0
  {
    hide HeadIs, ChainIs, BinOk, Last;
    StackPlaces(nodes, stack, chains, home, |path|);
  }

  lemma StoreFacts(b: DawgBuilder, path: seq<Level>)
    requires b.StoreInv() && PathOk(b.cells, path)
    ensures StoreOk(b.cells) && forall i :: 0 <= i < |path| ==> LevelOk(b.cells, path[i]) && path[i].byte != 0
  {
    hide StoreOk, Distinct, TableOk, Used, CountStarts, OlderOk;
  }

  lemma LastLevel(cells: Cells, path: seq<Level>, n: nat)
    requires PathOk(cells, path) && n < |path|
    ensures LevelOk(cells, path[n]) && path[n].byte != 0
  {
    hide OlderOk;
  }

  lemma PathPrefix(cells: Cells, path: seq<Level>, n: nat)
    requires PathOk(cells, path) && n <= |path|
    ensures PathOk(cells, path[..n])
  {
    hide LevelOk;
  }

  /** The open part after its last level is finished by the state `m`. */
  lemma CloseStep(nodes: seq<Node>, stack: seq<nat>, bin: seq<nat>, path: seq<Level>, top: seq<Cell>,
                  chains: seq<seq<nat>>, home: map<nat, (nat, nat)>, cells0: Cells, cells: Cells, m: nat)
    requires Open(nodes, stack, bin, path, top, chains, home) && path != []
    requires StoreOk(cells0) && GroupOk(cells0, |cells0|, top) && PathOk(cells0, path) && PathOk(cells, path)
    requires cells == cells0 || cells == cells0 + top
    requires IsStart(cells, m) && Group(cells, m) == top
    ensures var n := |path| - 1; var l := path[n];
      && |stack| == n + 2 && |chains| == n + 2 && stack[n + 1] == Last(chains[n]) < |nodes| && stack[n + 1] != 0
      && Open(WithChild(nodes, stack[n + 1], m), stack[..n + 1], bin + Freed(chains[n + 1], |chains[n + 1]|), path[..n],
              Close(l, m), chains[..n + 1], Forget(home, chains[n + 1]))
      && LevelOk(cells, l) && PathOk(cells, path[..n]) && Close(l, m) != []
      && Lang'(cells, path[..n], Close(l, m)) == Lang'(cells0, path, top)
  {
    hide Group, StoreOk, IsStart, PathOk, GroupOk, Open, Close, Lang', LevelOk, Last, Freed, Forget, Frozen;
    var n := |path| - 1;
    var l := path[n];
    assert path == path[..n] + [l];
    LastLevel(cells, path, n);
    OpenParts(nodes, stack, bin, path, top, chains, home);
    CloseKeeps(nodes, stack, bin, path[..n], l, top, chains, home, m);
    FrozenLang(cells0, cells, path[..n], l, top, m);
    PathPrefix(cells, path, n);
    StackBottom(nodes, stack, bin, path, top, chains, home);
    CloseParts(l, m);
  }

  /** Freezing a group does not change the language of the open path. */
  lemma FrozenLang(cells0: Cells, cells: Cells, path: seq<Level>, l: Level, g: seq<Cell>, m: nat)
    requires StoreOk(cells0) && GroupOk(cells0, |cells0|, g) && PathOk(cells0, path + [l])
    requires cells == cells0 || cells == cells0 + g
    requires IsStart(cells, m) && Group(cells, m) == g && LevelOk(cells, l)
    ensures Lang'(cells, path, Close(l, m)) == Lang'(cells0, path + [l], g)
  {
    hide Group, StoreOk, PathOk, GroupOk, Close, LevelOk, Lookup;
    GroupLeads(cells0, |cells0|, g);
    forall k: Key ensures Lookup(cells, path, Close(l, m), k) == Lookup(cells0, path + [l], g, k) {
      FreezeLookup(cells, path, l, m, g, k);
      if cells != cells0 { PathLookupKept(cells0, g, path + [l], g, k); }
    }
  }

  lemma FrozenRoot(cells0: Cells, cells: Cells, g: seq<Cell>, m: nat)
    requires StoreOk(cells0) && GroupOk(cells0, |cells0|, g)
    requires cells == cells0 || cells == cells0 + g
    requires IsStart(cells, m) && Group(cells, m) == g
    ensures LangAt(cells, m) == LangIn(cells0, g)
  {
    hide Group, StoreOk, GroupOk, LookupIn;
    forall k: Key ensures LookupAt(cells, m, k) == LookupIn(cells0, g, k) {
      if cells != cells0 { LookupKept(cells0, g, |cells0|, g, k); }
    }
  }

  lemma InsideStore(cells: Cells, s: nat)
    requires IsStart(cells, s)
    ensures s < |cells|
  {
  }

  /** A new state joins the store and the table. */
  lemma NewState(cells: Cells, table: seq<nat>, probes: map<nat, nat>, g: seq<Cell>, d: nat, hashId: nat)
    requires StoreOk(cells) && Distinct(cells) && TableOk(cells, table, probes, |cells|) && GroupOk(cells, |cells|, g)
    requires Used(table) == CountStarts(cells, |cells|)
    requires forall s :: IsStart(cells, s) ==> Group(cells, s) != g
    requires d < |table| && hashId == Probe(Home(g, |table|), d, |table|) && table[hashId] == 0
      && Busy(table, Home(g, |table|), d)
    ensures var cells', s := cells + g, |cells|;
      && StoreOk(cells') && Distinct(cells') && IsStart(cells', s) && Group(cells', s) == g
      && TableOk(cells', table[hashId := s], probes[s := d], |cells'|)
      && Used(table[hashId := s]) == CountStarts(cells', |cells'|) == Used(table) + 1
  {
    hide Group, StoreOk, Distinct, Used, Probe, CountStarts, TableOk, Busy, Home, GroupOk, IsStart;
    var cells', s := cells + g, |cells|;
    GroupFlags(cells, |cells|, g);
    AppendState(cells, g);
    DistinctMore(cells, g);
    TableKept(cells, g, table, probes);
    CountKept(cells, g, |cells'|);
    OnlyNewStart(cells, g);
    StoreSize(cells);
    InsideStore(cells', s);
    StoreOne(cells', table, probes, |cells|, s, d, hashId);
    UsedSet(table, hashId, s);
    MoreBound(cells', table[hashId := s], probes[s := d], s + 1);
  }

  lemma OnlyNewStart(cells: Cells, g: seq<Cell>)
    requires StoreOk(cells) && GroupOk(cells, |cells|, g)
    ensures forall t: nat :: IsStart(cells + g, t) ==> t <= |cells|
  {
    hide GroupOk, StoreOk, IsStart;
    GroupFlags(cells, |cells|, g);
    forall t: nat | IsStart(cells + g, t) ensures t <= |cells| {
      StartsKept(cells, g, t);
      NoStartOutside(cells, t);
    }
  }

  /** The bound of a table may be raised while no state starts in between. */
  lemma MoreBound(cells: Cells, table: seq<nat>, probes: map<nat, nat>, bound: nat)
    requires TableOk(cells, table, probes, bound) && bound <= |cells|
    requires forall t: nat :: IsStart(cells, t) ==> t < bound
    ensures TableOk(cells, table, probes, |cells|)
  {
    hide IsStart, Stored;
  }

  lemma StoreSize(cells: Cells)
    requires StoreOk(cells)
    ensures |cells| >= 1
  {
  }

  /** Storing the state that starts at `id`. */
  lemma StoreNext(cells: Cells, table: seq<nat>, probes: map<nat, nat>, id: nat, d: nat, hashId: nat)
    requires TableOk(cells, table, probes, id) && Used(table) == CountStarts(cells, id) && IsStart(cells, id)
    requires var g := Group(cells, id);
      d < |table| && hashId == Probe(Home(g, |table|), d, |table|) && table[hashId] == 0
      && Busy(table, Home(g, |table|), d)
    ensures TableOk(cells, table[hashId := id], probes[id := d], id + 1)
    ensures Used(table[hashId := id]) == CountStarts(cells, id + 1)
  {
    hide Group, Probe, Home, Used, TableOk, Busy;
    StoreOne(cells, table, probes, id, id, d, hashId);
    UsedSet(table, hashId, id);
  }

  lemma FirstProbe(g: seq<Cell>, n: nat)
    requires n > 0
    ensures Hash(g) % n == Home(g, n) == Probe(Home(g, n), 0, n)
  {
    hide Hash;
  }

  lemma NotInTable(cells: Cells, table: seq<nat>, probes: map<nat, nat>, g: seq<Cell>, d: nat, s: nat)
    requires TableOk(cells, table, probes, |cells|) && d < |table| && IsStart(cells, s)
    requires table[Probe(Home(g, |table|), d, |table|)] == 0
    requires forall e :: 0 <= e < d ==> Group(cells, table[Probe(Home(g, |table|), e, |table|)]) != g
    ensures Group(cells, s) != g
  {
    hide Probe, Home, Group, Stored;
    if Group(cells, s) == g {
      NotFound(cells, table, probes, |cells|, g, d, s);
    }
  }

  /** The node in front of position `j` of a chain. */
  lemma ChainNode(nodes: seq<Node>, ids: seq<nat>, g: seq<Cell>, j: nat)
    requires ChainIs(nodes, ids, g) && j <= |ids| && Before(ids, j) != 0
    ensures var id := Before(ids, j);
      && 0 < j && id < |nodes| && |ids| == |g| && id == ids[j - 1]
      && Frozen(nodes[id]) == g[j - 1] && nodes[id].sibling == Before(ids, j - 1)
  {
    hide Frozen;
  }

  lemma StartCell(cells: Cells, s: nat, t: nat)
    requires StoreOk(cells) && IsStart(cells, s) && t < |Group(cells, s)|
    ensures s > 0 && s + t < |cells| && cells[s + t] == Group(cells, s)[t]
    ensures cells[s + t].HasSibling() <==> t + 1 < |Group(cells, s)|
  {
    hide Group;
    StartGroup(cells, s);
    assert cells[s..s + |Group(cells, s)|][t] == cells[s + t];
  }

  lemma ChainStart(nodes: seq<Node>, ids: seq<nat>, g: seq<Cell>, j: nat)
    requires ChainIs(nodes, ids, g) && j <= |ids| && Before(ids, j) == 0
    ensures j == 0
  {
  }

  lemma ChainLast(nodes: seq<Node>, ids: seq<nat>, g: seq<Cell>)
    requires ChainIs(nodes, ids, g) && g != []
    ensures |ids| == |g| && Last(ids) == ids[|ids| - 1] == Before(ids, |ids|) && 0 < Last(ids) < |nodes|
  {
  }

  lemma StartGroup(cells: Cells, s: nat)
    requires StoreOk(cells) && IsStart(cells, s)
    ensures var g := Group(cells, s);
      && s > 0 && g != [] && GroupOk(cells, s, g) && s + |g| <= |cells| && cells[s..s + |g|] == g
      && forall j :: 0 <= j < |g| ==> (g[j].HasSibling() <==> j + 1 < |g|)
  {
    hide Group;
    GroupFlags(cells, s, Group(cells, s));
    GroupSpan(cells, s);
  }
}
