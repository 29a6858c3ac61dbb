/** The frozen part of the word graph.

    A state is a run of consecutive units, one per edge, in the order of their labels.  The
    words and the labels always grow together and are kept as one sequence of cells; cell 0 is
    the edge into the root. */
module DawgStore {
  import opened Wrappers
  import opened Language

  datatype Cell = Cell(word: nat, byte: nat) {
    function Child(): nat { word / 4 }
    function Value(): nat { word / 2 }
    predicate HasSibling() { word % 2 == 1 }
    predicate IsState() { word / 2 % 2 == 1 }
  }

  type Cells = seq<Cell>

  /** The edges of the state that starts at `s`. */
  function Group(cells: Cells, s: nat): (g: seq<Cell>)
    decreases |cells| - s
  {
    if s >= |cells| then []
    else if cells[s].HasSibling() then [cells[s]] + Group(cells, s + 1)
    else [cells[s]]
  }

  /** Position of the edge for `c`, or the number of edges. */
  function Find(g: seq<Cell>, c: nat): (i: nat)
    ensures i <= |g| && (i < |g| ==> g[i].byte == c) && forall j :: 0 <= j < i ==> g[j].byte != c
  {
    if g == [] then 0 else if g[0].byte == c then 0 else 1 + Find(g[1..], c)
  }

  /** The value of `k` in a state with the edges `g`. */
  function LookupIn(cells: Cells, g: seq<Cell>, k: Key): Option<nat>
    decreases |k|, 0
  {
    if k == [] then
      var i := Find(g, 0);
      if i < |g| then Some(g[i].Value()) else None
    else
      var i := Find(g, k[0]);
      if k[0] == 0 || i == |g| then None else LookupAt(cells, g[i].Child(), k[1..])
  }

  function LookupAt(cells: Cells, s: nat, k: Key): Option<nat>
    decreases |k|, 1
  {
    if s == 0 then None else LookupIn(cells, Group(cells, s), k)
  }

  /** The language of a state. */
  ghost function LangIn(cells: Cells, g: seq<Cell>): Lang {
    imap k: Key | LookupIn(cells, g, k).Some? :: LookupIn(cells, g, k).value
  }

  ghost function LangAt(cells: Cells, s: nat): Lang {
    imap k: Key | LookupAt(cells, s, k).Some? :: LookupAt(cells, s, k).value
  }

  /** A state starts at `s`. */
  predicate IsStart(cells: Cells, s: nat) {
    0 < s < |cells| && (s == 1 || !cells[s - 1].HasSibling())
  }

  predicate Ascending(g: seq<Cell>) {
    forall i, j :: 0 <= i < j < |g| ==> g[i].byte < g[j].byte
  }

  /** The edges of a state that starts at `s`: they lead to earlier states, only the last one
      has no sibling, and only the first one counts as a state. */
  ghost predicate GroupOk(cells: Cells, s: nat, g: seq<Cell>) {
    && g != []
    && Ascending(g)
    && forall i :: 0 <= i < |g| ==>
         && g[i].byte < 256
         && g[i].word < 0x1_0000_0000
         && (g[i].HasSibling() <==> i + 1 < |g|)
         && (g[i].byte == 0 || g[i].IsState() <==> i == 0)
         && (g[i].byte != 0 ==> g[i].Child() < s && IsStart(cells, g[i].Child()))
  }

  ghost predicate StoreOk(cells: Cells) {
    && |cells| > 0
    && (|cells| > 1 ==> !cells[|cells| - 1].HasSibling())
    && forall s :: IsStart(cells, s) ==> GroupOk(cells, s, Group(cells, s))
  }

  /** The cells of a state lie side by side. */
  lemma {:induction false} GroupCells(cells: Cells, s: nat, j: nat)
    requires j < |Group(cells, s)|
    ensures s + j < |cells| && cells[s + j] == Group(cells, s)[j]
    ensures j + 1 < |Group(cells, s)| ==> cells[s + j].HasSibling()
    decreases j
  {
    if j > 0 { GroupCells(cells, s + 1, j - 1); }
  }

  lemma GroupSpan(cells: Cells, s: nat)
    ensures var g := Group(cells, s);
      g != [] ==> s + |g| <= |cells| && cells[s..s + |g|] == g
  {
    hide Group;
    var g := Group(cells, s);
    if g != [] {
      GroupCells(cells, s, |g| - 1);
      forall j | 0 <= j < |g| ensures s + j < |cells| && cells[s + j] == g[j] {
        GroupCells(cells, s, j);
      }
    }
  }

  // Appending a state.

  lemma {:induction false} GroupKept(cells: Cells, g: seq<Cell>, s: nat)
    requires 0 < s < |cells| && !cells[|cells| - 1].HasSibling()
    ensures Group(cells + g, s) == Group(cells, s)
    ensures s + |Group(cells, s)| <= |cells|
    decreases |cells| - s
  {
    if cells[s].HasSibling() { GroupKept(cells, g, s + 1); }
  }

  lemma {:induction false} GroupNew(cells: Cells, g: seq<Cell>, i: nat)
    requires i < |g| && forall j :: 0 <= j < |g| ==> (g[j].HasSibling() <==> j + 1 < |g|)
    ensures Group(cells + g, |cells| + i) == g[i..]
    decreases |g| - i
  {
    if i + 1 < |g| { GroupNew(cells, g, i + 1); }
  }

  lemma StartsKept(cells: Cells, g: seq<Cell>, s: nat)
    requires StoreOk(cells) && g != [] && forall j :: 0 <= j < |g| ==> (g[j].HasSibling() <==> j + 1 < |g|)
    ensures IsStart(cells + g, s) <==> IsStart(cells, s) || s == |cells|
  {
    var c := cells + g;
    if |cells| <= s < |c| && s > |cells| {
      assert c[s - 1] == g[s - 1 - |cells|];
    }
  }

  lemma GroupOkKept(cells: Cells, g: seq<Cell>, s: nat, h: seq<Cell>)
    requires StoreOk(cells) && GroupOk(cells, |cells|, g) && GroupOk(cells, s, h)
    ensures GroupOk(cells + g, s, h)
  {
    forall i | 0 <= i < |h| && h[i].byte != 0 ensures IsStart(cells + g, h[i].Child()) {
      StartsKept(cells, g, h[i].Child());
    }
  }

  /** Appending the edges of a finished state keeps the store in order. */
  lemma AppendState(cells: Cells, g: seq<Cell>)
    requires StoreOk(cells) && GroupOk(cells, |cells|, g)
    ensures StoreOk(cells + g)
    ensures IsStart(cells + g, |cells|) && Group(cells + g, |cells|) == g
    ensures forall s :: IsStart(cells, s) ==> IsStart(cells + g, s) && Group(cells + g, s) == Group(cells, s)
  {
    hide GroupOk, Group;
    GroupFlags(cells, |cells|, g);
    var c := cells + g;
    GroupNew(cells, g, 0);
    assert g[0..] == g;
    forall s ensures IsStart(c, s) <==> IsStart(cells, s) || s == |cells| {
      if s >= 0 { StartsKept(cells, g, s); }
    }
    forall s | IsStart(cells, s) ensures Group(c, s) == Group(cells, s) {
      GroupKept(cells, g, s);
    }
    forall s | IsStart(c, s) ensures GroupOk(c, s, Group(c, s)) {
      GroupOkKept(cells, g, s, Group(c, s));
    }
  }

  lemma GroupFlags(cells: Cells, s: nat, g: seq<Cell>)
    requires GroupOk(cells, s, g)
    ensures g != [] && Ascending(g) && forall j :: 0 <= j < |g| ==> (g[j].HasSibling() <==> j + 1 < |g|)
  {
  }

  /** Old states keep their language. */
  lemma {:induction false} LookupKept(cells: Cells, g: seq<Cell>, s: nat, h: seq<Cell>, k: Key)
    requires StoreOk(cells) && GroupOk(cells, |cells|, g) && GroupOk(cells, s, h)
    ensures LookupIn(cells + g, h, k) == LookupIn(cells, h, k)
    decreases |k|
  {
    if k != [] {
      var i := Find(h, k[0]);
      if k[0] != 0 && i < |h| {
        var child := h[i].Child();
        AppendState(cells, g);
        assert IsStart(cells, child);
        LookupKept(cells, g, child, Group(cells, child), k[1..]);
      }
    }
  }

  // Languages of states.

  lemma {:induction false} FindLabel(g: seq<Cell>, i: nat)
    requires Ascending(g) && i < |g|
    ensures Find(g, g[i].byte) == i
  {
  }

  /** Every state holds a key, and only text. */
  lemma {:induction false} SomeKey(cells: Cells, s: nat, g: seq<Cell>) returns (k: Key)
    requires StoreOk(cells) && GroupOk(cells, s, g)
    ensures LookupIn(cells, g, k).Some?
    decreases s
  {
    if g[0].byte == 0 {
      k := [];
    } else {
      var child := g[0].Child();
      assert IsStart(cells, child);
      var k1 := SomeKey(cells, child, Group(cells, child));
      k := [g[0].byte] + k1;
      assert k[1..] == k1;
      FindLabel(g, 0);
    }
  }

  lemma {:induction false} KeysAreText(cells: Cells, s: nat, g: seq<Cell>, k: Key)
    requires StoreOk(cells) && GroupOk(cells, s, g) && LookupIn(cells, g, k).Some?
    ensures IsText(k) && LookupIn(cells, g, k).value < 0x8000_0000
    decreases |k|
  {
    if k != [] {
      var i := Find(g, k[0]);
      var child := g[i].Child();
      assert IsStart(cells, child);
      KeysAreText(cells, child, Group(cells, child), k[1..]);
    }
  }

  /** A state is a node of the trie: its edges are those of its language. */
  lemma StateIsNode(cells: Cells, s: nat, g: seq<Cell>)
    requires StoreOk(cells) && GroupOk(cells, s, g)
    ensures IsNode(LangIn(cells, g))
    ensures forall c :: HasLabel(LangIn(cells, g), c) <==> exists i :: 0 <= i < |g| && g[i].byte == c
    ensures forall i :: 0 <= i < |g| ==> StateEdge(cells, g, i)
  {
    hide GroupOk, LookupIn, StateEdge, HasLabel;
    var k0 := SomeKey(cells, s, g);
    assert k0 in LangIn(cells, g);
    forall k: Key | k in LangIn(cells, g) ensures IsText(k) && LangIn(cells, g)[k] < 0x8000_0000 {
      KeysAreText(cells, s, g, k);
    }
    forall c ensures HasLabel(LangIn(cells, g), c) <==> exists i :: 0 <= i < |g| && g[i].byte == c {
      LabelsOfState(cells, s, g, c);
    }
    forall i | 0 <= i < |g| ensures StateEdge(cells, g, i) {
      EdgeOfState(cells, s, g, i);
    }
  }

  /** Where the `i`-th edge leads. */
  ghost predicate StateEdge(cells: Cells, g: seq<Cell>, i: nat)
    requires i < |g|
  {
    if g[i].byte == 0 then [] in LangIn(cells, g) && LangIn(cells, g)[[]] == g[i].Value()
    else After(LangIn(cells, g), g[i].byte) == LangAt(cells, g[i].Child())
  }

  lemma LookupStep(cells: Cells, g: seq<Cell>, i: nat, k: Key)
    requires Ascending(g) && i < |g|
    ensures g[i].byte == 0 ==> LookupIn(cells, g, []) == Some(g[i].Value())
    ensures g[i].byte != 0 ==> LookupIn(cells, g, [g[i].byte] + k) == LookupAt(cells, g[i].Child(), k)
  {
    FindLabel(g, i);
    var t := [g[i].byte] + k;
    assert t[0] == g[i].byte && t[1..] == k;
  }

  lemma EdgeOfState(cells: Cells, s: nat, g: seq<Cell>, i: nat)
    requires StoreOk(cells) && GroupOk(cells, s, g) && i < |g|
    ensures StateEdge(cells, g, i)
  {
    hide LookupIn, LookupAt, GroupOk, StoreOk, Ascending;
    GroupFlags(cells, s, g);
    LookupStep(cells, g, i, []);
    var c := g[i].byte;
    if c != 0 {
      forall k: Key ensures LookupIn(cells, g, [c] + k) == LookupAt(cells, g[i].Child(), k) {
        LookupStep(cells, g, i, k);
      }
      assert After(LangIn(cells, g), c) == LangAt(cells, g[i].Child());
    }
  }

  lemma LabelsOfState(cells: Cells, s: nat, g: seq<Cell>, c: nat)
    requires StoreOk(cells) && GroupOk(cells, s, g)
    ensures HasLabel(LangIn(cells, g), c) <==> exists i :: 0 <= i < |g| && g[i].byte == c
  {
    if i :| 0 <= i < |g| && g[i].byte == c {
      EdgeOfState(cells, s, g, i);
      if c != 0 {
        var child := g[i].Child();
        assert IsStart(cells, child);
        var k := SomeKey(cells, child, Group(cells, child));
        assert k in After(LangIn(cells, g), c);
      }
    }
    if HasLabel(LangIn(cells, g), c) {
      if c != 0 {
        var k: Key :| [c] + k in LangIn(cells, g);
        assert ([c] + k)[0] == c;
      }
    }
  }
}
