/** Minimality of the word graph: states that are pairwise different as groups of edges have
    pairwise different languages, all of them are reached from the root, and no graph for the
    same language has fewer states. */
module DawgMinimal {
  import opened Language
  import opened DawgStore
  import opened DawgTable
  import opened DawgReach

  /** A word is determined by what it says. */
  lemma SameWord(a: Cell, b: Cell)
    requires a.byte == b.byte && (a.HasSibling() <==> b.HasSibling())
    requires if a.byte == 0 then a.Value() == b.Value() else a.Child() == b.Child() && (a.IsState() <==> b.IsState())
    ensures a == b
  {
    if a.byte != 0 {
      assert a.word / 2 / 2 == a.word / 4 && b.word / 2 / 2 == b.word / 4;
    }
  }

  ghost predicate Carries(g: seq<Cell>, c: nat) {
    exists i :: 0 <= i < |g| && g[i].byte == c
  }

  /** Edges with the same labels come in the same order. */
  lemma {:induction false} SameLabels(g: seq<Cell>, h: seq<Cell>)
    requires Ascending(g) && Ascending(h) && forall c: nat :: Carries(g, c) <==> Carries(h, c)
    ensures |g| == |h| && forall i :: 0 <= i < |g| ==> g[i].byte == h[i].byte
  {
    if g == [] || h == [] {
      if h != [] { assert Carries(h, h[0].byte); }
      if g != [] { assert Carries(g, g[0].byte); }
    } else {
      FirstByte(g, h);
      FirstByte(h, g);
      forall c: nat ensures Carries(g[1..], c) <==> Carries(h[1..], c) {
        TailCarries(g, c);
        TailCarries(h, c);
      }
      SameLabels(g[1..], h[1..]);
      forall k | 0 <= k < |g| ensures g[k].byte == h[k].byte {
        if k > 0 { assert g[1..][k - 1].byte == h[1..][k - 1].byte; }
      }
    }
  }

  lemma FirstByte(g: seq<Cell>, h: seq<Cell>)
    requires Ascending(g) && g != [] && h != [] && forall c: nat :: Carries(h, c) ==> Carries(g, c)
    ensures g[0].byte <= h[0].byte
  {
    assert Carries(h, h[0].byte);
  }

  lemma TailCarries(g: seq<Cell>, c: nat)
    requires Ascending(g) && g != []
    ensures Carries(g[1..], c) <==> Carries(g, c) && c != g[0].byte
  {
    if Carries(g, c) && c != g[0].byte {
      var i :| 0 <= i < |g| && g[i].byte == c;
      assert g[1..][i - 1].byte == c;
    }
    if i :| 0 <= i < |g[1..]| && g[1..][i].byte == c {
      assert g[i + 1].byte == c;
    }
  }

  /** In a store without repeated groups, no two states have the same language. */
  lemma {:induction false} Minimal(cells: Cells, s: nat, t: nat)
    requires StoreOk(cells) && Distinct(cells) && IsStart(cells, s) && IsStart(cells, t)
    requires LangAt(cells, s) == LangAt(cells, t)
    ensures s == t
    decreases s + t
  {
    hide StoreOk, GroupOk, Group, LookupIn, HasLabel, IsNode, Distinct, IsStart;
    var g, h := Group(cells, s), Group(cells, t);
    StateParts(cells, s);
    StateParts(cells, t);
    SameLabels(g, h);
    forall i | 0 <= i < |g| ensures g[i] == h[i] {
      EdgeParts(cells, s, i);
      EdgeParts(cells, t, i);
      if g[i].byte != 0 {
        Minimal(cells, g[i].Child(), h[i].Child());
      }
      SameWord(g[i], h[i]);
    }
    assert g == h;
    OnlyOne(cells, s, t);
  }

  lemma OnlyOne(cells: Cells, s: nat, t: nat)
    requires Distinct(cells) && IsStart(cells, s) && IsStart(cells, t) && Group(cells, s) == Group(cells, t)
    ensures s == t
  {
    hide Group, IsStart;
  }

  lemma StateParts(cells: Cells, s: nat)
    requires StoreOk(cells) && IsStart(cells, s)
    ensures var g := Group(cells, s);
      && Ascending(g) && g != [] && LangAt(cells, s) == LangIn(cells, g)
      && forall c: nat :: HasLabel(LangAt(cells, s), c) <==> Carries(g, c)
  {
    hide Group, LookupIn, HasLabel, IsNode;
    var g := Group(cells, s);
    GroupFlags(cells, s, g);
    assert LangAt(cells, s) == LangIn(cells, g);
    forall c: nat ensures HasLabel(LangAt(cells, s), c) <==> Carries(g, c) {
      LabelsOfState(cells, s, g, c);
    }
  }

  lemma EdgeParts(cells: Cells, s: nat, i: nat)
    requires StoreOk(cells) && IsStart(cells, s) && i < |Group(cells, s)|
    ensures var g := Group(cells, s);
      && (g[i].HasSibling() <==> i + 1 < |g|)
      && (g[i].byte != 0 ==> (g[i].IsState() <==> i == 0) && g[i].Child() < s && IsStart(cells, g[i].Child()))
      && (g[i].byte != 0 ==> LangAt(cells, g[i].Child()) == After(LangAt(cells, s), g[i].byte))
      && (g[i].byte == 0 ==> [] in LangAt(cells, s) && LangAt(cells, s)[[]] == g[i].Value())
  {
    hide Group, LookupIn, HasLabel, IsNode, Ascending;
    var g := Group(cells, s);
    assert GroupOk(cells, s, g);
    assert LangAt(cells, s) == LangIn(cells, g);
    EdgeOfState(cells, s, g, i);
  }

  // States and what can follow after a text.

  /** The states of a finished graph are exactly what can follow after the texts. */
  lemma StatesAreResiduals(cells: Cells, root: nat)
    requires StoreOk(cells) && Distinct(cells) && IsStart(cells, root) && UsedBelow(cells, root)
    ensures forall s: nat :: IsStart(cells, s) ==> exists p: Key :: IsText(p) && IsAfter(cells, s, root, p)
    ensures forall p: Key :: IsText(p) && AfterAll(LangAt(cells, root), p) != imap[] ==>
              exists s: nat :: IsStart(cells, s) && IsAfter(cells, s, root, p)
    ensures forall p: Key, s: nat, t: nat ::
              IsStart(cells, s) && IsStart(cells, t) && IsAfter(cells, s, root, p) && IsAfter(cells, t, root, p)
              ==> s == t
  {
    hide StoreOk, Distinct, IsStart, UsedBelow, IsText, AfterAll, LangAt, Follow;
    forall s: nat | IsStart(cells, s) ensures exists p: Key :: IsText(p) && IsAfter(cells, s, root, p) {
      var p := AllReached(cells, root, s);
      FollowLang(cells, root, p);
      assert IsAfter(cells, s, root, p);
    }
    forall p: Key | IsText(p) && AfterAll(LangAt(cells, root), p) != imap[]
      ensures exists s: nat :: IsStart(cells, s) && IsAfter(cells, s, root, p)
    {
      FollowLang(cells, root, p);
      NoLang(cells);
      assert IsAfter(cells, Follow(cells, root, p), root, p);
    }
    forall p: Key, s: nat, t: nat
      | IsStart(cells, s) && IsStart(cells, t) && IsAfter(cells, s, root, p) && IsAfter(cells, t, root, p)
      ensures s == t
    {
      Minimal(cells, s, t);
    }
  }

  /** The language of `s` is what follows after `p` in that of `root`. */
  ghost predicate IsAfter(cells: Cells, s: nat, root: nat, p: Key) {
    LangAt(cells, s) == AfterAll(LangAt(cells, root), p)
  }

  lemma NoLang(cells: Cells)
    ensures LangAt(cells, 0) == imap[]
  {
  }

  ghost function States(cells: Cells): set<nat> {
    set s: nat | s < |cells| && IsStart(cells, s)
  }

  ghost predicate SameLang(cells: Cells, s: nat, other: Cells, t: nat) {
    LangAt(cells, s) == LangAt(other, t)
  }

  /** No graph for the same language has fewer states. */
  lemma FewestStates(cells: Cells, root: nat, other: Cells, root': nat)
    requires StoreOk(cells) && Distinct(cells) && IsStart(cells, root) && UsedBelow(cells, root)
    requires StoreOk(other) && IsStart(other, root') && SameLang(cells, root, other, root')
    ensures |States(cells)| <= |States(other)|
  {
    hide StoreOk, Distinct, IsStart, UsedBelow, IsText, AfterAll, LangAt, Follow;
    forall s: nat | IsStart(cells, s) ensures exists t: nat :: IsStart(other, t) && SameLang(cells, s, other, t) {
      var p := AllReached(cells, root, s);
      FollowLang(cells, root, p);
      FollowLang(other, root', p);
      NoLang(other);
      StateSpeaks(cells, s);
      assert SameLang(cells, s, other, Follow(other, root', p));
    }
    Injection(cells, States(cells), other, States(other)) by {
      forall s | s in States(cells) ensures exists t: nat :: t in States(other) && SameLang(cells, s, other, t) {
        var t: nat :| IsStart(other, t) && SameLang(cells, s, other, t);
        StateBounded(other, t);
        assert t in States(other);
      }
    }
  }

  lemma StateBounded(cells: Cells, s: nat)
    requires IsStart(cells, s)
    ensures s < |cells|
  {
  }

  lemma StateSpeaks(cells: Cells, s: nat)
    requires StoreOk(cells) && IsStart(cells, s)
    ensures LangAt(cells, s) != imap[]
  {
    var k := SomeKey(cells, s, Group(cells, s));
    assert k in LangAt(cells, s);
  }

  lemma {:induction false} Injection(cells: Cells, a: set<nat>, other: Cells, b: set<nat>)
    requires StoreOk(cells) && Distinct(cells) && forall s :: s in a ==> IsStart(cells, s)
    requires forall s :: s in a ==> exists t: nat :: t in b && SameLang(cells, s, other, t)
    ensures |a| <= |b|
    decreases |a|
  {
    hide StoreOk, Distinct, IsStart, LangAt;
    if s :| s in a {
      var t: nat :| t in b && SameLang(cells, s, other, t);
      forall s' | s' in a - {s} ensures exists t': nat :: t' in b - {t} && SameLang(cells, s', other, t') {
        var t': nat :| t' in b && SameLang(cells, s', other, t');
        if t' == t { Minimal(cells, s, s'); }
        assert t' in b - {t};
      }
      Injection(cells, a - {s}, other, b - {t});
    }
  }
}
