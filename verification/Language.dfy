/** Finite dictionaries and the languages of trie nodes.

    A key is a sequence of bytes.  What can still follow after a prefix of the stored keys is
    a language: a partial map from the remaining bytes to the stored value. */
module Language {
  type Key = seq<nat>

  type Lang = imap<Key, nat>

  /** The bytes of a key that can be stored: none of them is the terminator. */
  predicate IsText(k: Key) {
    forall i :: 0 <= i < |k| ==> 0 < k[i] < 256
  }

  predicate IsBytes(k: Key) {
    forall i :: 0 <= i < |k| ==> k[i] < 256
  }

  /** The part of a key in front of its first NUL. */
  function Cut(k: Key): (t: Key)
    ensures |t| <= |k| && t == k[..|t|] && forall i :: 0 <= i < |t| ==> t[i] != 0
    ensures |t| < |k| ==> k[|t|] == 0
  {
    if k == [] || k[0] == 0 then []
    else
      assert k == [k[0]] + k[1..];
      [k[0]] + Cut(k[1..])
  }

  lemma CutIsText(k: Key)
    requires IsBytes(k)
    ensures IsText(Cut(k)) && (IsText(k) <==> Cut(k) == k)
    ensures forall d :: 0 <= d <= |Cut(k)| ==> ByteAt(k, d) == ByteAt(Cut(k), d)
  {
  }

  /** What follows after `c`. */
  ghost function After(lang: Lang, c: nat): Lang {
    imap k: Key | [c] + k in lang :: lang[[c] + k]
  }

  /** What follows after `p`. */
  ghost function AfterAll(lang: Lang, p: Key): Lang {
    imap k: Key | p + k in lang :: lang[p + k]
  }

  /** The node has an edge for `c`; the edge for the terminator 0 leads to a value. */
  ghost predicate HasLabel(lang: Lang, c: nat) {
    if c == 0 then [] in lang else exists k: Key :: [c] + k in lang
  }

  /** A node of a trie: at least one key passes through it. */
  ghost predicate IsNode(lang: Lang) {
    && (exists k: Key :: k in lang)
    && forall k: Key :: k in lang ==> IsText(k) && lang[k] < 0x8000_0000
  }

  lemma AfterIsNode(lang: Lang, c: nat)
    requires IsNode(lang) && c != 0 && HasLabel(lang, c)
    ensures IsNode(After(lang, c)) && c < 256
  {
    var k: Key :| [c] + k in lang;
    assert k in After(lang, c);
    assert ([c] + k)[0] == c;
    forall j: Key | j in After(lang, c) ensures IsText(j) && After(lang, c)[j] < 0x8000_0000 {
      var t := [c] + j;
      assert t in lang;
      forall i | 0 <= i < |j| ensures 0 < j[i] < 256 {
        assert t[i + 1] == j[i];
      }
    }
  }

  lemma LabelIsByte(lang: Lang, c: nat)
    requires IsNode(lang) && HasLabel(lang, c)
    ensures c < 256
  {
    if c != 0 { AfterIsNode(lang, c); }
  }

  lemma LeafLabel(lang: Lang)
    ensures HasLabel(lang, 0) <==> [] in lang
  {
  }

  lemma SomeLabel(lang: Lang) returns (c: nat)
    requires IsNode(lang)
    ensures HasLabel(lang, c) && c < 256
  {
    var k: Key :| k in lang;
    if k == [] {
      c := 0;
    } else {
      c := k[0];
      assert k == [c] + k[1..];
    }
  }

  /** A nonempty key leads through the edge of its first byte. */
  lemma KeyStep(lang: Lang, k: Key)
    requires k != []
    ensures k in lang <==> k[1..] in After(lang, k[0])
    ensures k in lang ==> lang[k] == After(lang, k[0])[k[1..]]
    ensures k in lang && k[0] != 0 ==> HasLabel(lang, k[0])
  {
    assert k == [k[0]] + k[1..];
  }

  lemma AfterNone(lang: Lang)
    ensures AfterAll(lang, []) == lang
  {
    forall k: Key ensures [] + k == k {}
  }

  lemma AfterOneMore(lang: Lang, p: Key, c: nat)
    ensures AfterAll(lang, p + [c]) == After(AfterAll(lang, p), c)
  {
    hide After, AfterAll;
    var a, b := AfterAll(lang, p + [c]), After(AfterAll(lang, p), c);
    forall k: Key ensures (k in a <==> k in b) && (k in a ==> a[k] == b[k]) {
      AfterOneMoreAt(lang, p, c, k);
    }
  }

  lemma AfterOneMoreAt(lang: Lang, p: Key, c: nat, k: Key)
    ensures var a, b := AfterAll(lang, p + [c]), After(AfterAll(lang, p), c);
      (k in a <==> k in b) && (k in a ==> a[k] == b[k])
  {
    assert (p + [c]) + k == p + ([c] + k);
  }

  /** Some stored key starts with `p`. */
  ghost predicate IsPrefix(lang: Lang, p: Key) {
    exists k: Key :: p + k in lang
  }

  lemma PrefixAfter(lang: Lang, p: Key, q: Key)
    ensures IsPrefix(AfterAll(lang, p), q) <==> IsPrefix(lang, p + q)
  {
    if k: Key :| q + k in AfterAll(lang, p) {
      assert (p + q) + k == p + (q + k);
    }
    if k: Key :| (p + q) + k in lang {
      assert (p + q) + k == p + (q + k);
      assert q + k in AfterAll(lang, p);
    }
  }

  lemma PrefixStep(lang: Lang, p: Key, rest: Key, c: nat)
    requires IsNode(AfterAll(lang, p)) && rest != [] && rest[0] == c
    requires c == 0 || !HasLabel(AfterAll(lang, p), c)
    ensures !IsPrefix(lang, p + rest) && p + rest !in lang
  {
    var here := AfterAll(lang, p);
    if k: Key :| (p + rest) + k in lang {
      var t := rest + k;
      assert p + t == (p + rest) + k;
      assert t in here && t[0] == c;
      KeyStep(here, t);
      assert false;
    }
    assert (p + rest) + [] == p + rest;
  }

  lemma NodePrefix(lang: Lang, p: Key)
    requires IsNode(AfterAll(lang, p))
    ensures IsPrefix(lang, p)
    ensures p in lang <==> [] in AfterAll(lang, p)
    ensures p in lang ==> AfterAll(lang, p)[[]] == lang[p]
  {
    var k: Key :| k in AfterAll(lang, p);
    assert p + [] == p;
  }

  /** A result of a search for prefixes: the value of a key and its length. */
  datatype Match = Match(value: int, length: nat)

  /** The buffer queries the text `t`: it has the given length, or it ends at the first NUL. */
  ghost predicate Queries(key: seq<nat>, length: nat, t: Key) {
    if length != 0 then length <= |key| && t == key[..length]
    else |t| < |key| && t == key[..|t|] && key[|t|] == 0 && forall i :: 0 <= i < |t| ==> key[i] != 0
  }

  /** There is one such text, and it is the one that the searches look at. */
  lemma QueriedText(key: seq<nat>, length: nat, t: Key)
    requires length <= |key| && (length == 0 ==> 0 in key)
    ensures Queries(key, length, t) <==> t == TextOf(key, length)
  {
    hide TextOf;
    var u := TextOf(key, length);
    if Queries(key, length, t) && length == 0 {
      assert key[|t|] == 0 && key[|u|] == 0;
    }
  }

  /** The text a search looks at: `length` bytes, or up to the first NUL if `length` is 0. */
  function TextOf(key: seq<nat>, length: nat): (t: Key)
    requires length <= |key| && (length == 0 ==> 0 in key)
    ensures Queries(key, length, t)
  {
    if length != 0 then key[..length] else Cut(key)
  }

  /** Whether a search loop at position `i` has bytes left: it counts up to `length`, or it
      looks for the NUL when no length is given. */
  predicate More(key: seq<nat>, length: nat, i: nat)
    requires length <= |key| && (length == 0 ==> 0 in key) && i <= |TextOf(key, length)|
  {
    if length != 0 then i < length else key[i] != 0
  }

  lemma MoreMeansInside(key: seq<nat>, length: nat, i: nat)
    requires IsBuffer(key, length) && i <= |TextOf(key, length)|
    ensures More(key, length, i) <==> i < |TextOf(key, length)|
    ensures More(key, length, i) ==> i < |key| && key[i] == TextOf(key, length)[i] < 256
  {
  }

  ghost predicate IsBuffer(key: seq<nat>, length: nat) {
    (forall i :: 0 <= i < |key| ==> key[i] < 256) && length <= |key| && (length == 0 ==> 0 in key)
  }

  // Order of keys.

  /** Keys are compared byte by byte; a proper prefix comes first. */
  predicate Less(a: Key, b: Key) {
    b != [] && (a == [] || a[0] < b[0] || (a[0] == b[0] && Less(a[1..], b[1..])))
  }

  /** The byte at `i`, or the terminator at the end. */
  function ByteAt(k: Key, i: nat): nat
    requires i <= |k|
  {
    if i < |k| then k[i] else 0
  }

  /** The first difference decides. */
  lemma {:induction false} LessAt(a: Key, b: Key, p: nat)
    requires IsText(a) && IsText(b) && p <= |a| && p <= |b| && a[..p] == b[..p] && ByteAt(a, p) < ByteAt(b, p)
    ensures Less(a, b) && !Less(b, a) && a != b
    decreases p
  {
    if p > 0 {
      assert a[0] == a[..p][0] == b[..p][0] == b[0];
      assert a[1..][..p - 1] == a[..p][1..] == b[..p][1..] == b[1..][..p - 1];
      LessAt(a[1..], b[1..], p - 1);
    }
  }

  lemma {:induction false} LessIrreflexive(a: Key)
    ensures !Less(a, a)
  {
    if a != [] { LessIrreflexive(a[1..]); }
  }

  lemma {:induction false} LessAsymmetric(a: Key, b: Key)
    requires Less(a, b)
    ensures !Less(b, a)
  {
    if a != [] && a[0] == b[0] { LessAsymmetric(a[1..], b[1..]); }
  }

  lemma {:induction false} LessTransitive(a: Key, b: Key, c: Key)
    requires Less(a, b) && Less(b, c)
    ensures Less(a, c)
  {
    if a != [] && a[0] == b[0] == c[0] { LessTransitive(a[1..], b[1..], c[1..]); }
  }

  /** A key whose part in front of the NUL comes too early comes too early itself. */
  lemma {:induction false} CutOrder(a: Key, b: Key)
    requires IsBytes(a) && IsBytes(b) && Less(Cut(a), Cut(b))
    ensures Less(a, b)
  {
    if a != [] && a[0] == b[0] && a[0] != 0 {
      assert Cut(a)[1..] == Cut(a[1..]) && Cut(b)[1..] == Cut(b[1..]);
      CutOrder(a[1..], b[1..]);
    }
  }

  // Lists of keys.

  /** The first occurrence of a key. */
  function First(keys: seq<Key>, k: Key): (i: nat)
    requires k in keys
    ensures i < |keys| && keys[i] == k && forall j :: 0 <= j < i ==> keys[j] != k
  {
    if keys[0] == k then 0 else 1 + First(keys[1..], k)
  }

  ghost predicate Sorted(keys: seq<Key>) {
    forall i, j :: 0 <= i < j < |keys| ==> !Less(keys[j], keys[i])
  }

  lemma SortedMore(keys: seq<Key>, i: nat)
    requires i < |keys|
    ensures Sorted(keys[..i + 1]) <==> Sorted(keys[..i]) && (i > 0 ==> !Less(keys[i], keys[i - 1]))
  {
    hide Less;
    var now, prior := keys[..i + 1], keys[..i];
    if Sorted(now) {
      forall a, b | 0 <= a < b < i ensures !Less(prior[b], prior[a]) {
        assert now[b] == prior[b] && now[a] == prior[a];
      }
      if i > 0 { assert !Less(now[i], now[i - 1]); }
    }
    if Sorted(prior) && (i > 0 ==> !Less(keys[i], keys[i - 1])) {
      forall a, b | 0 <= a < b < i + 1 ensures !Less(now[b], now[a]) {
        if b < i {
          assert now[b] == prior[b] && now[a] == prior[a];
        } else if a < i - 1 {
          assert !Less(prior[i - 1], prior[a]);
          NotLessTransitive(keys[a], keys[i - 1], keys[i]);
        }
      }
    }
  }

  lemma {:induction false} NotLessTransitive(a: Key, b: Key, c: Key)
    requires !Less(b, a) && !Less(c, b)
    ensures !Less(c, a)
  {
    if a != [] && b != [] && c != [] && a[0] == b[0] == c[0] {
      NotLessTransitive(a[1..], b[1..], c[1..]);
    }
  }

  /** Adding a key that is not there yet. */
  ghost function Added(lang: Lang, key: Key, value: nat): Lang {
    if key in lang then lang else imap k: Key | k in lang || k == key :: if k == key then value else lang[k]
  }
}
