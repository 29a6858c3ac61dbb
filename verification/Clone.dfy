/** The dictionary with tails: building it from sorted keys and asking it.

    `ids` is 8 for the variant that sorts and merges the rests of the keys, and 1 for the other. */
module Clone {
  import opened Wrappers
  import opened Language
  import opened CloneUnit
  import opened CloneTrie
  import opened CloneWork
  import opened CloneTail
  import opened CloneArray
  import opened CloneSearch
  import opened CloneMemory
  import CB = CloneBuilder

  datatype Outcome = Built | NulInKey | Unsorted | TooLarge

  // What the caller gives.

  /** Key buffers, with their lengths or ending in NUL, and perhaps values. */
  datatype Input = Input(buffers: seq<seq<nat>>, lengths: Option<seq<nat>>, values: Option<seq<int>>) {
    ghost predicate Valid() {
      && (forall i :: 0 <= i < |buffers| ==> IsBytes(buffers[i]))
      && (if lengths.Some? then |lengths.value| == |buffers|
         && forall i :: 0 <= i < |buffers| ==> lengths.value[i] <= |buffers[i]|
          else forall i :: 0 <= i < |buffers| ==> 0 in buffers[i])
      && (values.Some? ==> |values.value| == |buffers| && forall i :: 0 <= i < |buffers| ==> IsInt32(values.value[i]))
    }

    /** The `i`-th key is `t`: it has the given length, or it ends at the first NUL. */
    ghost predicate KeyIs(i: nat, t: Key)
      requires i < |buffers| && (lengths.Some? ==> i < |lengths.value|)
    {
      var b := buffers[i];
      if lengths.Some? then lengths.value[i] <= |b| && t == b[..lengths.value[i]]
      else |t| < |b| && t == b[..|t|] && b[|t|] == 0 && forall j :: 0 <= j < |t| ==> b[j] != 0
    }

    /** Its value is `v`: the given one, or its position as a signed 32-bit number. */
    ghost predicate ValueIs(i: nat, v: int)
      requires i < |buffers| && (values.Some? ==> i < |values.value|)
    {
      if values.Some? then v == values.value[i]
      else -0x8000_0000 <= v < 0x8000_0000 && (v - i) % 0x1_0000_0000 == 0
    }

    /** The bytes of the `i`-th key. */
    function Text(i: nat): (t: Key)
      requires Valid() && i < |buffers|
      ensures KeyIs(i, t)
    {
      if lengths.Some? then buffers[i][..lengths.value[i]] else Cut(buffers[i])
    }

    /** Its value: the given one, or its position as a 32-bit number. */
    function Value(i: nat): (v: int)
      requires Valid() && i < |buffers|
      ensures IsInt32(v) && ValueIs(i, v)
    {
      if values.Some? then values.value[i] else ToInt32(i)
    }

    function Texts(): (r: seq<Key>)
      requires Valid()
      ensures |r| == |buffers| && forall i :: 0 <= i < |r| ==> r[i] == Text(i)
    {
      seq(|buffers|, i requires 0 <= i < |buffers| => Text(i))
    }
  }

  /** A cast to a signed 32-bit number. */
  function ToInt32(i: nat): (v: int)
    ensures IsInt32(v) && (v - i) % 0x1_0000_0000 == 0
  {
    var u: int := i % 0x1_0000_0000;
    if u < 0x8000_0000 then u else u - 0x1_0000_0000
  }

  /** What is wrong with the first `n` keys, if anything. */
  function Verdict(keys: seq<Key>, n: nat): (r: Outcome)
    requires n <= |keys|
    ensures r != TooLarge
  {
    if n == 0 then Built
    else if Verdict(keys, n - 1) != Built then Verdict(keys, n - 1)
    else if 0 in keys[n - 1] then NulInKey
    else if n > 1 && Less(keys[n - 1], keys[n - 2]) then Unsorted
    else Built
  }

  /** Keys are accepted iff none contains a NUL and they are sorted; repetitions are allowed. */
  lemma {:induction false} Accepted(keys: seq<Key>, n: nat)
    requires n <= |keys|
    ensures Verdict(keys, n) == Built <==> Sorted(keys[..n]) && forall i :: 0 <= i < n ==> 0 !in keys[i]
  {
    hide Less;
    if n > 0 {
      Accepted(keys, n - 1);
      SortedMore(keys, n - 1);
    }
  }

  /** What is wrong with the first bad key: it has a NUL, or it comes before its predecessor. */
  ghost predicate Complains(keys: seq<Key>, i: nat, r: Outcome) {
    && i < |keys|
    && (r == NulInKey <==> exists j :: 0 <= j < |keys[i]| && keys[i][j] == 0)
    && (r != NulInKey ==> r == Unsorted && i > 0 && Less(keys[i], keys[i - 1]))
    && Sorted(keys[..i]) && forall j :: 0 <= j < i ==> 0 !in keys[j]
  }

  lemma {:induction false} FirstComplaint(keys: seq<Key>, n: nat) returns (i: nat)
    requires n <= |keys| && Verdict(keys, n) != Built
    ensures i < n && Complains(keys, i, Verdict(keys, n))
  {
    hide Less, Sorted;
    if Verdict(keys, n - 1) != Built {
      i := FirstComplaint(keys, n - 1);
    } else {
      i := n - 1;
      Accepted(keys, i);
    }
  }

  lemma {:induction false} VerdictStays(keys: seq<Key>, i: nat, n: nat)
    requires i <= n <= |keys| && Verdict(keys, i) != Built
    ensures Verdict(keys, n) == Verdict(keys, i)
  {
    if i < n { VerdictStays(keys, i, n - 1); }
  }

  // Reading the keys.

  /** `compare`: the sign tells the order of the keys. */
  method Compare(a: Key, b: Key) returns (r: int)
    requires IsText(a) && IsText(b)
    ensures (r == 0 <==> a == b) && (r < 0 <==> Less(a, b)) && (r > 0 <==> Less(b, a))
  {
    hide Less;
    var i: nat := 0;
    while ByteAt(a, i) != 0 && ByteAt(a, i) == ByteAt(b, i)
      invariant i <= |a| && i <= |b| && a[..i] == b[..i]
      decreases |a| - i
    {
      assert a[..i + 1] == a[..i] + [a[i]] && b[..i + 1] == b[..i] + [b[i]];
      i := i + 1;
    }
    r := ByteAt(a, i) - ByteAt(b, i);
    if r < 0 {
      LessAt(a, b, i);
    } else if r > 0 {
      LessAt(b, a, i);
    } else {
      assert a == a[..i] && b == b[..i];
      LessIrreflexive(a);
    }
  }

  /** `KeyRec`s for the different ones among the first `n` keys, each with its first value. */
  ghost predicate Kept(input: Input, n: nat, recs: seq<KeyRec>)
    requires input.Valid() && n <= |input.buffers|
  {
    && AreKeys(Texts(recs))
    && (forall j :: 0 <= j < |recs| ==> RecOk(input, n, recs[j]))
    && (forall i: nat :: i < n ==> input.Texts()[i] in Texts(recs))
    && (if n == 0 then recs == [] else recs != [] && recs[|recs| - 1].text == input.Texts()[n - 1])
  }

  ghost predicate RecOk(input: Input, n: nat, r: KeyRec)
    requires input.Valid() && n <= |input.buffers|
  {
    r.text in input.Texts()[..n] && r.value == input.Value(First(input.Texts(), r.text)) && r.pos == 0
  }

  lemma NothingKept(input: Input)
    requires input.Valid()
    ensures Kept(input, 0, [])
  {
  }

  /** A key that repeats the last one adds nothing. */
  lemma Repeated(input: Input, n: nat, recs: seq<KeyRec>)
    requires input.Valid() && n < |input.buffers| && Kept(input, n, recs) && recs != []
    requires input.Texts()[n] == recs[|recs| - 1].text
    ensures Kept(input, n + 1, recs)
  {
    hide AreKeys, First, Input.Texts, Input.Text, Input.Value, Input.Valid, Texts;
    var texts := input.Texts();
    forall j | 0 <= j < |recs| ensures RecOk(input, n + 1, recs[j]) {
      assert RecOk(input, n, recs[j]);
      var k :| 0 <= k < n && texts[..n][k] == recs[j].text;
      assert texts[..n + 1][k] == recs[j].text;
    }
    assert Texts(recs)[|recs| - 1] == texts[n];
  }

  /** A key beyond the last one is new. */
  lemma Appended(input: Input, n: nat, recs: seq<KeyRec>)
    requires input.Valid() && n < |input.buffers| && Kept(input, n, recs) && IsText(input.Texts()[n])
    requires recs != [] ==> Less(recs[|recs| - 1].text, input.Texts()[n])
    requires n > 0 ==> recs != []
    ensures Kept(input, n + 1, recs + [KeyRec(input.Texts()[n], 0, 0, input.Value(n))])
  {
    hide First, Input.Texts, Input.Text, Input.Value, Input.Valid, Less, RecOk, IsText, Texts, AreKeys;
    var texts := input.Texts();
    var key := texts[n];
    var r := KeyRec(key, 0, 0, input.Value(n));
    TextsGrow(recs, r);
    KeysGrow(Texts(recs), key);
    forall j | 0 <= j < |recs| ensures Less(recs[j].text, key) { assert Less(Texts(recs)[j], key); }
    IsNew(input, n, recs);
    forall j | 0 <= j < |recs| ensures RecOk(input, n + 1, recs[j]) { OldRec(input, n, recs[j]); }
    forall i: nat | i < n + 1 ensures texts[i] in Texts(recs) + [key] {
      if i < n { assert texts[i] in Texts(recs); }
    }
  }

  /** A key behind the last one. */
  lemma KeysGrow(keys: seq<Key>, key: Key)
    requires AreKeys(keys) && IsText(key) && (keys != [] ==> Less(keys[|keys| - 1], key))
    ensures AreKeys(keys + [key]) && forall j :: 0 <= j < |keys| ==> Less(keys[j], key)
  {
    hide IsText, Less;
    forall j | 0 <= j < |keys| ensures Less(keys[j], key) {
      if j < |keys| - 1 { LessTransitive(keys[j], keys[|keys| - 1], key); }
    }
  }

  lemma TextsGrow(recs: seq<KeyRec>, r: KeyRec)
    ensures Texts(recs + [r]) == Texts(recs) + [r.text]
  {
  }

  lemma OldRec(input: Input, n: nat, r: KeyRec)
    requires input.Valid() && n < |input.buffers| && RecOk(input, n, r)
    ensures RecOk(input, n + 1, r)
  {
    hide First, Input.Texts;
    var texts := input.Texts();
    var k :| 0 <= k < n && texts[..n][k] == r.text;
    assert texts[..n + 1][k] == r.text;
  }

  lemma IsNew(input: Input, n: nat, recs: seq<KeyRec>)
    requires input.Valid() && n < |input.buffers| && Kept(input, n, recs)
    requires forall j :: 0 <= j < |recs| ==> Less(recs[j].text, input.Texts()[n])
    ensures RecOk(input, n + 1, KeyRec(input.Texts()[n], 0, 0, input.Value(n)))
  {
    hide First, Input.Texts, Input.Text, Input.Value, Input.Valid, Less, AreKeys;
    var texts := input.Texts();
    forall i: nat | i < n ensures texts[i] != texts[n] {
      assert texts[i] in Texts(recs);
      var m :| 0 <= m < |recs| && Texts(recs)[m] == texts[i];
      LessIrreflexive(texts[n]);
    }
    assert texts[..n + 1][n] == texts[n];
    assert texts[n] in texts;
  }

  /** The loop of `build_double_array`: checks the order and drops repetitions. */
  method ReadKeys(input: Input) returns (outcome: Outcome, recs: seq<KeyRec>)
    requires input.Valid()
    ensures outcome == Verdict(input.Texts(), |input.buffers|)
    ensures outcome == Built ==> Kept(input, |input.buffers|, recs) && TailSize(Texts(recs)) <= TailSize(input.Texts())
  {
    hide Kept, Verdict, Less, TailSize, Texts;
    ghost var texts := input.Texts();
    recs := [];
    NothingKept(input);
    VerdictStart(texts);
    NoText(texts);
    var i := 0;
    while i < |input.buffers|
      invariant 0 <= i <= |input.buffers| && Kept(input, i, recs) && Verdict(texts, i) == Built
        && (i > 0 ==> recs != [])
      invariant TailSize(Texts(recs)) <= TailSize(texts[..i])
    {
      var text := input.Text(i);
      OneMoreText(texts, i, recs, KeyRec(text, 0, 0, input.Value(i)));
      VerdictNext(texts, i);
      if 0 in text {
        VerdictStays(texts, i + 1, |texts|);
        return NulInKey, recs;
      }
      TextBytes(input, i);
      var repeated := false;
      if i > 0 {
        KeptLast(input, i, recs);
        var r := Compare(recs[|recs| - 1].text, text);
        if r == 0 {
          LessIrreflexive(text);
          Repeated(input, i, recs);
          repeated := true;
        } else if r > 0 {
          VerdictStays(texts, i + 1, |texts|);
          return Unsorted, recs;
        } else {
          LessAsymmetric(recs[|recs| - 1].text, text);
        }
      } else {
        KeptNone(input, recs);
      }
      if !repeated {
        Appended(input, i, recs);
        recs := recs + [KeyRec(text, 0, 0, input.Value(i))];
      }
      i := i + 1;
    }
    outcome := Built;
    assert texts[..i] == texts;
  }

  lemma NoText(texts: seq<Key>)
    ensures TailSize(Texts([])) == 0 <= TailSize(texts[..0])
  {
  }

  lemma OneMoreText(texts: seq<Key>, i: nat, recs: seq<KeyRec>, r: KeyRec)
    requires i < |texts| && r.text == texts[i]
    ensures TailSize(texts[..i + 1]) == TailSize(texts[..i]) + |texts[i]| + 5
    ensures TailSize(Texts(recs + [r])) == TailSize(Texts(recs)) + |texts[i]| + 5
  {
    hide TailSize;
    assert texts[..i + 1] == texts[..i] + [texts[i]];
    TailSizeMore(texts[..i], texts[i]);
    assert Texts(recs + [r]) == Texts(recs) + [texts[i]];
    TailSizeMore(Texts(recs), texts[i]);
  }

  lemma VerdictStart(keys: seq<Key>)
    ensures Verdict(keys, 0) == Built
  {
  }

  lemma VerdictNext(keys: seq<Key>, i: nat)
    requires i < |keys| && Verdict(keys, i) == Built
    ensures Verdict(keys, i + 1) ==
      if 0 in keys[i] then NulInKey else if i > 0 && Less(keys[i], keys[i - 1]) then Unsorted else Built
  {
    hide Less;
  }

  lemma TextBytes(input: Input, i: nat)
    requires input.Valid() && i < |input.buffers| && 0 !in input.Text(i)
    ensures IsText(input.Text(i))
  {
    var text := input.Text(i);
    assert IsBytes(input.buffers[i]);
    forall j | 0 <= j < |text| ensures 0 < text[j] < 256 {
      assert text[j] in text;
    }
  }

  lemma KeptLast(input: Input, n: nat, recs: seq<KeyRec>)
    requires input.Valid() && 0 < n <= |input.buffers| && Kept(input, n, recs)
    ensures recs != [] && recs[|recs| - 1].text == input.Texts()[n - 1] && IsText(recs[|recs| - 1].text)
  {
    hide Less, RecOk, IsText;
    assert IsText(Texts(recs)[|recs| - 1]);
  }

  lemma KeptNone(input: Input, recs: seq<KeyRec>)
    requires input.Valid() && Kept(input, 0, recs)
    ensures recs == []
  {
    hide Less, IsText, RecOk;
  }

  // Building and asking.

  lemma KeptReady(input: Input, recs: seq<KeyRec>)
    requires input.Valid() && Kept(input, |input.buffers|, recs)
    ensures AreKeys(Texts(recs)) && forall i :: 0 <= i < |recs| ==> recs[i].pos == 0 && IsInt32(recs[i].value)
  {
    hide AreKeys, Texts;
    forall i | 0 <= i < |recs| ensures recs[i].pos == 0 && IsInt32(recs[i].value) {
      assert RecOk(input, |input.buffers|, recs[i]);
    }
  }

  /** The keys that were kept are the dictionary: the first value of every key. */
  lemma KeptAnswers(input: Input, recs: seq<KeyRec>, k: Key)
    requires input.Valid() && Kept(input, |input.buffers|, recs)
    ensures k in Texts(recs) <==> k in input.Texts()
    ensures k in Texts(recs) ==> ValueOf(Texts(recs), Values(recs), k) == input.Value(First(input.Texts(), k))
  {
    hide AreKeys, First, Input.Texts;
    var texts, n := input.Texts(), |input.buffers|;
    assert texts[..n] == texts;
    if k in Texts(recs) {
      var j := First(Texts(recs), k);
      assert RecOk(input, n, recs[j]);
    }
    if k in texts {
      var i :| 0 <= i < |texts| && texts[i] == k;
    }
  }

  /** `build`: the finished array, or what was wrong. */
  method Build(input: Input, ids: nat) returns (trie: TailedArray, outcome: Outcome, ghost recs: seq<KeyRec>)
    requires input.Valid() && IsIds(ids)
    ensures outcome != TooLarge ==> outcome == Verdict(input.Texts(), |input.buffers|)
    ensures outcome == TooLarge ==> Verdict(input.Texts(), |input.buffers|) == Built
    ensures outcome !in {Built, TooLarge} ==> exists i: nat :: Complains(input.Texts(), i, outcome)
    ensures outcome == TooLarge ==> |trie.units| + 256 > OFFSET_MAX * 256 || |trie.tail| > LinkMax(ids)
    ensures outcome == Built ==> trie.Valid() && trie.AgentOk(0, []) && Kept(input, |input.buffers|, recs)
    ensures outcome == Built ==> trie.keys == Texts(recs) && trie.values == Values(recs) && trie.ids == ids
    ensures outcome == Built ==> Bounded(trie.tail, TailSize(input.Texts()))
  {
    hide Kept, Verdict, LinkMax, Whole, EmptyArray, AreKeys, Texts, Values, AtNode, Bounded, TailSize,
      Complains, Input.Texts;
    var read;
    outcome, read := ReadKeys(input);
    recs := read;
    if outcome != Built {
      ghost var i := FirstComplaint(input.Texts(), |input.buffers|);
      trie := new TailedArray([], [], ids, [], [], Scheme(map[], map[], map[], {}));
      return;
    }
    KeptReady(input, recs);
    var builder := new CB.CloneBuilder(read, ids);
    var ok := builder.Build();
    trie := new TailedArray(builder.units, builder.tail, ids, Texts(recs), Values(recs), builder.scheme);
    if !ok {
      outcome := TooLarge;
      return;
    }
    Sizes(recs);
    CB.MoreRoom(trie.tail, TailSize(Texts(recs)), TailSize(input.Texts()));
    trie.FirstAgent();
  }

  lemma Sizes(recs: seq<KeyRec>)
    ensures |Texts(recs)| == |Values(recs)| == |recs|
  {
  }

  /** The text is found iff it is one of the given keys, with the value of the first one. */
  ghost predicate IsAnswer(input: Input, text: Key, found: bool, value: int)
    requires input.Valid()
  {
    if exists i: nat :: i < |input.buffers| && input.KeyIs(i, text)
    then found && exists i: nat ::
      && i < |input.buffers| && input.KeyIs(i, text) && input.ValueIs(i, value)
      && forall j: nat :: j < i ==> !input.KeyIs(j, text)
    else !found && value == -1
  }

  /** A buffer has one text. */
  lemma OneText(input: Input, i: nat, t: Key)
    requires input.Valid() && i < |input.buffers|
    ensures input.KeyIs(i, t) <==> t == input.Texts()[i]
  {
    hide Input.Text;
    var b, u := input.buffers[i], input.Text(i);
    if input.KeyIs(i, t) && input.lengths.None? {
      assert b[|t|] == 0 && b[|u|] == 0;
    }
  }

  /** What the kept keys answer. */
  lemma KeptIsAnswer(input: Input, recs: seq<KeyRec>, text: Key, found: bool, value: int)
    requires input.Valid() && Kept(input, |input.buffers|, recs) && |Texts(recs)| == |Values(recs)|
    requires found <==> text in Texts(recs)
    requires value == if found then ValueOf(Texts(recs), Values(recs), text) else -1
    ensures IsAnswer(input, text, found, value)
  {
    hide Kept, Texts, Values, ValueOf, Input.Texts, Input.Text, Input.Value, Input.KeyIs, Input.ValueIs;
    KeptAnswers(input, recs, text);
    var texts := input.Texts();
    forall i: nat | i < |input.buffers| ensures input.KeyIs(i, text) <==> texts[i] == text {
      OneText(input, i, text);
    }
    if found {
      var i := First(texts, text);
      assert input.KeyIs(i, text) && input.ValueIs(i, value);
    }
  }

  /** Building and asking for the text that the buffer queries. */
  method BuildAndFind(input: Input, ids: nat, query: seq<nat>, length: nat)
    returns (outcome: Outcome, found: bool, value: int)
    requires input.Valid() && IsIds(ids) && IsQuery(query, length, 0)
    ensures outcome != TooLarge ==> outcome == Verdict(input.Texts(), |input.buffers|)
    ensures outcome == Built ==> forall t: Key :: Asks(query, length, 0, t) ==> IsAnswer(input, t, found, value)
  {
    hide Kept, Verdict, LinkMax, TailedArray.Valid, TailedArray.AgentOk, QueryText, First, Texts, Values, ValueOf,
      Input.Texts, IsAnswer, Asks;
    var trie;
    ghost var recs;
    found, value := false, -1;
    trie, outcome, recs := Build(input, ids);
    if outcome == Built {
      var matched;
      found, value, matched := trie.ExactMatchSearch(query, length, 0, []);
      ghost var text := QueryText(query, length, 0);
      assert [] + text == text;
      trie.Aligned();
      KeptIsAnswer(input, recs, text, found, value);
      AskedText(query, length, 0);
    }
  }

  /** Some key starts with `text`. */
  ghost predicate Starts(input: Input, text: Key)
    requires input.Valid()
  {
    exists i: nat, k: Key :: i < |input.buffers| && input.KeyIs(i, k) && text <= k
  }

  lemma KeptPrefix(input: Input, recs: seq<KeyRec>, text: Key)
    requires input.Valid() && Kept(input, |input.buffers|, recs)
    ensures PrefixOf(Texts(recs), text) <==> Starts(input, text)
    ensures (Texts(recs) == [] <==> input.buffers == []) && (Starts(input, text) ==> input.buffers != [])
  {
    hide AreKeys, Input.Text, Input.KeyIs, First;
    var texts, n := input.Texts(), |input.buffers|;
    assert texts[..n] == texts;
    forall i: nat, k: Key | i < n ensures input.KeyIs(i, k) <==> texts[i] == k {
      OneText(input, i, k);
    }
    if PrefixOf(Texts(recs), text) {
      var j :| 0 <= j < |recs| && text <= Texts(recs)[j];
      assert RecOk(input, n, recs[j]);
      var i :| 0 <= i < n && texts[i] == recs[j].text;
      assert input.KeyIs(i, texts[i]);
    }
    if Starts(input, text) {
      var i: nat, k: Key :| i < n && input.KeyIs(i, k) && text <= k;
      assert texts[i] in Texts(recs);
    }
  }

  /** Building and traversing from the root: the first value of the text, -1 if it only starts a key,
      and -2 otherwise; without keys single bytes from 2 on are taken for the start of one. */
  method BuildAndTraverse(input: Input, ids: nat, query: seq<nat>, length: nat)
    returns (outcome: Outcome, ok: bool, value: int)
    requires input.Valid() && IsIds(ids) && IsQuery(query, length, 0)
    ensures outcome == Built && ok ==> forall t: Key :: Asks(query, length, 0, t) ==>
      if input.buffers == [] then value == if t == [] || (|t| == 1 && t[0] >= 2) then -1 else -2
      else if !Starts(input, t) then value == -2
      else exists found :: IsAnswer(input, t, found, value)
    ensures !ok ==> outcome != Built || TailSize(input.Texts()) > LinkMax(ids)
  {
    hide Kept, Verdict, LinkMax, TailedArray.Valid, TailedArray.AgentOk, QueryText, First, Texts, Values, ValueOf,
      Input.Texts, IsAnswer, Asks, Starts, PrefixOf, AreKeys, Furthest, Index, TailSize;
    var trie;
    ghost var recs;
    ok, value := false, -1;
    trie, outcome, recs := Build(input, ids);
    if outcome == Built {
      var agent, keyIndex;
      ok, value, agent, keyIndex := trie.Traverse(query, 0, 0, length, []);
      ghost var text := QueryText(query, length, 0);
      assert [] + text == text;
      trie.Aligned();
      KeptPrefix(input, recs, text);
      ghost var found := text in trie.keys;
      KeptIsAnswer(input, recs, text, found, if found then ValueOf(trie.keys, trie.values, text) else -1);
      trie.KeyIsPrefix(text);
      assert ok && Starts(input, text) ==> IsAnswer(input, text, found, value);
      AskedText(query, length, 0);
    }
  }

  /** The keys that start the text, shortest first, with their first values. */
  ghost predicate ArePrefixes(input: Input, text: Key, r: seq<Match>)
    requires input.Valid()
  {
    && (forall m: Match :: m in r <==> m.length <= |text| && IsAnswer(input, text[..m.length], true, m.value))
    && (forall i, j :: 0 <= i < j < |r| ==> r[i].length < r[j].length)
  }

  lemma PrefixesAre(input: Input, recs: seq<KeyRec>, text: Key)
    requires input.Valid() && Kept(input, |input.buffers|, recs) && |Texts(recs)| == |Values(recs)|
    ensures ArePrefixes(input, text, Matches(Texts(recs), Values(recs), [], text, |text| + 1))
  {
    hide Kept, Texts, Values, ValueOf, IsAnswer, Matches, Input.Texts, Input.Text, Input.Value, Input.Valid;
    var keys, values := Texts(recs), Values(recs);
    MatchesAreThePrefixes(keys, values, [], text, |text| + 1);
    forall m: Match
      ensures IsMatch(keys, values, [], text, m) <==>
        m.length <= |text| && IsAnswer(input, text[..m.length], true, m.value)
    {
      if m.length <= |text| {
        var t := text[..m.length];
        assert [] + t == t;
        KeptIsAnswer(input, recs, t, t in keys, if t in keys then ValueOf(keys, values, t) else -1);
        OneAnswer(input, t, t in keys, if t in keys then ValueOf(keys, values, t) else -1, m.value);
      }
    }
  }

  lemma OneAnswer(input: Input, text: Key, found: bool, v: int, w: int)
    requires input.Valid() && IsAnswer(input, text, found, v)
    ensures IsAnswer(input, text, true, w) <==> found && v == w
  {
    hide Input.KeyIs;
    if found && IsAnswer(input, text, true, w) {
      var i: nat :| i < |input.buffers| && input.KeyIs(i, text) && input.ValueIs(i, v)
        && forall j: nat :: j < i ==> !input.KeyIs(j, text);
      var k: nat :| k < |input.buffers| && input.KeyIs(k, text) && input.ValueIs(k, w)
        && forall j: nat :: j < k ==> !input.KeyIs(j, text);
      assert i == k;
    }
  }

  lemma SameAnswer(input: Input, text: Key, found: bool, v: int, found': bool, w: int)
    requires input.Valid() && IsAnswer(input, text, found, v) && IsAnswer(input, text, found', w)
    ensures found == found' && v == w
  {
    hide Input.KeyIs;
    assert found == found';
    if found { OneAnswer(input, text, found, v, w); }
  }

  /** Building and searching for prefixes: all are counted, and the first `max` are stored. */
  method BuildAndFindPrefixes(input: Input, ids: nat, query: seq<nat>, length: nat, results: array<Match>, max: nat)
    returns (outcome: Outcome, count: nat, ghost found: seq<Match>)
    requires input.Valid() && IsIds(ids) && IsQuery(query, length, 0) && max <= results.Length
    modifies results
    ensures outcome == Built ==>
      && (forall t: Key :: Asks(query, length, 0, t) ==> ArePrefixes(input, t, found))
      && count == |found| && (forall j :: 0 <= j < count && j < max ==> results[j] == found[j])
      && (forall j :: (count <= j || max <= j) && j < results.Length ==> results[j] == old(results[j]))
  {
    hide Kept, Verdict, LinkMax, TailedArray.Valid, TailedArray.AgentOk, QueryText, First, Texts, Values, ValueOf,
      Input.Texts, ArePrefixes, Asks, Matches;
    var trie;
    ghost var recs;
    count, found := 0, [];
    trie, outcome, recs := Build(input, ids);
    if outcome == Built {
      ghost var text := QueryText(query, length, 0);
      trie.Aligned();
      found := Matches(trie.keys, trie.values, [], text, |text| + 1);
      count := trie.CommonPrefixSearch(query, results, max, length, 0, []);
      PrefixesAre(input, recs, text);
      AskedText(query, length, 0);
    }
  }

  // Saving and loading.

  /** The memory of the array: the tail is packed behind the units.  It is there iff both
      together do not exceed the 4 GiB that the builder can address. */
  method Save(trie: TailedArray) returns (memory: seq<Word>)
    requires trie.Valid() && Bounded(trie.tail, |trie.tail|)
    ensures Holds(memory, trie.units, trie.tail) <==> 4 * |trie.units| + |trie.tail| <= MAX_BYTES
  {
    hide TailedArray.Valid;
    trie.SizeUnit();
    var vector := new UnitVector(trie.units);
    vector.AppendTail(trie.tail);
    memory := vector.units;
  }

  /** `set_array`: the array in some memory; its second unit tells where the tail begins. */
  method SetArray(memory: seq<Word>, ids: nat, ghost trie: TailedArray) returns (loaded: TailedArray)
    requires trie.Valid() && trie.ids == ids && Holds(memory, trie.units, trie.tail)
    ensures loaded.Valid() && loaded.AgentOk(0, [])
    ensures loaded.keys == trie.keys && loaded.values == trie.values && loaded.ids == ids && loaded.units == trie.units
  {
    hide Whole, EmptyArray, AreKeys, Offset, StoredByte, AtNode, TailOf;
    trie.SizeUnit();
    FoundAgain(memory, trie.units, trie.tail);
    var n := Offset(memory[1]);
    loaded := new TailedArray(memory[..n], TailOf(memory, n), ids, trie.keys, trie.values, trie.sch);
    if trie.keys != [] {
      WholeLonger(trie.units, trie.tail, loaded.tail, ids, trie.keys, trie.values, trie.sch);
    }
    loaded.FirstAgent();
  }

  /** A dictionary that was built, saved and loaded again answers like the built one, if there is
      room: two gigabytes for the keys, each with five bytes more, are enough. */
  method BuildSaveAndFind(input: Input, ids: nat, query: seq<nat>, length: nat)
    returns (outcome: Outcome, saved: bool, found: bool, value: int)
    requires input.Valid() && IsIds(ids) && IsQuery(query, length, 0)
    ensures outcome != TooLarge ==> outcome == Verdict(input.Texts(), |input.buffers|)
    ensures saved ==> forall t: Key :: Asks(query, length, 0, t) ==> IsAnswer(input, t, found, value)
    ensures outcome == Built && TailSize(input.Texts()) <= 0x8000_0000 ==> saved
  {
    hide Kept, Verdict, LinkMax, TailedArray.Valid, TailedArray.AgentOk, QueryText, First, Texts, Values, ValueOf,
      Holds, TailSize, AreKeys;
    var trie;
    ghost var recs;
    saved, found, value := false, false, -1;
    trie, outcome, recs := Build(input, ids);
    if outcome != Built {
      return;
    }
    trie.SizeUnit();
    var memory := Save(trie);
    saved := 4 * |trie.units| + |trie.tail| <= MAX_BYTES;
    if saved {
      var loaded := SetArray(memory, ids, trie);
      var matched;
      found, value, matched := loaded.ExactMatchSearch(query, length, 0, []);
      ghost var text := QueryText(query, length, 0);
      assert [] + text == text;
      trie.Aligned();
      KeptIsAnswer(input, recs, text, found, value);
      AskedText(query, length, 0);
    }
  }

  /** Sorting and merging the rests changes no answer: both variants find the same. */
  method BothVariants(input: Input, query: seq<nat>, length: nat)
    returns (sorted: Outcome, found: bool, value: int, unsorted: Outcome, found': bool, value': int)
    requires input.Valid() && IsQuery(query, length, 0)
    ensures sorted == Built && unsorted == Built ==> found == found' && value == value'
  {
    hide IsAnswer, Asks, QueryText, Verdict, Input.Valid, Input.Texts;
    sorted, found, value := BuildAndFind(input, 8, query, length);
    unsorted, found', value' := BuildAndFind(input, 1, query, length);
    if sorted == Built && unsorted == Built {
      SameAnswer(input, QueryText(query, length, 0), found, value, found', value');
    }
  }
}
