/** Edit distance of two token sequences. */
module EditDistance {
  datatype Edit<T> = Insert(at: nat, token: T) | Delete(at: nat) | Substitute(at: nat, token: T)

  predicate Applicable<T>(e: Edit<T>, s: seq<T>) {
    if e.Insert? then e.at <= |s| else e.at < |s|
  }

  function Apply<T>(e: Edit<T>, s: seq<T>): seq<T>
    requires Applicable(e, s)
  {
    match e
    case Insert(i, x) => s[..i] + [x] + s[i..]
    case Delete(i) => s[..i] + s[i + 1..]
    case Substitute(i, x) => s[i := x]
  }

  /** Applying the edits one after the other turns `a` into `b`. */
  predicate Turns<T(==)>(a: seq<T>, script: seq<Edit<T>>, b: seq<T>)
    decreases script
  {
    if script == [] then a == b
    else Applicable(script[0], a) && Turns(Apply(script[0], a), script[1..], b)
  }

  function Init<T>(s: seq<T>): seq<T>
    requires s != []
  {
    s[..|s| - 1]
  }

  function Last<T>(s: seq<T>): T
    requires s != []
  {
    s[|s| - 1]
  }

  function Min(i: nat, j: nat): nat {
    if i > j then j else i
  }

  /** The recurrence of the table. */
  function Distance<T(==)>(a: seq<T>, b: seq<T>): nat
    decreases |a| + |b|
  {
    if a == [] then |b|
    else if b == [] then |a|
    else Min(Min(Distance(a, Init(b)) + 1, Distance(Init(a), b) + 1),
             Distance(Init(a), Init(b)) + (if Last(a) == Last(b) then 0 else 1))
  }

  // No script is shorter.

  /** Sequences that one edit turns into each other. */
  ghost predicate OneApart<T(!new)>(s: seq<T>, t: seq<T>) {
    || (s != [] && Init(s) == t)
    || (t != [] && Init(t) == s)
    || (s != [] && t != [] && Init(s) == Init(t))
    || (s != [] && t != [] && Last(s) == Last(t) && OneApart(Init(s), Init(t)))
  }

  lemma {:induction false} EditsAreSmall<T(!new)>(e: Edit<T>, s: seq<T>)
    requires Applicable(e, s)
    ensures OneApart(s, Apply(e, s)) && OneApart(Apply(e, s), s)
    decreases |s|
  {
    hide Apply;
    var t := Apply(e, s);
    if AtEnd(e, s) {
      EditAtEnd(e, s);
    } else {
      EditInside(e, s);
      EditsAreSmall(e, Init(s));
    }
  }

  predicate AtEnd<T>(e: Edit<T>, s: seq<T>) {
    if e.Insert? then e.at == |s| else e.at == |s| - 1
  }

  lemma EditAtEnd<T>(e: Edit<T>, s: seq<T>)
    requires Applicable(e, s) && AtEnd(e, s)
    ensures match e
      case Insert(_, _) => Apply(e, s) != [] && Init(Apply(e, s)) == s
      case Delete(_) => Apply(e, s) == Init(s)
      case Substitute(_, _) => Apply(e, s) != [] && Init(Apply(e, s)) == Init(s)
  {
  }

  lemma EditInside<T>(e: Edit<T>, s: seq<T>)
    requires Applicable(e, s) && !AtEnd(e, s)
    ensures s != [] && Applicable(e, Init(s))
    ensures var t := Apply(e, s); t != [] && Init(t) == Apply(e, Init(s)) && Last(t) == Last(s)
  {
    if e.Insert? {
      assert s[e.at..][..|s| - 1 - e.at] == Init(s)[e.at..];
    }
  }

  lemma {:induction false} DropLast<T>(a: seq<T>, b: seq<T>)
    requires a != []
    ensures Distance(Init(a), b) <= Distance(a, b) + 1
    decreases |a| + |b|
  {
    if b != [] {
      DropLast(a, Init(b));
      if Init(a) != [] { DropLast(Init(a), Init(b)); }
      if Init(a) != [] { DropOther(Init(a), b); }
    }
  }

  lemma DropOther<T>(a: seq<T>, b: seq<T>)
    requires b != [] && a != []
    ensures Distance(a, b) <= Distance(a, Init(b)) + 1
  {
  }

  /** One edit changes the distance to anything by at most one. */
  lemma {:induction false} OneStep<T(!new)>(s: seq<T>, t: seq<T>, b: seq<T>)
    requires OneApart(s, t)
    ensures Distance(s, b) <= Distance(t, b) + 1
    decreases |s| + |t| + |b|
  {
    if s != [] && Init(s) == t {
    } else if t != [] && Init(t) == s {
      DropLast(t, b);
    } else if b == [] {
      SizesClose(s, t);
    } else if Init(s) == Init(t) {
      OneStep(s, t, Init(b));
    } else {
      OneStep(s, t, Init(b));
      OneStep(Init(s), Init(t), b);
      OneStep(Init(s), Init(t), Init(b));
    }
  }

  lemma {:induction false} SizesClose<T(!new)>(s: seq<T>, t: seq<T>)
    requires OneApart(s, t)
    ensures |s| <= |t| + 1
  {
    if s != [] && t != [] && Last(s) == Last(t) && OneApart(Init(s), Init(t)) { SizesClose(Init(s), Init(t)); }
  }

  lemma {:induction false} Same<T>(a: seq<T>)
    ensures Distance(a, a) == 0
  {
    if a != [] { Same(Init(a)); }
  }

  /** Every script that turns `a` into `b` has at least as many edits as the distance. */
  lemma {:induction false} NoShorterScript<T(!new)>(a: seq<T>, script: seq<Edit<T>>, b: seq<T>)
    requires Turns(a, script, b)
    ensures Distance(a, b) <= |script|
    decreases script
  {
    if script == [] {
      Same(a);
    } else {
      var t := Apply(script[0], a);
      NoShorterScript(t, script[1..], b);
      EditsAreSmall(script[0], a);
      OneStep(a, t, b);
    }
  }

  // Some script is as short.

  lemma {:induction false} Then<T>(a: seq<T>, p: seq<Edit<T>>, b: seq<T>, q: seq<Edit<T>>, c: seq<T>)
    requires Turns(a, p, b) && Turns(b, q, c)
    ensures Turns(a, p + q, c)
    decreases p
  {
    if p == [] {
      assert p + q == q;
    } else {
      Then(Apply(p[0], a), p[1..], b, q, c);
      assert (p + q)[0] == p[0] && (p + q)[1..] == p[1..] + q;
    }
  }

  /** Edits do not disturb a token behind them. */
  lemma {:induction false} Behind<T>(a: seq<T>, script: seq<Edit<T>>, b: seq<T>, x: T)
    requires Turns(a, script, b)
    ensures Turns(a + [x], script, b + [x])
    decreases script
  {
    if script != [] {
      var e := script[0];
      Behind(Apply(e, a), script[1..], b, x);
      assert Apply(e, a + [x]) == Apply(e, a) + [x];
    }
  }

  lemma OneEdit<T>(a: seq<T>, e: Edit<T>)
    requires Applicable(e, a)
    ensures Turns(a, [e], Apply(e, a))
  {
    assert [e][1..] == [];
  }

  lemma {:induction false} BestScript<T>(a: seq<T>, b: seq<T>) returns (script: seq<Edit<T>>)
    ensures Turns(a, script, b) && |script| == Distance(a, b)
    decreases |a| + |b|
  {
    hide Turns;
    if a == [] && b == [] {
      script := Nothing(a);
    } else if b == [] || (a != [] && Distance(a, b) == Distance(Init(a), b) + 1) {
      var rest := BestScript(Init(a), b);
      script := DeleteFirst(a, rest, b);
    } else if a == [] || Distance(a, b) == Distance(a, Init(b)) + 1 {
      var rest := BestScript(a, Init(b));
      script := InsertLast(a, rest, b);
    } else {
      var rest := BestScript(Init(a), Init(b));
      script := KeepOrSubstitute(a, rest, b);
    }
  }

  lemma Nothing<T>(a: seq<T>) returns (script: seq<Edit<T>>)
    ensures Turns(a, script, a) && script == []
  {
    script := [];
  }

  lemma DeleteFirst<T>(a: seq<T>, rest: seq<Edit<T>>, b: seq<T>) returns (script: seq<Edit<T>>)
    requires a != [] && Turns(Init(a), rest, b)
    ensures Turns(a, script, b) && |script| == |rest| + 1
  {
    hide Turns;
    var e: Edit<T> := Delete(|a| - 1);
    EditAtEnd(e, a);
    OneEdit(a, e);
    script := [e] + rest;
    Then(a, [e], Init(a), rest, b);
  }

  lemma InsertLast<T>(a: seq<T>, rest: seq<Edit<T>>, b: seq<T>) returns (script: seq<Edit<T>>)
    requires b != [] && Turns(a, rest, Init(b))
    ensures Turns(a, script, b) && |script| == |rest| + 1
  {
    hide Turns;
    var e := Insert(|b| - 1, Last(b));
    OneEdit(Init(b), e);
    assert Apply(e, Init(b)) == b;
    script := rest + [e];
    Then(a, rest, Init(b), [e], b);
  }

  lemma KeepOrSubstitute<T>(a: seq<T>, rest: seq<Edit<T>>, b: seq<T>) returns (script: seq<Edit<T>>)
    requires a != [] && b != [] && Turns(Init(a), rest, Init(b))
    ensures Turns(a, script, b) && |script| == |rest| + (if Last(a) == Last(b) then 0 else 1)
  {
    hide Turns;
    Behind(Init(a), rest, Init(b), Last(a));
    assert Init(a) + [Last(a)] == a;
    var mid := Init(b) + [Last(a)];
    if Last(a) == Last(b) {
      assert mid == b;
      script := rest;
    } else {
      var e := Substitute(|b| - 1, Last(b));
      OneEdit(mid, e);
      assert Apply(e, mid) == b;
      script := rest + [e];
      Then(a, rest, mid, [e], b);
    }
  }

  // The distance is a metric.

  lemma {:induction false} Symmetric<T>(a: seq<T>, b: seq<T>)
    ensures Distance(a, b) == Distance(b, a)
    decreases |a| + |b|
  {
    if a != [] && b != [] {
      Symmetric(a, Init(b));
      Symmetric(Init(a), b);
      Symmetric(Init(a), Init(b));
    }
  }

  lemma ZeroOnlyForEqual<T(!new)>(a: seq<T>, b: seq<T>)
    ensures Distance(a, b) == 0 <==> a == b
  {
    var script := BestScript(a, b);
    if a == b { Same(a); }
  }

  lemma Triangle<T(!new)>(a: seq<T>, b: seq<T>, c: seq<T>)
    ensures Distance(a, c) <= Distance(a, b) + Distance(b, c)
  {
    var p := BestScript(a, b);
    var q := BestScript(b, c);
    Then(a, p, b, q, c);
    NoShorterScript(a, p + q, c);
  }

  // The table.

  /** The first `n` cells of row `i` hold the distances of the first `i` tokens. */
  ghost predicate RowOk<T>(table: array2<nat>, a: seq<T>, b: seq<T>, i: nat, n: nat)
    requires i <= |a| && n <= |b| + 1 && table.Length0 == |a| + 1 && table.Length1 == |b| + 1
    reads table
  {
    forall y :: 0 <= y < n ==> table[i, y] == Distance(a[..i], b[..y])
  }

  lemma Recurrence<T>(a: seq<T>, b: seq<T>, i: nat, j: nat)
    requires 0 < i <= |a| && 0 < j <= |b|
    ensures Distance(a[..i], b[..j]) ==
            Min(Min(Distance(a[..i], b[..j - 1]) + 1, Distance(a[..i - 1], b[..j]) + 1),
                Distance(a[..i - 1], b[..j - 1]) + (if a[i - 1] == b[j - 1] then 0 else 1))
  {
    assert Init(a[..i]) == a[..i - 1] && Init(b[..j]) == b[..j - 1];
  }

  /** `edit`: the smallest number of edits that turn `a` into `b`. */
  method EditTokens<T(==)>(a: seq<T>, b: seq<T>) returns (dis: nat)
    ensures dis == Distance(a, b)
  {
    hide Distance;
    var table := new nat[|a| + 1, |b| + 1];
    for i := 0 to |a| + 1
      invariant forall x :: 0 <= x < i ==> table[x, 0] == x
    {
      table[i, 0] := i;
    }
    for j := 0 to |b| + 1
      invariant forall x :: 0 <= x <= |a| ==> table[x, 0] == x
      invariant forall y :: 0 <= y < j ==> table[0, y] == y
    {
      table[0, j] := j;
    }
    FirstRow(table, a, b);
    for i := 1 to |a| + 1
      invariant forall x :: 0 <= x <= |a| ==> table[x, 0] == x
      invariant RowOk(table, a, b, i - 1, |b| + 1)
    {
      FillRow(table, a, b, i);
    }
    assert a[..|a|] == a && b[..|b|] == b;
    dis := table[|a|, |b|];
  }

  lemma FirstRow<T>(table: array2<nat>, a: seq<T>, b: seq<T>)
    requires table.Length0 == |a| + 1 && table.Length1 == |b| + 1
    requires forall y :: 0 <= y <= |b| ==> table[0, y] == y
    ensures RowOk(table, a, b, 0, |b| + 1)
  {
    assert a[..0] == [];
  }

  lemma FirstCell<T>(a: seq<T>, b: seq<T>, i: nat)
    requires i <= |a|
    ensures Distance(a[..i], b[..0]) == i
  {
  }

  /** One row of the table. */
  method FillRow<T(==)>(table: array2<nat>, a: seq<T>, b: seq<T>, i: nat)
    requires 0 < i <= |a| && table.Length0 == |a| + 1 && table.Length1 == |b| + 1
    requires table[i, 0] == i && RowOk(table, a, b, i - 1, |b| + 1)
    modifies table
    ensures RowOk(table, a, b, i, |b| + 1)
    ensures forall x :: 0 <= x <= |a| ==> table[x, 0] == old(table[x, 0])
  {
    hide Distance, Min;
    FirstCell(a, b, i);
    for j := 1 to |b| + 1
      invariant RowOk(table, a, b, i, j) && RowOk(table, a, b, i - 1, |b| + 1)
      invariant forall x :: 0 <= x <= |a| ==> table[x, 0] == old(table[x, 0])
    {
      Recurrence(a, b, i, j);
      var tmp := Min(table[i, j - 1] + 1, table[i - 1, j] + 1);
      var d := if a[i - 1] == b[j - 1] then 0 else 1;
      table[i, j] := Min(tmp, table[i - 1, j - 1] + d);
    }
  }
}
