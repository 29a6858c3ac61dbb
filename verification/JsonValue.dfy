/** JSON values.

    The members of an object are kept in the order of their names, as the map of the source keeps
    them.  A real number is represented by the text that is printed for it with 16 digits. */
module JsonValue {
  import opened Wrappers
  import opened JsonReal

  datatype Value =
    | Null
    | Bool(flag: bool)
    | Int(whole: int)
    | UInt(natural: nat)
    | Real(text: string)
    | Str(str: string)
    | Array(items: seq<Value>)
    | Object(members: seq<Member>)

  datatype Member = Member(name: string, value: Value)

  /** Whether comments are allowed before values and after the document, whether the document
      has to be an array or an object, and which texts `sscanf` reads as which real number. */
  datatype Features = Features(allowComments: bool, strictRoot: bool, scan: string -> Option<string>)

  /** Names and strings end at the first NUL. */
  function UpToNul(s: string): (t: string)
    ensures |t| <= |s| && t == s[..|t|] && (forall i :: 0 <= i < |t| ==> t[i] != '\0')
    ensures |t| < |s| ==> s[|t|] == '\0'
  {
    if s == [] || s[0] == '\0' then []
    else
      assert s == [s[0]] + s[1..];
      [s[0]] + UpToNul(s[1..])
  }

  /** `strcmp`, for names without NUL. */
  predicate Before(a: string, b: string) {
    b != [] && (a == [] || a[0] < b[0] || (a[0] == b[0] && Before(a[1..], b[1..])))
  }

  /** `a` and `b` agree up to `k`, where `a` ends or has the smaller byte. */
  ghost predicate SmallerAt(a: string, b: string, k: nat) {
    k <= |a| && k < |b| && a[..k] == b[..k] && (k < |a| ==> a[k] as int < b[k] as int)
  }

  /** The first difference decides the order of two names. */
  lemma {:induction false} FirstDifference(a: string, b: string)
    ensures Before(a, b) <==> exists k: nat :: SmallerAt(a, b, k)
  {
    if b != [] {
      assert SmallerAt(a, b, 0) <==> a == [] || a[0] < b[0];
      if a != [] {
        FirstDifference(a[1..], b[1..]);
        forall k: nat | 0 < k ensures SmallerAt(a, b, k) <==> a[0] == b[0] && SmallerAt(a[1..], b[1..], k - 1) {
          if k <= |a| && k < |b| {
            assert a[..k] == [a[0]] + a[1..][..k - 1] && b[..k] == [b[0]] + b[1..][..k - 1];
          }
        }
        if k: nat :| SmallerAt(a[1..], b[1..], k) && a[0] == b[0] { assert SmallerAt(a, b, k + 1); }
      }
    }
  }

  lemma {:induction false} BeforeTotal(a: string, b: string)
    ensures Before(a, b) || Before(b, a) || a == b
    ensures !(Before(a, b) && Before(b, a)) && !Before(a, a)
  {
    if a != [] && b != [] {
      BeforeTotal(a[1..], b[1..]);
      assert a == [a[0]] + a[1..] && b == [b[0]] + b[1..];
    }
    if a != [] { BeforeTotal(a[1..], a[1..]); }
  }

  lemma {:induction false} BeforeTransitive(a: string, b: string, c: string)
    requires Before(a, b) && Before(b, c)
    ensures Before(a, c)
  {
    if a != [] && a[0] == b[0] && b[0] == c[0] { BeforeTransitive(a[1..], b[1..], c[1..]); }
  }

  predicate Ordered(ms: seq<Member>) {
    forall i, j :: 0 <= i < j < |ms| ==> Before(ms[i].name, ms[j].name)
  }

  /** Where `name` is, or where it belongs. */
  function Place(ms: seq<Member>, name: string): (i: nat)
    ensures i <= |ms| && forall j :: 0 <= j < i ==> Before(ms[j].name, name)
    ensures i < |ms| ==> !Before(ms[i].name, name)
  {
    if ms == [] || !Before(ms[0].name, name) then 0 else 1 + Place(ms[1..], name)
  }

  predicate Has(ms: seq<Member>, name: string) {
    var i := Place(ms, name);
    i < |ms| && ms[i].name == name
  }

  /** `operator[]`: the member `name`, which is added as null if it does not exist. */
  function Get(ms: seq<Member>, name: string): Value {
    if Has(ms, name) then ms[Place(ms, name)].value else Null
  }

  function Put(ms: seq<Member>, name: string, value: Value): seq<Member> {
    var i := Place(ms, name);
    if Has(ms, name) then ms[i := Member(name, value)] else ms[..i] + [Member(name, value)] + ms[i..]
  }

  /** Members stay in order; the new one can be found, and the others do not change. */
  lemma PutKeepsOrder(ms: seq<Member>, name: string, value: Value)
    requires Ordered(ms)
    ensures Ordered(Put(ms, name, value))
    ensures Get(Put(ms, name, value), name) == value
    ensures forall m :: m in ms && m.name != name ==> m in Put(ms, name, value)
    ensures forall m :: m in Put(ms, name, value) ==> m in ms || m == Member(name, value)
  {
    hide Before, Place;
    var i, r := Place(ms, name), Put(ms, name, value);
    if Has(ms, name) {
      forall m | m in ms && m.name != name ensures m in r {
        var j :| 0 <= j < |ms| && ms[j] == m;
        assert r[j] == m;
      }
    } else {
      PutBetween(ms, name);
      assert r[i] == Member(name, value);
      assert r == ms[..i] + [Member(name, value)] + ms[i..] && ms == ms[..i] + ms[i..];
    }
    PlaceIs(r, name, i);
  }

  /** Where a new name belongs, all that follow are larger. */
  lemma PutBetween(ms: seq<Member>, name: string)
    requires Ordered(ms) && !Has(ms, name)
    ensures forall j :: Place(ms, name) <= j < |ms| ==> Before(name, ms[j].name)
  {
    hide Before;
    var i := Place(ms, name);
    forall j | i <= j < |ms| ensures Before(name, ms[j].name) {
      BeforeTotal(ms[i].name, name);
      if j > i { BeforeTransitive(name, ms[i].name, ms[j].name); }
    }
  }

  lemma PlaceIs(ms: seq<Member>, name: string, i: nat)
    requires Ordered(ms) && i < |ms| && ms[i].name == name
    ensures Place(ms, name) == i
  {
    hide Before;
    BeforeTotal(name, name);
  }

  /** A name greater than all others is added at the end. */
  lemma PutLast(ms: seq<Member>, name: string, value: Value)
    requires forall j :: 0 <= j < |ms| ==> Before(ms[j].name, name)
    ensures Put(ms, name, value) == ms + [Member(name, value)]
  {
    hide Before;
  }

  // What can be written and read back.

  /** What the source can hold: 64-bit numbers, strings without NUL, and names in order. */
  predicate Writable(v: Value) {
    match v
    case Null => true
    case Bool(_) => true
    case Int(i) => -0x8000_0000_0000_0000 <= i < 0x8000_0000_0000_0000
    case UInt(n) => n < 0x1_0000_0000_0000_0000
    case Real(d) => IsPrinted(d)
    case Str(s) => IsCString(s)
    case Array(xs) => forall i :: 0 <= i < |xs| ==> Writable(xs[i])
    case Object(ms) => Ordered(ms) && forall i :: 0 <= i < |ms| ==> IsCString(ms[i].name) && Writable(ms[i].value)
  }

  lemma ItemWritable(v: Value, i: nat)
    requires v.Array? && Writable(v) && i < |v.items|
    ensures Writable(v.items[i])
  {
  }

  lemma MemberWritable(v: Value, i: nat)
    requires v.Object? && Writable(v) && i < |v.members|
    ensures Writable(v.members[i].value) && '\0' !in v.members[i].name
  {
  }

  predicate IsCString(s: string) {
    '\0' !in s
  }

  function NumberOf(v: Value): int
    requires v.Int? || v.UInt?
  {
    if v.Int? then v.whole else v.natural
  }

  /** The same tree; numbers are compared by their value, since reading may change the tag. */
  predicate Same(v: Value, w: Value) {
    match v
    case Int(_) => (w.Int? || w.UInt?) && NumberOf(v) == NumberOf(w)
    case UInt(_) => (w.Int? || w.UInt?) && NumberOf(v) == NumberOf(w)
    case Array(xs) => w.Array? && |w.items| == |xs| && forall i :: 0 <= i < |xs| ==> Same(xs[i], w.items[i])
    case Object(ms) =>
      w.Object? && |w.members| == |ms|
      && forall i :: 0 <= i < |ms| ==> ms[i].name == w.members[i].name && Same(ms[i].value, w.members[i].value)
    case _ => v == w
  }
}
