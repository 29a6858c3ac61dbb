/** Real numbers as JSON text.

    A real number is represented by the text that the C library prints for it with 16 digits.
    The printer removes zeros at the end of that text. */
module JsonReal {
  import opened Wrappers
  import opened JsonText

  /** What the library prints has at least one character: letters, digits, signs and points. */
  predicate IsPrinted(d: string) {
    d != [] && forall i :: 0 <= i < |d| ==> IsDigit(d[i]) || 'a' <= d[i] <= 'z' || 'A' <= d[i] <= 'Z' || d[i] in "+-."
  }

  /** The last character that is no zero, or the first one. */
  function LastNonzero(d: string): (i: nat)
    requires d != []
    ensures i < |d| && (i == 0 || d[i] != '0') && forall j :: i < j < |d| ==> d[j] == '0'
  {
    if |d| > 1 && d[|d| - 1] == '0' then LastNonzero(d[..|d| - 1]) else |d| - 1
  }

  /** The decimal point at or before `i`, if there are only digits in between. */
  function PointBefore(d: string, i: nat): (r: Option<nat>)
    requires i < |d|
    ensures r.Some? ==> r.value <= i && d[r.value] == '.' && forall j :: r.value < j <= i ==> IsDigit(d[j])
  {
    if d[i] == '.' then Some(i) else if !IsDigit(d[i]) || i == 0 then None else PointBefore(d, i - 1)
  }

  /** The text without the zeros at its end, but for one. */
  function Shortened(d: string): (t: string)
    ensures t <= d && (IsPrinted(d) ==> IsPrinted(t))
  {
    if d == [] || d[|d| - 1] != '0' || PointBefore(d, LastNonzero(d)).None? then d else d[..LastNonzero(d) + 2]
  }

  /** `valueToString` for real numbers. */
  method RealToString(d: string) returns (t: string)
    requires IsPrinted(d)
    ensures t == Shortened(d)
  {
    var ch: int := |d| - 1;
    if d[ch] != '0' {
      return d;
    }
    while ch > 0 && d[ch] == '0'
      invariant 0 <= ch < |d| && LastNonzero(d) == LastNonzero(d[..ch + 1])
    {
      assert d[..ch + 1][..ch] == d[..ch];
      ch := ch - 1;
    }
    var lastNonzero: nat := ch;
    assert LastNonzero(d) == lastNonzero;
    while ch >= 0
      invariant -1 <= ch <= lastNonzero
      invariant PointBefore(d, lastNonzero) == if ch >= 0 then PointBefore(d, ch) else None
    {
      if IsDigit(d[ch]) {
        ch := ch - 1;
      } else if d[ch] == '.' {
        return d[..lastNonzero + 2];
      } else {
        return d;
      }
    }
    return d;
  }

  // When a text is shortened.

  /** Behind the decimal point there are only digits, and the last two of them are zeros. */
  ghost predicate EndsInZeros(d: string) {
    && |d| >= 3 && d[|d| - 1] == '0' && d[|d| - 2] == '0'
    && exists dot: nat :: dot < |d| - 2 && d[dot] == '.' && forall j :: dot < j < |d| ==> IsDigit(d[j])
  }

  lemma {:induction false} PointIsFound(d: string, i: nat, dot: nat)
    requires dot <= i < |d| && d[dot] == '.' && forall j :: dot < j <= i ==> IsDigit(d[j])
    ensures PointBefore(d, i).Some?
    decreases i
  {
    if d[i] != '.' { PointIsFound(d, i - 1, dot); }
  }

  /** Exactly these texts are shortened. */
  lemma ShortenedWhen(d: string)
    ensures Shortened(d) != d <==> EndsInZeros(d)
  {
    if EndsInZeros(d) {
      var dot: nat :| dot < |d| - 2 && d[dot] == '.' && forall j :: dot < j < |d| ==> IsDigit(d[j]);
      PointIsFound(d, LastNonzero(d), dot);
    }
    if Shortened(d) != d {
      var i := LastNonzero(d);
      var dot := PointBefore(d, i).value;
      assert dot < |d| - 2 && forall j :: dot < j < |d| ==> IsDigit(d[j]);
    }
  }

  // The number stays the same.

  /** The number that digits behind the point denote. */
  function Fraction(s: string): real
    requires forall i :: 0 <= i < |s| ==> IsDigit(s[i])
  {
    if s == [] then 0.0
    else
      assert IsDigit(s[0]);
      ((s[0] as int - '0' as int) as real + Fraction(s[1..])) / 10.0
  }

  lemma {:induction false} ZerosAdd(s: string, zeros: string)
    requires forall i :: 0 <= i < |s| ==> IsDigit(s[i])
    requires forall i :: 0 <= i < |zeros| ==> zeros[i] == '0'
    ensures forall i :: 0 <= i < |s + zeros| ==> IsDigit((s + zeros)[i])
    ensures Fraction(s + zeros) == Fraction(s)
    decreases |s| + |zeros|
  {
    if s != [] {
      assert (s + zeros)[1..] == s[1..] + zeros;
      ZerosAdd(s[1..], zeros);
    } else if zeros != [] {
      assert s + zeros == zeros && zeros[1..] == [] + zeros[1..];
      ZerosAdd([], zeros[1..]);
    }
  }

  /** Only zeros behind the point are removed, one digit stays there, and the digits denote the
      same fraction. */
  lemma ShortenedIsSame(d: string) returns (dot: nat)
    requires Shortened(d) != d
    ensures dot + 1 < |Shortened(d)| < |d| && d[dot] == '.'
    ensures forall i :: dot < i < |d| ==> IsDigit(d[i])
    ensures Fraction(Shortened(d)[dot + 1..]) == Fraction(d[dot + 1..])
    ensures Shortened(d)[|Shortened(d)| - 1] == '0' && (|Shortened(d)| == dot + 2 || d[|Shortened(d)| - 2] != '0')
  {
    var i, t := LastNonzero(d), Shortened(d);
    dot := PointBefore(d, i).value;
    var s, zeros := t[dot + 1..], d[|t|..];
    assert d[dot + 1..] == s + zeros;
    ZerosAdd(s, zeros);
  }
}
