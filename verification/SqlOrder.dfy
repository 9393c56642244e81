/** The order of SQL values, defined apart from the code's comparison, and the agreement of the two. */
module SqlOrder {
  import opened Values

  /** a comes before b in a dictionary: a proper prefix, or a smaller character at the first difference. */
  predicate TextBelow(a: string, b: string) { exists k :: 0 <= k <= |a| && TextSplitsAt(a, b, k) }

  predicate TextSplitsAt(a: string, b: string, k: int) {
    0 <= k <= |a| && k < |b| && a[..k] == b[..k] && (k == |a| || a[k] < b[k])
  }

  /** Where a float stands: below all finite ones, among them, or above. */
  function Level(f: Float): int
    requires f != NaN
  {
    if f == NegInf then -1 else if f == PosInf then 1 else 0
  }

  predicate NumberBelow(a: Float, b: Float) {
    && a != NaN && b != NaN
    && (Level(a) < Level(b) || (Level(a) == 0 == Level(b) && Magnitude(a) < Magnitude(b)))
  }

  /** NULL, numbers, texts, truth values, times. */
  function Class(v: Value): nat {
    match v
    case VNull => 0
    case VInt(_) => 1
    case VFloat(_) => 1
    case VText(_) => 2
    case VBool(_) => 3
    case VTime(_) => 4
  }

  /** v stands before w. NaN stands neither before nor behind any number. */
  predicate Below(v: Value, w: Value) {
    Class(v) < Class(w) ||
    match (v, w)
    case (VText(a), VText(b)) => TextBelow(a, b)
    case (VBool(a), VBool(b)) => !a && b
    case (VTime(a), VTime(b)) => a < b
    case _ => IsNumeric(v) && IsNumeric(w) && NumberBelow(AsFloat(v), AsFloat(w))
  }

  lemma {:induction false} CompareTextIsDictionary(a: string, b: string)
    ensures CompareText(a, b) < 0 <==> TextBelow(a, b)
    decreases |a|
  {
    if a == [] || b == [] || a[0] != b[0] {
      if a == [] && b != [] { assert TextSplitsAt(a, b, 0); }
      if a != [] && b != [] && a[0] < b[0] { assert TextSplitsAt(a, b, 0); }
      if TextBelow(a, b) {
        var k :| 0 <= k <= |a| && TextSplitsAt(a, b, k);
        if k > 0 { assert a[..k][0] == b[..k][0]; }
      }
    } else {
      CompareTextIsDictionary(a[1..], b[1..]);
      if TextBelow(a[1..], b[1..]) {
        var k :| 0 <= k <= |a[1..]| && TextSplitsAt(a[1..], b[1..], k);
        assert a[..k + 1] == [a[0]] + a[1..][..k] && b[..k + 1] == [b[0]] + b[1..][..k];
        assert TextSplitsAt(a, b, k + 1);
      }
      if TextBelow(a, b) {
        var k :| 0 <= k <= |a| && TextSplitsAt(a, b, k);
        assert k > 0;
        assert a[1..][..k - 1] == a[..k][1..] && b[1..][..k - 1] == b[..k][1..];
        assert TextSplitsAt(a[1..], b[1..], k - 1);
      }
    }
  }

  /** The code's comparison is this order, in both directions. */
  lemma CompareIsOrder(v: Value, w: Value)
    ensures Compare(v, w) < 0 <==> Below(v, w)
    ensures Compare(v, w) > 0 <==> Below(w, v)
  {
    if v.VText? && w.VText? {
      CompareTextIsDictionary(v.s, w.s);
      CompareTextIsDictionary(w.s, v.s);
      CompareTextAntisymmetric(v.s, w.s);
    }
  }

  /** On integers it is the order of the integers as long as one of them is below 2^53; beyond, distinct
      integers may round to the same float and then compare equal, but never the wrong way round. */
  lemma IntegerOrder(x: int64, y: int64)
    ensures Below(VInt(x), VInt(y)) ==> x < y
    ensures Below(VInt(x), VInt(y)) <==> x < y && Round(x) != Round(y)
    ensures -TWO_53 < x < TWO_53 || -TWO_53 < y < TWO_53 ==> (Below(VInt(x), VInt(y)) <==> x < y)
  {
    if -TWO_53 < x < TWO_53 { SmallIntIsExact(x, y); }
    if -TWO_53 < y < TWO_53 { SmallIntIsExact(y, x); }
    if x <= y { assert Round(x) <= Round(y); } else { assert Round(y) <= Round(x); }
  }

  /** 2^53 and 2^53 + 1 compare equal. */
  lemma LargeIntegersCollide()
    ensures !Below(VInt(TWO_53), VInt(TWO_53 + 1)) && !Below(VInt(TWO_53 + 1), VInt(TWO_53))
  {
    assert Round(TWO_53 + 1) == Round(TWO_53);
  }
}
