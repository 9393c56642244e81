/** SQL cell values, their comparison and the column type check. */
module Values {

  const MIN_INT64: int := -0x8000_0000_0000_0000
  const MAX_INT64: int := 0x7fff_ffff_ffff_ffff
  const TWO_64: int := 0x1_0000_0000_0000_0000
  const TWO_53: int := 0x20_0000_0000_0000

  type int64 = i: int | MIN_INT64 <= i <= MAX_INT64

  /** Two's complement truncation to 64 bits, the meaning of overflowing `int64` arithmetic. */
  function Wrap64(n: int): (r: int64)
    ensures (n - r) % TWO_64 == 0
    ensures MIN_INT64 <= n <= MAX_INT64 ==> r == n
  {
    var m := n % TWO_64;
    if m <= MAX_INT64 then m else m - TWO_64
  }

  /** A float64. A finite float is named by its position in the order of the finite floats, with
      0 for zero. Negative zero is kept apart: it compares equal to zero but prints differently. */
  datatype Float = NaN | NegInf | Fin(pos: int) | NegZero | PosInf

  /** The conversions `float64(i)` and `int64(f)` on finite floats. */
  datatype Conversion = Conversion(round: int -> int, trunc: int -> int64)

  /** Rounding is monotone, strictly so up to 2^53, and not injective beyond (2^53 + 1 rounds to
      even); truncation inverts it on the exact range. Nothing else about floats is used. */
  ghost predicate IsConversion(c: Conversion) {
    && (forall i, j :: i <= j ==> c.round(i) <= c.round(j))
    && (forall i, j :: -TWO_53 <= i < j <= TWO_53 ==> c.round(i) < c.round(j))
    && c.round(0) == 0
    && c.round(TWO_53 + 1) == c.round(TWO_53)
    && (forall i :: -TWO_53 <= i <= TWO_53 ==> c.trunc(c.round(i)) == i)
  }

  type FloatConversion = c: Conversion | IsConversion(c)
    witness Conversion((i: int) => if i == TWO_53 + 1 then TWO_53 else i,
                       (p: int) => if MIN_INT64 <= p <= MAX_INT64 then p else MIN_INT64)

  /** An arbitrary conversion; every result holds for all of them. */
  const Convert: FloatConversion

  function Round(i: int): int { Convert.round(i) }

  datatype Value =
    | VNull
    | VInt(i: int64)
    | VFloat(f: Float)
    | VText(s: string)
    | VBool(b: bool)
    | VTime(t: int)  // nanoseconds since the epoch

  predicate IsNaN(v: Value) { v.VFloat? && v.f.NaN? }

  predicate IsNumeric(v: Value) { v.VInt? || v.VFloat? }

  function KindRank(v: Value): nat {
    match v
    case VNull => 0
    case VInt(_) => 1
    case VFloat(_) => 2
    case VText(_) => 3
    case VBool(_) => 4
    case VTime(_) => 5
  }

  // --- float order ---------------------------------------------------------

  function FloatLess(a: Float, b: Float): bool {
    match (a, b)
    case (NaN, _) => false
    case (_, NaN) => false
    case (NegInf, _) => b != NegInf
    case (_, PosInf) => a != PosInf
    case (PosInf, _) => false
    case (_, NegInf) => false
    case _ => Magnitude(a) < Magnitude(b)
  }

  function Magnitude(a: Float): int
    requires a.Fin? || a.NegZero?
  {
    if a.Fin? then a.pos else 0
  }

  function AsFloat(v: Value): Float
    requires IsNumeric(v)
  {
    match v
    case VInt(i) => Fin(Round(i))
    case VFloat(f) => f
  }

  // --- text order ----------------------------------------------------------

  function CompareText(a: string, b: string): (c: int)
    ensures c == -1 || c == 0 || c == 1
  {
    if a == [] then (if b == [] then 0 else -1)
    else if b == [] then 1
    else if a[0] < b[0] then -1
    else if a[0] > b[0] then 1
    else CompareText(a[1..], b[1..])
  }

  function CompareInt(a: int, b: int): int {
    if a < b then -1 else if a > b then 1 else 0
  }

  function CompareFloat(a: Float, b: Float): int {
    if FloatLess(a, b) then -1 else if FloatLess(b, a) then 1 else 0
  }

  /** `Value.Compare`: NULL first, numbers against each other as floats, other kinds by kind. */
  function Compare(v: Value, o: Value): int {
    if v.VNull? && o.VNull? then 0
    else if v.VNull? then -1
    else if o.VNull? then 1
    else if IsNumeric(v) && IsNumeric(o) then CompareFloat(AsFloat(v), AsFloat(o))
    else if KindRank(v) != KindRank(o) then (if KindRank(v) < KindRank(o) then -1 else 1)
    else match v
      case VText(s) => CompareText(s, o.s)
      case VBool(b) => if b == o.b then 0 else if !b then -1 else 1
      case VTime(t) => CompareInt(t, o.t)
      case _ => 0
  }

  lemma {:induction false} CompareTextAntisymmetric(a: string, b: string)
    ensures CompareText(a, b) == -CompareText(b, a)
    ensures CompareText(a, b) == 0 <==> a == b
  {
    if a != [] && b != [] && a[0] == b[0] {
      CompareTextAntisymmetric(a[1..], b[1..]);
      assert a == [a[0]] + a[1..] && b == [b[0]] + b[1..];
    }
  }

  lemma {:induction false} CompareTextTransitive(a: string, b: string, c: string)
    requires CompareText(a, b) <= 0 && CompareText(b, c) <= 0
    ensures CompareText(a, c) <= 0
  {
    if a != [] && b != [] && c != [] && a[0] == b[0] == c[0] {
      CompareTextTransitive(a[1..], b[1..], c[1..]);
    }
  }

  /** Swapping the operands negates the result, and every value equals itself. */
  lemma CompareAntisymmetric(a: Value, b: Value)
    ensures Compare(a, b) == -Compare(b, a)
    ensures Compare(a, a) == 0
  {
    if a.VText? && b.VText? { CompareTextAntisymmetric(a.s, b.s); }
    if a.VText? { CompareTextAntisymmetric(a.s, a.s); }
  }

  /** Transitivity fails for exactly one family: a NaN between two numbers that are out of order. */
  lemma CompareTransitive(a: Value, b: Value, c: Value)
    ensures (Compare(a, b) <= 0 && Compare(b, c) <= 0 ==> Compare(a, c) <= 0) <==>
            !(IsNaN(b) && IsNumeric(a) && IsNumeric(c) && Compare(a, c) > 0)
  {
    if a.VText? && b.VText? && c.VText? && Compare(a, b) <= 0 && Compare(b, c) <= 0 {
      CompareTextTransitive(a.s, b.s, c.s);
    }
  }

  /** NaN really breaks the order: 2 <= NaN <= 1 but not 2 <= 1. */
  lemma NaNBreaksOrder()
    ensures Compare(VInt(2), VFloat(NaN)) <= 0 && Compare(VFloat(NaN), VInt(1)) <= 0
    ensures Compare(VInt(2), VInt(1)) > 0
  {
    assert Round(1) < Round(2);
  }

  /** Below 2^53 an integer is the only one with its rounding. */
  lemma SmallIntIsExact(n: int, m: int)
    requires -TWO_53 < n < TWO_53
    ensures Round(m) == Round(n) <==> m == n
  {
    if m > n {
      assert Round(n) < Round(n + 1) <= Round(m);
    } else if m < n {
      assert Round(m) <= Round(n - 1) < Round(n);
    }
  }

  // --- column types --------------------------------------------------------

  datatype ColumnType = TInt | TBigint | TFloat | TText | TBool | TTimestamp

  datatype Option<+T> = None | Some(value: T)

  /** `int64(f)`: infinities and NaN give the minimum, as on amd64. */
  function TruncToInt64(f: Float): int64 {
    match f
    case Fin(p) => Convert.trunc(p)
    case NegZero => 0
    case _ => MIN_INT64
  }

  /** `f == float64(n)` on floats. */
  predicate FloatEqualsInt(f: Float, n: int) {
    (f.Fin? || f.NegZero?) && Magnitude(f) == Round(n)
  }

  /** `ColumnType.Check`: the stored form of `v`, or None for the type error. */
  function Check(ct: ColumnType, v: Value): Option<Value> {
    match (ct, v)
    case (_, VNull) => Some(VNull)
    case (TInt, VInt(_)) => Some(v)
    case (TInt, VFloat(f)) => CheckIntegral(f)
    case (TBigint, VInt(_)) => Some(v)
    case (TBigint, VFloat(f)) => CheckIntegral(f)
    case (TFloat, VFloat(_)) => Some(v)
    case (TFloat, VInt(i)) => Some(VFloat(Fin(Round(i))))
    case (TText, VText(_)) => Some(v)
    case (TBool, VBool(_)) => Some(v)
    case (TBool, VInt(i)) => Some(VBool(i != 0))
    case (TTimestamp, VTime(_)) => Some(v)
    case _ => None
  }

  function CheckIntegral(f: Float): Option<Value> {
    var n := TruncToInt64(f);
    if FloatEqualsInt(f, n) then Some(VInt(n)) else None
  }

  /** The kinds a column may hold: NULL or the kind of its type. */
  predicate HasKind(ct: ColumnType, v: Value) {
    v.VNull? ||
    match ct
    case TInt => v.VInt?
    case TBigint => v.VInt?
    case TFloat => v.VFloat?
    case TText => v.VText?
    case TBool => v.VBool?
    case TTimestamp => v.VTime?
  }

  /** What a column takes: values of its kind and NULL, integers for FLOAT and BOOL, and for the integer
      types floats that are whole numbers of 64 bits. */
  predicate Storable(ct: ColumnType, v: Value) {
    || HasKind(ct, v)
    || (v.VInt? && (ct.TFloat? || ct.TBool?))
    || (v.VFloat? && (ct.TInt? || ct.TBigint?) && FloatEqualsInt(v.f, TruncToInt64(v.f)))
  }

  /** A value is accepted exactly if the column takes it; one of the column's kind is stored as it is, an
      integer in a BOOL column as whether it is not zero, a whole float in an integer column as that
      integer. NaN and the infinities are no whole numbers. */
  lemma CheckAccepts(ct: ColumnType, v: Value, i: int64)
    ensures Check(ct, v).Some? <==> Storable(ct, v)
    ensures HasKind(ct, v) ==> Check(ct, v) == Some(v)
    ensures Check(TBool, VInt(i)) == Some(VBool(i != 0)) && Check(TFloat, VInt(i)) == Some(VFloat(Fin(Round(i))))
    ensures (ct.TInt? || ct.TBigint?) && -TWO_53 <= i <= TWO_53 ==> Check(ct, VFloat(Fin(Round(i)))) == Some(VInt(i))
    ensures (ct.TInt? || ct.TBigint?) && v.VFloat? && !(v.f.Fin? || v.f.NegZero?) ==> Check(ct, v).None?
  {
  }

  /** A checked value has its column's kind, checking again changes nothing, and a numeric literal
      stored in a numeric column still compares equal to itself. */
  lemma CheckStoresKind(ct: ColumnType, v: Value)
    ensures Check(ct, v).Some? ==>
      var w := Check(ct, v).value;
      && HasKind(ct, w)
      && Check(ct, w) == Some(w)
      && (w.VNull? <==> v.VNull?)
      && (!(ct.TBool? && v.VInt?) ==> Compare(v, w) == 0)
  {
    CompareAntisymmetric(v, v);
  }
}
