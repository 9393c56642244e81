/** The textual keys of values: `uniqKey` for the UNIQUE index and `valKeyPart` for GROUP BY. */
module Keys {
  import opened Values

  // --- decimal text ----------------------------------------------------------

  function DigitChar(d: nat): char
    requires d < 10
  {
    "0123456789"[d]
  }

  predicate IsDigit(c: char) { '0' <= c <= '9' }

  function DigitValue(c: char): nat
    requires IsDigit(c)
  {
    c as int - '0' as int
  }

  /** Decimal digits of a natural number, no leading zeros. */
  function Digits(n: nat): (s: string)
    ensures |s| > 0 && forall i :: 0 <= i < |s| ==> IsDigit(s[i])
  {
    if n < 10 then [DigitChar(n)] else Digits(n / 10) + [DigitChar(n % 10)]
  }

  /** The number a string of digits denotes. */
  function DigitsValue(s: string): nat
    requires forall i :: 0 <= i < |s| ==> IsDigit(s[i])
  {
    if s == [] then 0
    else DigitsValue(s[..|s| - 1]) * 10 + DigitValue(s[|s| - 1])
  }

  lemma {:induction false} DigitsRoundTrip(n: nat)
    ensures DigitsValue(Digits(n)) == n
  {
    if n >= 10 {
      DigitsRoundTrip(n / 10);
      assert Digits(n)[..|Digits(n)| - 1] == Digits(n / 10);
    }
  }

  /** `strconv.FormatInt(n, 10)`. */
  function FormatInt(n: int): (s: string)
    ensures |s| > 0 && (s[0] == '-' <==> n < 0)
    ensures forall i :: 0 <= i < |s| ==> IsDigit(s[i]) || s[i] == '-'
  {
    if n >= 0 then Digits(n) else "-" + Digits(-n)
  }

  lemma FormatIntInjective(m: int, n: int)
    ensures FormatInt(m) == FormatInt(n) <==> m == n
  {
    DigitsRoundTrip(if m >= 0 then m else -m);
    DigitsRoundTrip(if n >= 0 then n else -n);
    if m < 0 && n < 0 {
      assert FormatInt(m)[1..] == Digits(-m) && FormatInt(n)[1..] == Digits(-n);
    }
  }

  // --- library renderings, used as opaque injections ---------------------------

  /** `strconv.FormatFloat(f, 'g', -1, 64)` and the RFC 3339 rendering of a time in UTC. */
  datatype Renderings = Renderings(float: Float -> string, time: int -> string)

  ghost predicate IsRendering(r: Renderings) {
    && (forall x, y :: r.float(x) == r.float(y) ==> x == y)
    && (forall x :: '\0' !in r.float(x))
    && (forall x, y :: r.time(x) == r.time(y) ==> x == y)
  }

  function SampleFloatText(x: Float): string {
    match x
    case NaN => "N"
    case NegInf => "l"
    case NegZero => "z"
    case PosInf => "g"
    case Fin(p) => FormatInt(p)
  }

  lemma SampleFloatInjective(x: Float, y: Float)
    ensures SampleFloatText(x) == SampleFloatText(y) ==> x == y
  {
    if x.Fin? && y.Fin? { FormatIntInjective(x.pos, y.pos); }
  }

  lemma SampleIsRendering()
    ensures IsRendering(Renderings(SampleFloatText, FormatInt))
  {
    forall x, y ensures SampleFloatText(x) == SampleFloatText(y) ==> x == y { SampleFloatInjective(x, y); }
    forall x, y ensures FormatInt(x) == FormatInt(y) ==> x == y { FormatIntInjective(x, y); }
  }

  type Rendering = r: Renderings | IsRendering(r)
    witness (SampleIsRendering(); Renderings(SampleFloatText, FormatInt))

  /** Arbitrary injective renderings; every result holds for all of them. */
  const Render: Rendering

  // --- uniqKey -------------------------------------------------------------------

  /** `uniqKey`: the kind letter, then the value's text. */
  function UniqKey(v: Value): string {
    match v
    case VNull => "n"
    case VInt(i) => "i" + FormatInt(i)
    case VFloat(f) => "f" + Render.float(f)
    case VText(s) => "s" + s
    case VBool(b) => if b then "b1" else "b0"
    case VTime(t) => "t" + Render.time(t)
  }

  /** No two values share a UNIQUE key. */
  lemma UniqKeyInjective(v: Value, w: Value)
    ensures UniqKey(v) == UniqKey(w) <==> v == w
  {
    var a, b := UniqKey(v), UniqKey(w);
    assert a == b ==> a[0] == b[0] && a[1..] == b[1..];
    if v.VInt? && w.VInt? { FormatIntInjective(v.i, w.i); }
  }

  // --- strconv.Quote ---------------------------------------------------------------

  function HexChar(d: nat): char
    requires d < 16
  {
    "0123456789abcdef"[d]
  }

  function HexDigitValue(c: char): nat {
    if '0' <= c <= '9' then c as int - '0' as int
    else if 'a' <= c <= 'f' then c as int - 'a' as int + 10
    else 0
  }

  /** The low `width` hexadecimal digits of n. */
  function Hex(n: nat, width: nat): (s: string)
    ensures |s| == width
    ensures '\0' !in s
  {
    if width == 0 then [] else Hex(n / 16, width - 1) + [HexChar(n % 16)]
  }

  function Pow16(w: nat): nat { if w == 0 then 1 else 16 * Pow16(w - 1) }

  function HexValue(s: string): nat {
    if s == [] then 0 else HexValue(s[..|s| - 1]) * 16 + HexDigitValue(s[|s| - 1])
  }

  lemma {:induction false} HexRoundTrip(n: nat, width: nat)
    requires n < Pow16(width)
    ensures HexValue(Hex(n, width)) == n
  {
    if width > 0 {
      HexRoundTrip(n / 16, width - 1);
      var rest := Hex(n / 16, width - 1);
      assert Hex(n, width)[..width - 1] == rest && Hex(n, width)[width - 1] == HexChar(n % 16);
      HexDigits(n % 16);
    }
  }

  lemma HexDigits(d: nat)
    requires d < 16
    ensures HexDigitValue(HexChar(d)) == d
  {
  }

  ghost predicate IsPrintability(f: char -> bool) { forall c :: c < ' ' ==> !f(c) }

  type Printability = f: char -> bool | IsPrintability(f) witness ((c: char) => c >= ' ')

  /** `unicode.IsPrint`: any predicate that rejects control characters. */
  const IsPrint: Printability

  /** The escaped form of one character inside a quoted string. */
  function Escape(c: char): string {
    if c == '"' || c == '\\' then ['\\', c]
    else if IsPrint(c) then [c]
    else if c == 7 as char then "\\a"
    else if c == 8 as char then "\\b"
    else if c == 12 as char then "\\f"
    else if c == '\n' then "\\n"
    else if c == '\r' then "\\r"
    else if c == '\t' then "\\t"
    else if c == 11 as char then "\\v"
    else if c < ' ' || c == 127 as char then "\\x" + Hex(c as int, 2)
    else if c as int < 0x10000 then "\\u" + Hex(c as int, 4)
    else "\\U" + Hex(c as int, 8)
  }

  /** Escapes form a prefix code. */
  lemma EscapePrefixFree(c: char, d: char, x: string, y: string)
    requires Escape(c) + x == Escape(d) + y
    ensures c == d && x == y
  {
    var p, q := Escape(c), Escape(d);
    var u, v := p + x, q + y;
    assert u[0] == v[0] && (|u| > 1 && |v| > 1 ==> u[1] == v[1]);
    assert u[0] == p[0] && v[0] == q[0];
    assert |p| > 1 ==> u[1] == p[1];
    assert |q| > 1 ==> v[1] == q[1];
    assert |p| == |q|;
    assert p == u[..|p|] && q == v[..|q|];
    if |p| > 2 {
      var w := |p| - 2;
      assert Pow16(2) == 256 && Pow16(4) == 0x10000 && Pow16(8) == 0x1_0000_0000;
      assert p[2..] == Hex(c as int, w) && q[2..] == Hex(d as int, w);
      HexRoundTrip(c as int, w);
      HexRoundTrip(d as int, w);
    }
    assert x == u[|p|..] && y == v[|q|..];
  }

  function EscapeAll(s: string): string {
    if s == [] then [] else Escape(s[0]) + EscapeAll(s[1..])
  }

  /** `strconv.Quote`. */
  function Quote(s: string): string { "\"" + EscapeAll(s) + "\"" }

  lemma {:induction false} EscapeAllInjective(s: string, t: string)
    requires EscapeAll(s) == EscapeAll(t)
    ensures s == t
  {
    if s != [] && t != [] {
      EscapePrefixFree(s[0], t[0], EscapeAll(s[1..]), EscapeAll(t[1..]));
      EscapeAllInjective(s[1..], t[1..]);
      assert s == [s[0]] + s[1..] && t == [t[0]] + t[1..];
    }
  }

  lemma {:induction false} EscapeAllHasNoNul(s: string)
    ensures '\0' !in EscapeAll(s)
  {
    if s != [] { EscapeAllHasNoNul(s[1..]); }
  }

  // --- valKeyPart and the group key ------------------------------------------------

  /** `valKeyPart`. A time contributes its 64-bit nanosecond count, which wraps around. */
  function KeyPart(v: Value): string {
    match v
    case VNull => "n"
    case VInt(i) => "i" + FormatInt(i)
    case VFloat(f) => "f" + Render.float(f)
    case VText(s) => "s" + Quote(s)
    case VBool(b) => if b then "b1" else "b0"
    case VTime(t) => "t" + FormatInt(Wrap64(t))
  }

  /** Grouping identifies two values exactly when they are equal, except that times are identified
      modulo 2^64 nanoseconds. */
  predicate SameGroupValue(v: Value, w: Value) {
    v == w || (v.VTime? && w.VTime? && Wrap64(v.t) == Wrap64(w.t))
  }

  lemma KeyPartInjective(v: Value, w: Value)
    ensures KeyPart(v) == KeyPart(w) <==> SameGroupValue(v, w)
  {
    var a, b := KeyPart(v), KeyPart(w);
    assert a == b ==> a[0] == b[0] && a[1..] == b[1..];
    if v.VInt? && w.VInt? { FormatIntInjective(v.i, w.i); }
    if v.VTime? && w.VTime? { FormatIntInjective(Wrap64(v.t), Wrap64(w.t)); }
    if v.VText? && w.VText? && a == b {
      var p, q := Quote(v.s), Quote(w.s);
      assert p == a[1..] && q == b[1..];
      assert p[1..|p| - 1] == EscapeAll(v.s) && q[1..|q| - 1] == EscapeAll(w.s);
      EscapeAllInjective(v.s, w.s);
    }
  }

  lemma KeyPartHasNoNul(v: Value)
    ensures '\0' !in KeyPart(v)
  {
    if v.VText? { EscapeAllHasNoNul(v.s); }
  }

  /** The key of a tuple: each part followed by a NUL byte. */
  function GroupKey(vs: seq<Value>): string {
    if vs == [] then [] else KeyPart(vs[0]) + "\0" + GroupKey(vs[1..])
  }

  function BeforeNul(s: string): string {
    if s == [] || s[0] == '\0' then [] else [s[0]] + BeforeNul(s[1..])
  }

  lemma {:induction false} BeforeNulOf(p: string, x: string)
    requires '\0' !in p
    ensures BeforeNul(p + "\0" + x) == p
  {
    var u := p + "\0" + x;
    if p != [] {
      BeforeNulOf(p[1..], x);
      assert u[1..] == p[1..] + "\0" + x;
    }
  }

  lemma SplitAtNul(p: string, x: string, q: string, y: string)
    requires '\0' !in p && '\0' !in q
    requires p + "\0" + x == q + "\0" + y
    ensures p == q && x == y
  {
    BeforeNulOf(p, x);
    BeforeNulOf(q, y);
    var u, v := p + "\0" + x, q + "\0" + y;
    assert x == u[|p| + 1..] && y == v[|q| + 1..];
  }

  /** Two tuples have the same group key exactly when they agree position by position. */
  lemma {:induction false} GroupKeyInjective(vs: seq<Value>, ws: seq<Value>)
    ensures GroupKey(vs) == GroupKey(ws) <==>
            |vs| == |ws| && forall i :: 0 <= i < |vs| ==> SameGroupValue(vs[i], ws[i])
  {
    if vs != [] && ws != [] {
      KeyPartHasNoNul(vs[0]);
      KeyPartHasNoNul(ws[0]);
      KeyPartInjective(vs[0], ws[0]);
      GroupKeyInjective(vs[1..], ws[1..]);
      if GroupKey(vs) == GroupKey(ws) {
        SplitAtNul(KeyPart(vs[0]), GroupKey(vs[1..]), KeyPart(ws[0]), GroupKey(ws[1..]));
        forall i | 0 <= i < |vs| ensures SameGroupValue(vs[i], ws[i]) {
          if i > 0 { assert vs[i] == vs[1..][i - 1] && ws[i] == ws[1..][i - 1]; }
        }
      }
    }
  }
}
