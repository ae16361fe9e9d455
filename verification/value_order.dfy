/** The order-preserving encoding of attribute values: byte order is value order, no
    encoding begins another, and an encoding followed by anything decodes. */
module ValueOrder {
  import opened Prelude
  import opened AttrValue
  import opened ByteOrder

  const SIGN_64 := 0x8000_0000_0000_0000

  // --- signed integers -----------------------------------------------------------------

  type Int64 = n: int | -0x8000_0000_0000_0000 <= n < 0x8000_0000_0000_0000

  /** The bits of a signed integer, in two's complement. */
  function TwosComplement(v: Int64): (u: U64) {
    if v < 0 then v + 0x1_0000_0000_0000_0000 else v
  }

  /** Exclusive or with the sign bit. */
  function FlipSign(u: U64): (r: U64) {
    if u >= SIGN_64 then u - SIGN_64 else u + SIGN_64
  }

  function PutInt64(v: Int64): Bytes {
    SpanOfWords();
    BigEndian(FlipSign(TwosComplement(v)), 8)
  }

  function GetInt64(b: Bytes): Result<(Int64, Bytes)> {
    if |b| < 8 then Err(Corruption)
    else
      SpanOfWords();
      var u := FlipSign(FromBigEndian(b[..8]));
      Ok((if u >= SIGN_64 then u - 0x1_0000_0000_0000_0000 else u, b[8..]))
  }

  lemma Int64Orders(u: Int64, v: Int64, x: Bytes, y: Bytes)
    ensures Lt(PutInt64(u) + x, PutInt64(v) + y) <==> u < v || (u == v && Lt(x, y))
  {
    SpanOfWords();
    BigEndianOrders(FlipSign(TwosComplement(u)), FlipSign(TwosComplement(v)), 8, x, y);
  }

  lemma Int64Decodes(v: Int64, rest: Bytes)
    ensures GetInt64(PutInt64(v) + rest) == Ok((v, rest))
  {
    SpanOfWords();
    var u := FlipSign(TwosComplement(v));
    BigEndianDecodes(u, 8);
    assert (PutInt64(v) + rest)[..8] == BigEndian(u, 8);
    assert (PutInt64(v) + rest)[8..] == rest;
  }

  // --- floats ----------------------------------------------------------------------------

  /** A binary interchange format of IEEE 754-2019 section 3.4: one sign bit, a biased
      exponent, and a fraction; `frac` and `sign` are the weights of the lowest exponent
      bit and of the sign bit, `inf` the bits of positive infinity. */
  datatype Format = Format(width: nat, frac: nat, sign: nat, inf: nat)

  const BINARY32 := Format(4, 0x80_0000, 0x8000_0000, 0x7F80_0000)
  const BINARY64 := Format(8, 0x10_0000_0000_0000, SIGN_64, 0x7FF0_0000_0000_0000)

  predicate IsFormat(f: Format) {
    f == BINARY32 || f == BINARY64
  }

  predicate IsBits(f: Format, bits: nat) {
    bits < 2 * f.sign
  }

  function Magnitude(f: Format, bits: nat): nat {
    if bits >= f.sign then bits - f.sign else bits
  }

  predicate IsNaN(f: Format, bits: nat) {
    Magnitude(f, bits) > f.inf
  }

  function Pow2(n: nat): (p: nat)
    ensures p >= 1
  {
    if n == 0 then 1 else 2 * Pow2(n - 1)
  }

  /** A magnitude as a multiple of the format's smallest positive number: subnormal
      below the first exponent, then a leading one shifted by the exponent. Infinity
      gets the first value past the largest finite one. */
  function Scaled(f: Format, m: nat): int
    requires IsFormat(f)
  {
    Weight(f.frac, m / f.frac, m % f.frac)
  }

  function Weight(frac: nat, exponent: nat, fraction: nat): int {
    if exponent == 0 then fraction else (frac + fraction) * Pow2(exponent - 1)
  }

  /** The number the bits stand for, in the same unit. */
  function Number(f: Format, bits: nat): int
    requires IsFormat(f)
  {
    if bits >= f.sign then -Scaled(f, Magnitude(f, bits)) else Scaled(f, Magnitude(f, bits))
  }

  /** Every bit inverted below zero; the sign bit set otherwise. */
  function OrderFloat(f: Format, bits: nat): (r: nat)
    requires IsFormat(f) && IsBits(f, bits)
    ensures IsBits(f, r)
  {
    if bits >= f.sign then 2 * f.sign - 1 - bits else bits + f.sign
  }

  function UnorderFloat(f: Format, bits: nat): (r: nat)
    requires IsFormat(f) && IsBits(f, bits)
    ensures IsBits(f, r)
  {
    if bits >= f.sign then bits - f.sign else 2 * f.sign - 1 - bits
  }

  lemma FloatBitsReturn(f: Format, bits: nat)
    requires IsFormat(f) && IsBits(f, bits)
    ensures UnorderFloat(f, OrderFloat(f, bits)) == bits && OrderFloat(f, UnorderFloat(f, bits)) == bits
  {
  }

  lemma {:induction false} Pow2Increases(a: nat, b: nat)
    requires a <= b
    ensures Pow2(a) <= Pow2(b)
    decreases b
  {
    if a < b {
      Pow2Increases(a, b - 1);
    }
  }

  lemma Scales(a: nat, b: nat, p: nat)
    requires a <= b
    ensures a * p <= b * p && (a < b && p >= 1 ==> a * p < b * p)
  {
    if a < b {
      assert b * p == a * p + (b - a) * p;
    }
  }

  lemma SameExponentWeighs(frac: nat, e: nat, x: nat, y: nat)
    requires x < y
    ensures Weight(frac, e, x) < Weight(frac, e, y)
  {
    if e > 0 {
      Scales(frac + x, frac + y, Pow2(e - 1));
    }
  }

  /** The next exponent starts at twice the leading one, past every fraction. */
  lemma NextExponentWeighs(frac: nat, e: nat, x: nat)
    requires x < frac
    ensures Weight(frac, e, x) < frac * Pow2(e)
  {
    if e == 0 {
      assert Pow2(0) == 1;
    } else {
      Scales(frac + x, frac + frac, Pow2(e - 1));
      Doubles(frac, Pow2(e - 1));
    }
  }

  lemma Doubles(a: nat, q: nat)
    ensures (a + a) * q == a * (2 * q)
  {
    assert (a + a) * q == a * q + a * q;
  }

  lemma LargerExponentWeighs(frac: nat, e: nat, x: nat, d: nat, y: nat)
    requires x < frac && e < d
    ensures Weight(frac, e, x) < Weight(frac, d, y)
  {
    NextExponentWeighs(frac, e, x);
    Pow2Increases(e, d - 1);
    Scales(Pow2(e), Pow2(d - 1), frac);
    Scales(frac, frac + y, Pow2(d - 1));
  }

  /** A larger magnitude is a larger number: the exponent outweighs every fraction. */
  lemma ScaledIncreases(f: Format, m: nat, n: nat)
    requires IsFormat(f) && m < n
    ensures Scaled(f, m) < Scaled(f, n)
  {
    var e, x := m / f.frac, m % f.frac;
    var d, y := n / f.frac, n % f.frac;
    assert e < d || (e == d && x < y);
    if e < d {
      LargerExponentWeighs(f.frac, e, x, d, y);
    } else {
      SameExponentWeighs(f.frac, e, x, y);
    }
  }

  lemma ScaledCompares(f: Format, m: nat, n: nat)
    requires IsFormat(f)
    ensures m < n <==> Scaled(f, m) < Scaled(f, n)
    ensures Scaled(f, m) >= 0 && (Scaled(f, m) == 0 <==> m == 0)
  {
    if m < n {
      ScaledIncreases(f, m, n);
    } else if n < m {
      ScaledIncreases(f, n, m);
    }
    assert Scaled(f, 0) == 0;
    if m > 0 {
      ScaledIncreases(f, 0, m);
    }
  }

  /** The transform orders bits as the numbers they stand for, with the negative zero
      put below the positive one. */
  lemma FloatOrders(f: Format, a: nat, b: nat)
    requires IsFormat(f) && IsBits(f, a) && IsBits(f, b) && !IsNaN(f, a) && !IsNaN(f, b)
    ensures OrderFloat(f, a) < OrderFloat(f, b) <==>
            Number(f, a) < Number(f, b) || (Number(f, a) == Number(f, b) && a == f.sign && b == 0)
  {
    ScaledCompares(f, Magnitude(f, a), Magnitude(f, b));
    ScaledCompares(f, Magnitude(f, b), Magnitude(f, a));
  }

  function PutFloat(f: Format, bits: nat): Bytes
    requires IsFormat(f) && IsBits(f, bits)
  {
    SpanOfWords();
    BigEndian(OrderFloat(f, bits), f.width)
  }

  lemma FloatEncodingOrders(f: Format, a: nat, b: nat, x: Bytes, y: Bytes)
    requires IsFormat(f) && IsBits(f, a) && IsBits(f, b) && !IsNaN(f, a) && !IsNaN(f, b) && a != b
    ensures Lt(PutFloat(f, a) + x, PutFloat(f, b) + y) <==>
            Number(f, a) < Number(f, b) || (Number(f, a) == Number(f, b) && a == f.sign && b == 0)
  {
    SpanOfWords();
    FloatOrders(f, a, b);
    BigEndianOrders(OrderFloat(f, a), OrderFloat(f, b), f.width, x, y);
  }

  /** The float decoders of both widths: the bits off the head, and what follows. */
  function GetFloat(f: Format, b: Bytes): (r: Result<(nat, Bytes)>)
    requires IsFormat(f)
    ensures r.Ok? ==> IsBits(f, r.value.0)
  {
    SpanOfWords();
    if |b| < f.width then Err(Corruption)
    else Ok((UnorderFloat(f, FromBigEndian(b[..f.width])), b[f.width..]))
  }

  lemma FloatEncodes(f: Format, b: Bytes)
    requires IsFormat(f) && |b| >= f.width
    ensures b == PutFloat(f, GetFloat(f, b).value.0) + GetFloat(f, b).value.1
  {
    SpanOfWords();
    var head := b[..f.width];
    BigEndianEncodes(head);
    FloatBitsReturn(f, FromBigEndian(head));
    assert b == head + b[f.width..];
  }

  /** Every bit pattern of either width comes back, infinities, both zeros and NaNs too,
      with whatever followed it; and bytes that decode are the encoding of what they
      decode to. */
  lemma FloatDecodes(f: Format, bits: nat, b: Bytes, rest: Bytes)
    requires IsFormat(f) && IsBits(f, bits)
    ensures GetFloat(f, b) == Ok((bits, rest)) <==> b == PutFloat(f, bits) + rest
  {
    SpanOfWords();
    if b == PutFloat(f, bits) + rest {
      BigEndianDecodes(OrderFloat(f, bits), f.width);
      FloatBitsReturn(f, bits);
      assert b[..f.width] == PutFloat(f, bits) && b[f.width..] == rest;
    }
    if |b| >= f.width {
      FloatEncodes(f, b);
    }
  }

  // --- strings -----------------------------------------------------------------------------

  /** One byte as the key writes it: a zero byte is escaped. */
  function Unit(c: byte): Bytes {
    if c == 0 then [0, 255] else [c]
  }

  function Body(s: Bytes): Bytes {
    if s == [] then [] else Unit(s[0]) + Body(s[1..])
  }

  const TERMINATOR: Bytes := [0, 0]

  function Escaped(s: Bytes): Bytes {
    Body(s) + TERMINATOR
  }

  lemma {:induction false} BodyOneMore(s: Bytes, c: byte)
    ensures Body(s + [c]) == Body(s) + Unit(c)
  {
    if s == [] {
      assert s + [c] == [c] && [c][1..] == [];
    } else {
      BodyOneMore(s[1..], c);
      assert (s + [c])[0] == s[0] && (s + [c])[1..] == s[1..] + [c];
      Regroup(Unit(s[0]), Body(s[1..]), Unit(c));
    }
  }

  lemma EscapedSplits(s: Bytes, x: Bytes)
    requires s != []
    ensures Escaped(s) + x == Unit(s[0]) + (Escaped(s[1..]) + x)
    ensures (Escaped(s) + x)[0] == s[0] && (s[0] == 0 ==> (Escaped(s) + x)[1] == 255)
  {
    Regroup(Unit(s[0]), Body(s[1..]), TERMINATOR);
    Regroup(Unit(s[0]), Escaped(s[1..]), x);
  }

  method PutString(dst: Bytes, v: Bytes) returns (out: Bytes)
    ensures out == dst + Escaped(v)
  {
    out := dst;
    var i := 0;
    while i < |v|
      invariant 0 <= i <= |v|
      invariant out == dst + Body(v[..i])
    {
      BodyOneMore(v[..i], v[i]);
      assert v[..i + 1] == v[..i] + [v[i]];
      if v[i] == 0 {
        out := out + [0, 255];
      } else {
        out := out + [v[i]];
      }
      i := i + 1;
    }
    assert v[..i] == v;
    out := out + [0, 0];
  }

  /** Decoding reads exactly what encoding writes: it succeeds exactly on an escaped
      string followed by anything, and then returns both. */
  method GetString(b: Bytes) returns (r: Result<(Bytes, Bytes)>)
    ensures r.Ok? ==> b == Escaped(r.value.0) + r.value.1
    ensures forall s, rest :: b == Escaped(s) + rest ==> r == Ok((s, rest))
    ensures r.Err? ==> r.error == Corruption
  {
    var out: Bytes := [];
    var i := 0;
    while i < |b|
      invariant 0 <= i <= |b|
      invariant b[..i] == Body(out)
      decreases |b| - i
    {
      if b[i] != 0 {
        ReadOneMore(b, i, out, b[i]);
        out := out + [b[i]];
      } else {
        if i + 1 >= |b| {
          NotTerminated(b, i, out);
          return Err(Corruption);
        }
        if b[i + 1] == 0 {
          ReadTheEnd(b, i, out);
          EscapedIsInjective(b, out, b[i + 2..]);
          return Ok((out, b[i + 2..]));
        } else if b[i + 1] == 255 {
          ReadOneMore(b, i, out, 0);
          out := out + [0];
          i := i + 1;
        } else {
          NotTerminated(b, i, out);
          return Err(Corruption);
        }
      }
      i := i + 1;
    }
    NotTerminated(b, i, out);
    return Err(Corruption);
  }

  /** A body that breaks off, or goes on with a zero byte neither escaped nor doubled,
      is not the beginning of a terminated one. */
  lemma {:induction false} BrokenOff(a: Bytes, x: Bytes, s: Bytes, y: Bytes)
    requires x == [] || x == [0] || (x[0] == 0 && x[1] != 0 && x[1] != 255)
    ensures Body(a) + x != Escaped(s) + y
    decreases |a|
  {
    var left, right := Body(a) + x, Escaped(s) + y;
    if s == [] {
      assert right[0] == 0 && right[1] == 0;
    } else {
      EscapedSplits(s, y);
    }
    if a == [] {
      assert left == x;
    } else {
      BodySplits(a, x);
      if s != [] && a[0] == s[0] {
        BrokenOff(a[1..], x, s[1..], y);
        SameHead(Unit(a[0]), Body(a[1..]) + x, Escaped(s[1..]) + y);
      }
    }
  }

  lemma BodySplits(s: Bytes, x: Bytes)
    requires s != []
    ensures Body(s) + x == Unit(s[0]) + (Body(s[1..]) + x)
    ensures (Body(s) + x)[0] == s[0] && (s[0] == 0 ==> (Body(s) + x)[1] == 255)
  {
    Regroup(Unit(s[0]), Body(s[1..]), x);
  }

  lemma Regroup(h: Bytes, t: Bytes, x: Bytes)
    ensures (h + t) + x == h + (t + x)
    ensures |h| >= 1 ==> ((h + t) + x)[0] == h[0]
    ensures |h| >= 2 ==> ((h + t) + x)[1] == h[1]
  {
  }

  lemma SameHead(h: Bytes, a: Bytes, b: Bytes)
    ensures h + a == h + b <==> a == b
  {
    assert (h + a)[|h|..] == a && (h + b)[|h|..] == b;
  }

  /** Nothing, or a zero byte followed by neither 0x00 nor 0xFF, ends no string. */
  lemma NotTerminated(b: Bytes, i: nat, out: Bytes)
    requires i <= |b| && b[..i] == Body(out)
    requires i < |b| ==> b[i] == 0 && (i + 1 < |b| ==> b[i + 1] != 0 && b[i + 1] != 255)
    ensures forall s, rest :: b != Escaped(s) + rest
  {
    var x := b[i..];
    assert b == Body(out) + x;
    assert |x| == 1 ==> x == [0];
    forall s, rest
      ensures b != Escaped(s) + rest
    {
      BrokenOff(out, x, s, rest);
    }
  }

  lemma ReadOneMore(b: Bytes, i: nat, out: Bytes, c: byte)
    requires i < |b| && b[..i] == Body(out)
    requires if c == 0 then i + 1 < |b| && b[i] == 0 && b[i + 1] == 255 else b[i] == c
    ensures b[..i + |Unit(c)|] == Body(out + [c])
  {
    BodyOneMore(out, c);
    assert b[..i + |Unit(c)|] == b[..i] + Unit(c);
  }

  lemma ReadTheEnd(b: Bytes, i: nat, out: Bytes)
    requires i + 1 < |b| && b[..i] == Body(out) && b[i] == 0 && b[i + 1] == 0
    ensures b == Escaped(out) + b[i + 2..]
  {
    assert b == b[..i] + TERMINATOR + b[i + 2..];
  }

  /** Escaping keeps the order and leaves no string the beginning of another: what
      follows two different strings does not matter. */
  lemma {:induction false} EscapedOrders(a: Bytes, b: Bytes, x: Bytes, y: Bytes)
    ensures Lt(Escaped(a) + x, Escaped(b) + y) <==> Lt(a, b) || (a == b && Lt(x, y))
  {
    var p, q := Escaped(a) + x, Escaped(b) + y;
    if a != [] && b != [] && a[0] == b[0] {
      EscapedOrders(a[1..], b[1..], x, y);
      EscapedSplits(a, x);
      EscapedSplits(b, y);
      CommonPrefix(Unit(a[0]), Escaped(a[1..]) + x, Escaped(b[1..]) + y);
      assert a == b <==> a[1..] == b[1..] by {
        assert a == [a[0]] + a[1..] && b == [b[0]] + b[1..];
      }
    } else if a == [] && b == [] {
      CommonPrefix(TERMINATOR, x, y);
    } else {
      HeadsDiffer(a, b, x, y);
    }
  }

  lemma EscapedIsInjective(b: Bytes, s: Bytes, rest: Bytes)
    requires b == Escaped(s) + rest
    ensures forall s', rest' :: b == Escaped(s') + rest' ==> s' == s && rest' == rest
  {
    forall s', rest' | b == Escaped(s') + rest'
      ensures s' == s && rest' == rest
    {
      EscapedOrders(s, s', rest, rest');
      EscapedOrders(s', s, rest', rest);
      Irreflexive(b);
      Total(s, s');
      Total(rest, rest');
    }
  }

  lemma HeadsDiffer(a: Bytes, b: Bytes, x: Bytes, y: Bytes)
    requires (a == []) != (b == []) || (a != [] && b != [] && a[0] != b[0])
    ensures Lt(Escaped(a) + x, Escaped(b) + y) <==> Lt(a, b)
    ensures a != b
  {
    var p, q := Escaped(a) + x, Escaped(b) + y;
    if a != [] {
      EscapedSplits(a, x);
    } else {
      assert p[0] == 0 && p[1] == 0;
    }
    if b != [] {
      EscapedSplits(b, y);
    } else {
      assert q[0] == 0 && q[1] == 0;
    }
    if p[0] == q[0] {
      assert p[1..][0] == p[1] && q[1..][0] == q[1];
    }
  }

  // --- values ---------------------------------------------------------------------------------

  /** What the float constructor leaves: no NaN and no negative zero. */
  predicate Normal(v: Value) {
    v.F32Value? ==> !IsNaN(BINARY32, v.bits) && v.bits != BINARY32.sign
  }

  /** A value of either kind of zero, or of no number at all, becomes positive zero. */
  function F32(bits: U32): (v: Value)
    ensures Normal(v) && v.F32Value?
    ensures Number(BINARY32, v.bits) == if IsNaN(BINARY32, bits) then 0 else Number(BINARY32, bits)
  {
    if IsNaN(BINARY32, bits) || Number(BINARY32, bits) == 0 then F32Value(0) else F32Value(bits)
  }

  predicate SameType(a: Value, b: Value) {
    TypeOf(a) == TypeOf(b)
  }

  /** Compare's answer below zero, for values of one type. */
  predicate Less(a: Value, b: Value)
    requires SameType(a, b)
  {
    match a
    case BoolValue(x) => !x && b.b
    case U8Value(x) => x < b.u8
    case U32Value(x) => x < b.u32
    case U64Value(x) => x < b.u64
    case F32Value(x) => Number(BINARY32, x) < Number(BINARY32, b.bits)
    case StrValue(x) => Lt(x, b.str)
  }

  function OrderBytes(v: Value): Bytes {
    SpanOfWords();
    match v
    case BoolValue(x) => [if x then 1 else 0]
    case U8Value(x) => [x]
    case U32Value(x) => BigEndian(x, 4)
    case U64Value(x) => BigEndian(x, 8)
    case F32Value(x) => PutFloat(BINARY32, x)
    case StrValue(x) => Escaped(x)
  }

  /** The fixed-width decoders; each takes the value off the head of the bytes. */
  function GetBool(b: Bytes): Result<(Value, Bytes)> {
    if |b| < 1 || b[0] > 1 then Err(Corruption) else Ok((BoolValue(b[0] == 1), b[1..]))
  }

  function GetUint8(b: Bytes): Result<(Value, Bytes)> {
    if |b| < 1 then Err(Corruption) else Ok((U8Value(b[0]), b[1..]))
  }

  function GetUint32(b: Bytes): Result<(Value, Bytes)> {
    SpanOfWords();
    if |b| < 4 then Err(Corruption) else Ok((U32Value(FromBigEndian(b[..4])), b[4..]))
  }

  function GetUint64(b: Bytes): Result<(Value, Bytes)> {
    SpanOfWords();
    if |b| < 8 then Err(Corruption) else Ok((U64Value(FromBigEndian(b[..8])), b[8..]))
  }

  /** A float slot's value: the decoded bits, normalised. */
  function GetFloat32(b: Bytes): Result<(Value, Bytes)> {
    var bits := GetFloat(BINARY32, b);
    if bits.Err? then Err(bits.error) else Ok((F32(bits.value.0), bits.value.1))
  }

  /** The decoder of a fixed-width value's own type. */
  function GetLike(v: Value, b: Bytes): Result<(Value, Bytes)>
    requires !v.StrValue?
  {
    match v
    case BoolValue(_) => GetBool(b)
    case U8Value(_) => GetUint8(b)
    case U32Value(_) => GetUint32(b)
    case U64Value(_) => GetUint64(b)
    case F32Value(_) => GetFloat32(b)
  }

  /** An encoding followed by anything decodes to its value and what followed. */
  lemma EncodingDecodes(v: Value, rest: Bytes)
    requires !v.StrValue? && Normal(v)
    ensures GetLike(v, OrderBytes(v) + rest) == Ok((v, rest))
  {
    SpanOfWords();
    var e := OrderBytes(v);
    assert (e + rest)[..|e|] == e && (e + rest)[|e|..] == rest;
    match v
    case BoolValue(_) =>
    case U8Value(_) =>
    case U32Value(u) => BigEndianDecodes(u, 4);
    case U64Value(u) => BigEndianDecodes(u, 8);
    case F32Value(u) =>
      FloatDecodes(BINARY32, u, e + rest, rest);
      ScaledCompares(BINARY32, Magnitude(BINARY32, u), 0);
  }

  /** The main law: over two values of one type, whatever follows each, byte order is
      value order; so equal encodings are equal values and none begins another. */
  lemma EncodingOrders(a: Value, b: Value, x: Bytes, y: Bytes)
    requires SameType(a, b) && Normal(a) && Normal(b)
    ensures Lt(OrderBytes(a) + x, OrderBytes(b) + y) <==> Less(a, b) || (a == b && Lt(x, y))
  {
    SpanOfWords();
    match a
    case BoolValue(u) => EqualLengths(OrderBytes(a), OrderBytes(b), x, y); AgainstOneByte(OrderBytes(b)[0], OrderBytes(a));
    case U8Value(u) => EqualLengths([u], [b.u8], x, y); AgainstOneByte(b.u8, [u]);
    case U32Value(u) => BigEndianOrders(u, b.u32, 4, x, y);
    case U64Value(u) => BigEndianOrders(u, b.u64, 8, x, y);
    case F32Value(u) =>
      Irreflexive(x);
      if u == b.bits {
        CommonPrefix(OrderBytes(a), x, y);
      } else {
        FloatEncodingOrders(BINARY32, u, b.bits, x, y);
      }
    case StrValue(u) => EscapedOrders(u, b.str, x, y);
  }

  /** Values of one type are totally ordered, and the encoding tells them apart. */
  lemma EncodingIsInjective(a: Value, b: Value, x: Bytes, y: Bytes)
    requires SameType(a, b) && Normal(a) && Normal(b) && OrderBytes(a) + x == OrderBytes(b) + y
    ensures a == b && x == y
  {
    EncodingOrders(a, b, x, y);
    EncodingOrders(b, a, y, x);
    Irreflexive(OrderBytes(a) + x);
    LessIsTotal(a, b);
    Total(x, y);
  }

  lemma LessIsTotal(a: Value, b: Value)
    requires SameType(a, b) && Normal(a) && Normal(b)
    ensures Less(a, b) || a == b || Less(b, a)
  {
    if a.StrValue? {
      Total(a.str, b.str);
    } else if a.F32Value? && a.bits != b.bits {
      SpanOfWords();
      FloatOrders(BINARY32, a.bits, b.bits);
      FloatOrders(BINARY32, b.bits, a.bits);
    }
  }

  /** No encoding is a proper beginning of another of its type. */
  lemma PrefixFree(a: Value, b: Value)
    requires SameType(a, b) && Normal(a) && Normal(b) && OrderBytes(a) <= OrderBytes(b)
    ensures a == b
  {
    var rest := OrderBytes(b)[|OrderBytes(a)|..];
    assert OrderBytes(b) + [] == OrderBytes(a) + rest;
    EncodingIsInjective(a, b, rest, []);
  }
}
