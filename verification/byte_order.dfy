/** Byte strings in the order the store keeps them, and the fixed-width big-endian
    integers that sort like the numbers they write. */
module ByteOrder {
  import opened Prelude

  /** The order of bytes.Compare. */
  predicate Lt(a: Bytes, b: Bytes) {
    |b| > 0 && (|a| == 0 || a[0] < b[0] || (a[0] == b[0] && Lt(a[1..], b[1..])))
  }

  predicate Le(a: Bytes, b: Bytes) {
    a == b || Lt(a, b)
  }

  /** Inside a half-open range; a missing upper end is no bound. */
  predicate InRange(k: Bytes, lower: Bytes, upper: Option<Bytes>) {
    Le(lower, k) && (upper.Some? ==> Lt(k, upper.value))
  }

  predicate Sorted(keys: seq<Bytes>) {
    forall i, j | 0 <= i < j < |keys| :: Lt(keys[i], keys[j])
  }

  lemma {:induction false} Irreflexive(a: Bytes)
    ensures !Lt(a, a)
  {
    if a != [] {
      Irreflexive(a[1..]);
    }
  }

  lemma {:induction false} Transitive(a: Bytes, b: Bytes, c: Bytes)
    requires Lt(a, b) && Lt(b, c)
    ensures Lt(a, c)
  {
    if a != [] && a[0] == b[0] == c[0] {
      Transitive(a[1..], b[1..], c[1..]);
    }
  }

  lemma {:induction false} Total(a: Bytes, b: Bytes)
    ensures Lt(a, b) || a == b || Lt(b, a)
  {
    if a != [] && b != [] && a[0] == b[0] {
      Total(a[1..], b[1..]);
      if a[1..] == b[1..] {
        assert a == [a[0]] + a[1..] == b;
      }
    }
  }

  lemma Asymmetric(a: Bytes, b: Bytes)
    requires Lt(a, b)
    ensures !Lt(b, a) && a != b
  {
    Irreflexive(a);
    if Lt(b, a) {
      Transitive(a, b, a);
    }
  }

  lemma LeTransitive(a: Bytes, b: Bytes, c: Bytes)
    requires Le(a, b) && Le(b, c)
    ensures Le(a, c)
    ensures Lt(a, b) || Lt(b, c) ==> Lt(a, c)
  {
    if Lt(a, b) && Lt(b, c) {
      Transitive(a, b, c);
    }
  }

  /** A common prefix does not matter. */
  lemma {:induction false} CommonPrefix(p: Bytes, a: Bytes, b: Bytes)
    ensures Lt(p + a, p + b) <==> Lt(a, b)
  {
    if p == [] {
      assert p + a == a && p + b == b;
    } else {
      assert (p + a)[1..] == p[1..] + a && (p + b)[1..] == p[1..] + b;
      CommonPrefix(p[1..], a, b);
    }
  }

  /** Once two strings of one length differ, what follows them does not matter. */
  lemma {:induction false} EqualLengths(a: Bytes, b: Bytes, x: Bytes, y: Bytes)
    requires |a| == |b|
    ensures Lt(a + x, b + y) <==> Lt(a, b) || (a == b && Lt(x, y))
  {
    if a == [] {
      assert a + x == x && b + y == y;
    } else {
      assert (a + x)[1..] == a[1..] + x && (b + y)[1..] == b[1..] + y;
      if a[0] == b[0] {
        EqualLengths(a[1..], b[1..], x, y);
        assert a == b <==> a[1..] == b[1..] by {
          assert a == [a[0]] + a[1..] && b == [b[0]] + b[1..];
        }
      }
    }
  }

  /** A string is at or below everything it begins. */
  lemma PrefixIsLeast(p: Bytes, x: Bytes)
    ensures Le(p, p + x)
    ensures x != [] ==> Lt(p, p + x)
  {
    CommonPrefix(p, [], x);
    assert p + [] == p;
    assert x == [] ==> p + x == p;
  }

  lemma AgainstOneByte(b: byte, x: Bytes)
    ensures Le([b], x) <==> x != [] && b <= x[0]
    ensures Lt(x, [b]) <==> x == [] || x[0] < b
  {
    var one: Bytes := [b];
    assert one[1..] == [];
    if x != [] && x[0] == b {
      assert x == one + x[1..];
      assert if x[1..] == [] then x == one else Lt(one[1..], x[1..]);
      assert !Lt(x[1..], one[1..]);
    }
  }

  /** Nothing lies between a key and that key with a zero byte added. */
  lemma {:induction false} SuccessorIsNext(k: Bytes, x: Bytes)
    ensures Lt(k, x) <==> Le(k + [0], x)
  {
    if k == [] {
      assert k + [0] == [0];
      AgainstOneByte(0, x);
    } else {
      assert (k + [0])[1..] == k[1..] + [0];
      if x != [] && k[0] == x[0] {
        SuccessorIsNext(k[1..], x[1..]);
        assert k[1..] + [0] == x[1..] <==> k + [0] == x by {
          assert k + [0] == [k[0]] + (k[1..] + [0]) && x == [x[0]] + x[1..];
        }
      }
    }
  }

  // --- the range of a prefix ----------------------------------------------------------

  /** Everything at or above a prefix and below the prefix with its last byte raised
      begins with that prefix, and conversely. */
  lemma {:induction false} RaisedByteBounds(p: Bytes, last: byte, k: Bytes)
    requires last < 255
    ensures p + [last] <= k <==> InRange(k, p + [last], Some(p + [last + 1]))
  {
    if p == [] {
      assert p + [last] == [last] && p + [last + 1] == [last + 1];
      AgainstOneByte(last, k);
      AgainstOneByte(last + 1, k);
    } else if k != [] && k[0] == p[0] {
      assert (p + [last])[1..] == p[1..] + [last] && (p + [last + 1])[1..] == p[1..] + [last + 1];
      RaisedByteBounds(p[1..], last, k[1..]);
      assert p + [last] == [p[0]] + (p[1..] + [last]) && k == [k[0]] + k[1..];
    } else {
      assert k != [] ==> (p + [last])[0] != k[0];
    }
  }

  /** Where the keys that begin with a prefix end: its last byte below 0xFF raised and
      what follows cut off. A prefix of 0xFF bytes alone has no end. */
  function SpanEnd(prefix: Bytes): Option<Bytes> {
    if prefix == [] then None
    else if prefix[|prefix| - 1] == 255 then SpanEnd(prefix[..|prefix| - 1])
    else Some(prefix[..|prefix| - 1] + [prefix[|prefix| - 1] + 1])
  }

  /** At or above a prefix and 0xFF, within the prefix, there is only what they begin. */
  lemma OnesFollow(short: Bytes, k: Bytes)
    requires short <= k && Le(short + [255], k)
    ensures short + [255] <= k
  {
    var rest := k[|short|..];
    assert k == short + rest;
    CommonPrefix(short, [255], rest);
    assert short + [255] == k ==> rest == [255];
    assert k[|short|] == 255;
  }

  /** The range from a prefix to its end holds exactly the keys that begin with it. */
  lemma {:induction false} PrefixBounds(prefix: Bytes, k: Bytes)
    ensures InRange(k, prefix, SpanEnd(prefix)) <==> prefix <= k
  {
    if prefix != [] {
      var n := |prefix| - 1;
      var short := prefix[..n];
      assert prefix == short + [prefix[n]];
      if prefix[n] < 255 {
        RaisedByteBounds(short, prefix[n], k);
      } else {
        PrefixBounds(short, k);
        PrefixIsLeast(short, [255]);
        if InRange(k, prefix, SpanEnd(prefix)) {
          LeTransitive(short, prefix, k);
          OnesFollow(short, k);
        }
        if prefix <= k {
          PrefixIsLeast(prefix, k[|prefix|..]);
          assert k == prefix + k[|prefix|..];
        }
      }
    }
  }

  lemma {:induction false} SpanEndExists(prefix: Bytes)
    ensures SpanEnd(prefix).Some? <==> exists i | 0 <= i < |prefix| :: prefix[i] != 255
  {
    if prefix != [] {
      var short := prefix[..|prefix| - 1];
      SpanEndExists(short);
      assert forall i | 0 <= i < |short| :: short[i] == prefix[i];
    }
  }

  /** Bounds that hold a prefix's extensions and nothing else. */
  method PrefixRange(prefix: Bytes) returns (lower: Bytes, upper: Option<Bytes>)
    ensures forall k :: InRange(k, lower, upper) <==> prefix <= k
    ensures upper.None? <==> forall i | 0 <= i < |prefix| :: prefix[i] == 255
    ensures lower == prefix && upper == SpanEnd(prefix)
  {
    lower := prefix;
    SpanEndExists(prefix);
    forall k
      ensures InRange(k, prefix, SpanEnd(prefix)) <==> prefix <= k
    {
      PrefixBounds(prefix, k);
    }
    var i := |prefix| - 1;
    assert prefix[..i + 1] == prefix;
    while i >= 0
      invariant -1 <= i < |prefix|
      invariant SpanEnd(prefix) == SpanEnd(prefix[..i + 1])
    {
      assert prefix[..i + 1][..i] == prefix[..i];
      if prefix[i] == 255 {
        i := i - 1;
        continue;
      }
      return lower, Some(prefix[..i] + [prefix[i] + 1]);
    }
    upper := None;
  }

  // --- big-endian integers --------------------------------------------------------------

  /** How many values `width` bytes can write. */
  function Span(width: nat): nat {
    if width == 0 then 1 else 256 * Span(width - 1)
  }

  function BigEndian(v: nat, width: nat): (r: Bytes)
    requires v < Span(width)
    ensures |r| == width
  {
    if width == 0 then [] else BigEndian(v / 256, width - 1) + [v % 256]
  }

  function FromBigEndian(b: Bytes): (v: nat)
    ensures v < Span(|b|)
  {
    if b == [] then 0 else 256 * FromBigEndian(b[..|b| - 1]) + b[|b| - 1]
  }

  lemma {:induction false} BigEndianDecodes(v: nat, width: nat)
    requires v < Span(width)
    ensures FromBigEndian(BigEndian(v, width)) == v
  {
    if width > 0 {
      BigEndianDecodes(v / 256, width - 1);
      var b := BigEndian(v, width);
      assert b[..width - 1] == BigEndian(v / 256, width - 1);
    }
  }

  lemma {:induction false} BigEndianEncodes(b: Bytes)
    ensures BigEndian(FromBigEndian(b), |b|) == b
  {
    if b != [] {
      BigEndianEncodes(b[..|b| - 1]);
      assert b == b[..|b| - 1] + [b[|b| - 1]];
    }
  }

  /** Byte order is number order, whatever follows the number. */
  lemma {:induction false} BigEndianOrders(u: nat, v: nat, width: nat, x: Bytes, y: Bytes)
    requires u < Span(width) && v < Span(width)
    ensures Lt(BigEndian(u, width) + x, BigEndian(v, width) + y) <==> u < v || (u == v && Lt(x, y))
  {
    if width == 0 {
      assert BigEndian(u, 0) + x == x && BigEndian(v, 0) + y == y;
    } else {
      var a, b := [(u % 256) as byte], [(v % 256) as byte];
      assert BigEndian(u, width) + x == BigEndian(u / 256, width - 1) + (a + x);
      assert BigEndian(v, width) + y == BigEndian(v / 256, width - 1) + (b + y);
      BigEndianOrders(u / 256, v / 256, width - 1, a + x, b + y);
      assert Lt(a + x, b + y) <==> a[0] < b[0] || (a[0] == b[0] && Lt(x, y)) by {
        assert (a + x)[1..] == x && (b + y)[1..] == y;
      }
    }
  }

  lemma SpanOfWords()
    ensures Span(1) == 256 && Span(2) == 0x1_0000 && Span(4) == 0x1_0000_0000
    ensures Span(8) == 0x1_0000_0000_0000_0000
  {
    assert Span(3) == 0x100_0000;
    assert Span(5) == 0x100_0000_0000;
    assert Span(6) == 0x1_0000_0000_0000;
    assert Span(7) == 0x100_0000_0000_0000;
  }
}
