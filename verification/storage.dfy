/** The store: byte strings under byte strings, read in key order and written by
    transactions that apply as a whole. */
module Storage {
  import opened Prelude
  import opened ByteOrder

  type KV = map<Bytes, Bytes>

  /** Staged writes: a value, or a deletion. */
  type Writes = map<Bytes, Option<Bytes>>

  function Lookup(kv: KV, k: Bytes): Option<Bytes> {
    if k in kv then Some(kv[k]) else None
  }

  function Applied(kv: KV, w: Writes): KV {
    (kv - w.Keys) + map k | k in w && w[k].Some? :: w[k].value
  }

  lemma {:induction false} LeastKey(ks: set<Bytes>) returns (least: Bytes)
    requires ks != {}
    ensures least in ks && forall k | k in ks && k != least :: Lt(least, k)
  {
    var x :| x in ks;
    if ks == {x} {
      return x;
    }
    var rest := LeastKey(ks - {x});
    Total(x, rest);
    least := if Lt(x, rest) then x else rest;
    forall k | k in ks && k != least
      ensures Lt(least, k)
    {
      if least == x && k != rest {
        Transitive(x, rest, k);
      }
    }
  }

  /** The keys of a range, in order: what an iterator opened over it gives. */
  method Scan(kv: KV, lower: Bytes, upper: Option<Bytes>) returns (ks: seq<Bytes>)
    ensures Sorted(ks) && forall k :: k in ks <==> k in kv && InRange(k, lower, upper)
    ensures |ks| == |set k | k in kv && InRange(k, lower, upper)|
  {
    ks := [];
    var rest := set k | k in kv && InRange(k, lower, upper);
    ghost var all := rest;
    while rest != {}
      invariant Sorted(ks) && rest <= all && |ks| + |rest| == |all|
      invariant forall k :: k in ks <==> k in all && k !in rest
      invariant forall k, o | k in rest && o in ks :: Lt(o, k)
      decreases |rest|
    {
      ghost var least := LeastKey(rest);
      var k :| k in rest && forall k' | k' in rest && k' != k :: Lt(k, k');
      ks, rest := ks + [k], rest - {k};
    }
  }
}
