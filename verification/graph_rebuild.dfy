/** Rebuilding the in-edges from the out-edges: the in space is emptied and written again,
    a batch at a time, from whatever was there before. */
module GraphRebuild {
  import opened Prelude
  import opened ByteOrder
  import opened Storage
  import opened GraphTypes
  import opened GraphKeys
  import opened GraphMirror
  import opened GraphVerify
  import Keys

  const REBUILD_BATCH: nat := 1000

  function Without(kv: KV, ks: seq<Bytes>): KV {
    map k | k in kv && k !in ks :: kv[k]
  }

  lemma FewerInRange(kv: KV, batch: seq<Bytes>, lower: Bytes, upper: Option<Bytes>)
    requires batch != [] && forall k | k in batch :: k in kv && InRange(k, lower, upper)
    ensures |set k | k in Without(kv, batch) && InRange(k, lower, upper)| < |set k | k in kv && InRange(k, lower, upper)|
  {
    var before, after := set k | k in kv && InRange(k, lower, upper), set k | k in Without(kv, batch) && InRange(k, lower, upper);
    assert batch[0] in batch;
    SubsetSize(after, before - {batch[0]});
  }

  /** Empties a range, so many keys a transaction. */
  method ClearRange(store: EdgeStore, lower: Bytes, upper: Option<Bytes>)
    modifies store`kv
    ensures forall k :: k in store.kv <==> k in old(store.kv) && !InRange(k, lower, upper)
    ensures forall k | k in store.kv :: store.kv[k] == old(store.kv)[k]
  {
    while true
      invariant forall k | k in store.kv :: k in old(store.kv) && store.kv[k] == old(store.kv)[k]
      invariant forall k | k in old(store.kv) && !InRange(k, lower, upper) :: k in store.kv
      decreases |set k | k in store.kv && InRange(k, lower, upper)|
    {
      var found := Scan(store.kv, lower, upper);
      var batch := if |found| > REBUILD_BATCH then found[..REBUILD_BATCH] else found;
      if batch == [] {
        return;
      }
      FewerInRange(store.kv, batch, lower, upper);
      store.kv := Without(store.kv, batch);
    }
  }

  // --- writing the in-edges -------------------------------------------------------------------

  /** A store with an in-row written for each of the first out-keys, bytes copied as they
      are, a later key winning. */
  function Written(base: KV, turn: Bytes -> Bytes, kv: KV, ks: seq<Bytes>, n: nat): KV
    requires n <= |ks| && forall k | k in ks :: k in kv
  {
    if n == 0 then base else Written(base, turn, kv, ks, n - 1)[turn(ks[n - 1]) := kv[ks[n - 1]]]
  }

  /** What one key holds then: the bytes of the last out-key turned to it, or what it held. */
  lemma {:induction false} WrittenAt(base: KV, turn: Bytes -> Bytes, kv: KV, ks: seq<Bytes>, n: nat, k: Bytes)
    requires n <= |ks| && forall k | k in ks :: k in kv
    ensures var held := Lookup(Written(base, turn, kv, ks, n), k);
            || (exists i | 0 <= i < n :: turn(ks[i]) == k && held == Some(kv[ks[i]]) && forall j | i < j < n :: turn(ks[j]) != k)
            || ((forall i | 0 <= i < n :: turn(ks[i]) != k) && held == Lookup(base, k))
  {
    if n > 0 {
      WrittenAt(base, turn, kv, ks, n - 1, k);
    }
  }

  lemma OneMoreStaged(base: KV, staged: KV, k: Bytes, value: Bytes)
    ensures base + staged[k := value] == (base + staged)[k := value]
  {
  }

  lemma NothingStaged(base: KV)
    ensures base + map[] == base
  {
  }

  /** Writes an in-row for each out-key, committing whenever a batch is full. A key with no
      room for an edge stops it, with the batches before it committed. */
  method WriteIn(store: EdgeStore, turn: Bytes -> Bytes, kv: KV, ks: seq<Bytes>) returns (r: Result<nat>, ghost done: nat)
    requires forall k | k in ks :: k in kv
    modifies store`kv
    ensures done <= |ks| && store.kv == Written(old(store.kv), turn, kv, ks, done)
    ensures r.Ok? <==> forall k | k in ks :: |k| >= Keys.EDGE_LEN
    ensures r.Ok? ==> r.value == done == |ks|
    ensures r.Err? ==> r.error == Corruption
  {
    var written, begun, staged: KV := 0, 0, map[];
    done := 0;
    NothingStaged(store.kv);
    while written < |ks|
      invariant begun == done <= written <= |ks| && store.kv == Written(old(store.kv), turn, kv, ks, done)
      invariant store.kv + staged == Written(old(store.kv), turn, kv, ks, written)
      invariant forall i | 0 <= i < written :: |ks[i]| >= Keys.EDGE_LEN
    {
      var k := ks[written];
      assert k in ks;
      if |k| < Keys.EDGE_LEN {
        return Err(Corruption), done;
      }
      OneMoreStaged(store.kv, staged, turn(k), kv[k]);
      staged, written := staged[turn(k) := kv[k]], written + 1;
      if written - begun >= REBUILD_BATCH {
        NothingStaged(store.kv + staged);
        store.kv, staged, begun, done := store.kv + staged, map[], written, written;
      }
    }
    store.kv, done := store.kv + staged, written;
    r := Ok(written);
  }

  // --- the rebuild ------------------------------------------------------------------------------

  /** The in-key an out-key calls for. */
  function TurnKey(sc: Scope, k: Bytes): Bytes {
    if |k| < Keys.EDGE_LEN then [] else InKey(sc, ParseTail(k).value)
  }

  function Turning(sc: Scope): Bytes -> Bytes {
    (k: Bytes) => TurnKey(sc, k)
  }

  /** The rest of the store, with the in space emptied. */
  function Outside(kv: KV, sc: Scope): KV {
    map k | k in kv && !InIn(sc, k) :: kv[k]
  }

  ghost predicate OutKeysOf(kv: KV, sc: Scope, ks: seq<Bytes>) {
    Sorted(ks) && forall k :: k in ks <==> k in kv && InOut(sc, k)
  }

  /** The store once the in space is emptied and rows written for the first out-keys. */
  function Rebuilt(kv: KV, sc: Scope, ks: seq<Bytes>, n: nat): KV
    requires n <= |ks| && forall k | k in ks :: k in kv
  {
    Written(Outside(kv, sc), Turning(sc), kv, ks, n)
  }

  /** Rebuilds one scope's in-edges, whatever they were. Only an out-key with no room for an
      edge stops it. */
  method RebuildIn(store: EdgeStore, sc: Scope) returns (r: Result<nat>, ghost ks: seq<Bytes>, ghost done: nat)
    requires Fits(sc)
    modifies store`kv
    ensures sc.tenant != [] ==> OutKeysOf(old(store.kv), sc, ks) && done <= |ks|
    ensures store.kv == if sc.tenant == [] then old(store.kv) else Rebuilt(old(store.kv), sc, ks, done)
    ensures r.Ok? <==> sc.tenant != [] && forall k | k in old(store.kv) && InOut(sc, k) :: |k| >= Keys.EDGE_LEN
    ensures r.Ok? ==> r.value == done == |ks|
    ensures r.Err? ==> r.error == if sc.tenant == [] then Invalid else Corruption
  {
    if sc.tenant == [] {
      return Err(Invalid), [], 0;
    }
    ghost var was := store.kv;
    var lower, upper := Keys.SpaceRange(sc.tenant, sc.ns, Keys.SPACE_EDGE_IN);
    ClearRange(store, lower, upper);
    assert store.kv == Outside(was, sc);
    var outLower, outUpper := Keys.SpaceRange(sc.tenant, sc.ns, Keys.SPACE_EDGE_OUT);
    var found := Scan(store.kv, outLower, outUpper);
    SpacesApart(sc);
    ks := found;
    r, done := WriteIn(store, Turning(sc), store.kv, found);
    WrittenFrom(Outside(was, sc), Turning(sc), Outside(was, sc), was, ks, done);
  }

  lemma SpacesApart(sc: Scope)
    ensures forall k | InOut(sc, k) :: !InIn(sc, k)
  {
  }

  lemma {:induction false} WrittenFrom(base: KV, turn: Bytes -> Bytes, kv: KV, kv': KV, ks: seq<Bytes>, n: nat)
    requires n <= |ks| && forall k | k in ks :: k in kv && k in kv' && kv[k] == kv'[k]
    ensures Written(base, turn, kv, ks, n) == Written(base, turn, kv', ks, n)
  {
    if n > 0 {
      WrittenFrom(base, turn, kv, kv', ks, n - 1);
      assert ks[n - 1] in ks;
    }
  }

  // --- what a rebuild leaves --------------------------------------------------------------------

  lemma TurnedIsIn(sc: Scope, k: Bytes)
    requires Fits(sc) && |k| >= Keys.EDGE_LEN
    ensures InIn(sc, TurnKey(sc, k)) && Whole(TurnKey(sc, k))
  {
    EdgeKeysRead(sc, TurnKey(sc, k), ParseTail(k).value);
  }

  /** Finished or cut short, a rebuild changes nothing outside the in space, and leaves only
      whole keys in it. */
  lemma OnlyInKeysChange(kv: KV, sc: Scope, ks: seq<Bytes>, n: nat, k: Bytes)
    requires Fits(sc) && n <= |ks| && forall k | k in ks :: k in kv
    requires forall i | 0 <= i < n :: |ks[i]| >= Keys.EDGE_LEN
    ensures !InIn(sc, k) ==> Lookup(Rebuilt(kv, sc, ks, n), k) == Lookup(kv, k)
    ensures InIn(sc, k) && k in Rebuilt(kv, sc, ks, n) ==> Whole(k)
  {
    WrittenAt(Outside(kv, sc), Turning(sc), kv, ks, n, k);
    forall i | 0 <= i < n && Turning(sc)(ks[i]) == k
      ensures InIn(sc, k) && Whole(k)
    {
      TurnedIsIn(sc, ks[i]);
    }
  }

  /** An out-key is turned to an edge's in-key exactly when it is the edge's out-key. */
  lemma TurnsTo(sc: Scope, k: Bytes, l: Link)
    requires Fits(sc) && InOut(sc, k) && Whole(k)
    ensures |k| >= Keys.EDGE_LEN && (TurnKey(sc, k) == InKey(sc, l) <==> k == OutKey(sc, l))
  {
    WholeIsNear(Keys.SPACE_EDGE_OUT, sc, k);
    EdgeKeysRead(sc, k, l);
    if TurnKey(sc, k) == InKey(sc, l) {
      KeysApart(sc, ParseTail(k).value, sc, l, l.from);
    }
  }

  /** From any in space at all, each edge's in-key ends as its out-key is. */
  lemma RebuildMirrors(kv: KV, sc: Scope, ks: seq<Bytes>, l: Link)
    requires Fits(sc) && OutKeysOf(kv, sc, ks) && forall k | k in ks :: Whole(k)
    ensures Lookup(Rebuilt(kv, sc, ks, |ks|), InKey(sc, l)) == Lookup(kv, OutKey(sc, l))
  {
    EdgeKeysRead(sc, OutKey(sc, l), l);
    EdgeKeysRead(sc, InKey(sc, l), l);
    WrittenAt(Outside(kv, sc), Turning(sc), kv, ks, |ks|, InKey(sc, l));
    forall i | 0 <= i < |ks|
      ensures Turning(sc)(ks[i]) == InKey(sc, l) <==> ks[i] == OutKey(sc, l)
    {
      assert ks[i] in ks;
      TurnsTo(sc, ks[i], l);
    }
    if OutKey(sc, l) in kv {
      assert OutKey(sc, l) in ks;
    }
  }

  lemma CanonicalRowsStay(kv: KV, sc: Scope, ks: seq<Bytes>, l: Link)
    requires Fits(sc) && OutKeysOf(kv, sc, ks) && forall k | k in ks :: Whole(k)
    ensures Lookup(Rebuilt(kv, sc, ks, |ks|), OutKey(sc, l)) == Lookup(kv, OutKey(sc, l))
    ensures Present(Rebuilt(kv, sc, ks, |ks|), sc, l.from) == Present(kv, sc, l.from)
    ensures Present(Rebuilt(kv, sc, ks, |ks|), sc, l.to) == Present(kv, sc, l.to)
  {
    forall i | 0 <= i < |ks|
      ensures |ks[i]| >= Keys.EDGE_LEN
    {
      assert ks[i] in ks;
      WholeIsNear(Keys.SPACE_EDGE_OUT, sc, ks[i]);
    }
    EdgeKeysRead(sc, OutKey(sc, l), l);
    RecordIsNoEdge(sc, l.from);
    RecordIsNoEdge(sc, l.to);
    OnlyInKeysChange(kv, sc, ks, |ks|, OutKey(sc, l));
    OnlyInKeysChange(kv, sc, ks, |ks|, RecordKey(sc, l.from));
    OnlyInKeysChange(kv, sc, ks, |ks|, RecordKey(sc, l.to));
  }

  /** A finished rebuild clears every finding it is said to repair, and no other. */
  lemma RebuildClearsRepairable(kv: KV, sc: Scope, ks: seq<Bytes>, f: Finding)
    requires Fits(sc) && OutKeysOf(kv, sc, ks) && forall k | k in ks :: Whole(k)
    ensures Problem(Rebuilt(kv, sc, ks, |ks|), sc, f) <==> Problem(kv, sc, f) && !Repairable(f.kind)
  {
    RebuildMirrors(kv, sc, ks, f.link);
    CanonicalRowsStay(kv, sc, ks, f.link);
  }

  /** However far an earlier rebuild got, and whatever it left in the in space, rebuilding
      again ends where rebuilding once would have. */
  lemma RebuildingAgainFinishes(kv: KV, half: KV, sc: Scope, ks: seq<Bytes>)
    requires Fits(sc) && OutKeysOf(kv, sc, ks) && forall k | !InIn(sc, k) :: Lookup(half, k) == Lookup(kv, k)
    ensures OutKeysOf(half, sc, ks) && Rebuilt(half, sc, ks, |ks|) == Rebuilt(kv, sc, ks, |ks|)
  {
    SpacesApart(sc);
    forall k | InOut(sc, k)
      ensures Lookup(half, k) == Lookup(kv, k)
    {
    }
    assert Outside(half, sc) == Outside(kv, sc) by {
      forall k
        ensures Lookup(Outside(half, sc), k) == Lookup(Outside(kv, sc), k)
      {
        if !InIn(sc, k) {
          assert Lookup(half, k) == Lookup(kv, k);
        }
      }
      SameMap(Outside(half, sc), Outside(kv, sc));
    }
    WrittenFrom(Outside(kv, sc), Turning(sc), half, kv, ks, |ks|);
  }

  lemma SameMap(a: KV, b: KV)
    requires forall k :: Lookup(a, k) == Lookup(b, k)
    ensures a == b
  {
    forall k
      ensures k in a <==> k in b
      ensures k in a ==> a[k] == b[k]
    {
      assert Lookup(a, k) == Lookup(b, k);
    }
  }
}
