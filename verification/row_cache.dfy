/** The row cache object: the critical sections that the protocol takes as steps,
    written as the loops and updates that carry them out. */
module RowCache {
  import opened Prelude
  import opened AttrValue
  import opened RowCacheShard
  import opened RowCacheGate
  import Protocol = RowCacheProtocol

  /** The shards after a clear: every entry and every mark gone, the bounds kept. */
  function Emptied(shards: seq<Shard>): seq<Shard> {
    seq(|shards|, i requires 0 <= i < |shards| => EmptyShard(shards[i].capacity))
  }

  /** One shard's part of the bound. */
  function Share(entries: nat): (n: nat)
    ensures entries <= n * Protocol.SHARDS < entries + Protocol.SHARDS && (n * Protocol.SHARDS) % Protocol.SHARDS == 0
  {
    (entries + Protocol.SHARDS - 1) / Protocol.SHARDS
  }

  class Cache {
    const shardOf: RowKey -> nat
    const capacity: nat
    var shards: seq<Shard>
    var gens: map<Tenant, nat>
    var gate: Gate
    var stageSeq: nat

    ghost predicate Valid()
      reads this
    {
      && |shards| == Protocol.SHARDS
      && (forall k :: 0 <= shardOf(k) < Protocol.SHARDS)
      && (forall i :: 0 <= i < |shards| ==> 0 < shards[i].capacity && ValidShard(shards[i]))
    }

    ghost function ShardFor(k: RowKey): Shard
      reads this
      requires Valid()
    {
      shards[shardOf(k)]
    }

    /** The three conditions under which a row may be served or stored. */
    ghost predicate Admits(k: RowKey, gen: nat)
      reads this
      requires Valid()
    {
      !gate.disabled && Marks(ShardFor(k), k) == [] && Protocol.Gen(gens, k.tenant) == gen
    }

    /** Each shard gets an equal part of the bound, up to the next whole number. */
    constructor (entries: nat, shardOf: RowKey -> nat)
      requires 0 < entries
      requires forall k :: 0 <= shardOf(k) < Protocol.SHARDS
      ensures Valid()
      ensures entries <= capacity < entries + Protocol.SHARDS
      ensures capacity % Protocol.SHARDS == 0
      ensures forall i :: 0 <= i < |shards| ==>
                shards[i].entries == map[] && shards[i].staged == map[] && shards[i].capacity * Protocol.SHARDS == capacity
      ensures gens == map[] && gate == OPEN_GATE && this.shardOf == shardOf
    {
      var perShard := Share(entries);
      this.shardOf := shardOf;
      this.capacity := perShard * Protocol.SHARDS;
      this.shards := seq(Protocol.SHARDS, _ => EmptyShard(perShard));
      this.gens := map[];
      this.gate := OPEN_GATE;
      this.stageSeq := 0;
    }

    /** Serves the cached row exactly when the cache is on, the row is unmarked, the
        reader's generation is current and it is the entry's too. */
    method LookupAt(t: Tenant, ns: Namespace, id: Id, gen: nat) returns (row: Option<Row>)
      requires Valid()
      modifies this`shards
      ensures Valid()
      ensures var k := KeyOf(t, ns, id); var sh := old(ShardFor(k));
              if old(Admits(k, gen)) && k in sh.entries && sh.entries[k].gen == gen
              then row == Some(sh.entries[k].row) && shards == old(shards)[shardOf(k) := Touch(sh, k)]
              else row == None && shards == old(shards)
    {
      var k := KeyOf(t, ns, id);
      var sh := shards[shardOf(k)];
      if gate.disabled || |Marks(sh, k)| > 0 || Protocol.Gen(gens, t) != gen {
        return None;
      }
      if k !in sh.entries {
        return None;
      }
      var e := sh.entries[k];
      if e.gen != gen {
        return None;
      }
      OperationsKeepTheShardValid(sh, k, e, 0);
      shards := shards[shardOf(k) := sh.(order := MoveToFront(sh.order, k))];
      return Some(e.row);
    }

    /** Records a row under the same conditions; the bound then drops the least
        recently used rows and no others. */
    method StoreAt(t: Tenant, ns: Namespace, id: Id, gen: nat, row: Option<Row>)
      requires Valid()
      modifies this`shards
      ensures Valid()
      ensures var k := KeyOf(t, ns, id);
              shards == if row.Some? && old(Admits(k, gen))
                        then old(shards)[shardOf(k) := StoreRow(old(ShardFor(k)), k, Entry(gen, row.value))]
                        else old(shards)
    {
      if row.None? {
        return;
      }
      var k := KeyOf(t, ns, id);
      var sh := shards[shardOf(k)];
      if gate.disabled || |Marks(sh, k)| > 0 || Protocol.Gen(gens, t) != gen {
        return;
      }
      var e := Entry(gen, row.value);
      OperationsKeepTheShardValid(sh, k, e, 0);
      if k in sh.entries {
        shards := shards[shardOf(k) := sh.(entries := sh.entries[k := e], order := MoveToFront(sh.order, k))];
        return;
      }
      var order, entries := Evict([k] + sh.order, sh.entries[k := e], sh.capacity);
      shards := shards[shardOf(k) := sh.(order := order, entries := entries)];
    }

    /** Drops from the back of the order until the bound is met. */
    static method Evict(all: seq<RowKey>, held: map<RowKey, Entry>, capacity: nat)
      returns (order: seq<RowKey>, entries: map<RowKey, Entry>)
      requires NoDuplicates(all)
      requires forall k :: k in all <==> k in held
      ensures order == Newest(all, capacity)
      ensures entries == map k | k in held && k in order :: held[k]
    {
      order, entries := all, held;
      while |order| > capacity
        invariant |order| <= |all| && order == all[..|order|]
        invariant capacity <= |order| || order == all
        invariant entries == map k | k in held && k in order :: held[k]
      {
        var oldest := order[|order| - 1];
        assert order == order[..|order| - 1] + [oldest];
        order := order[..|order| - 1];
        entries := entries - {oldest};
        assert oldest !in order;
      }
    }

    /** Empties every shard, one after the other. */
    method ReleaseEverything()
      requires Valid()
      modifies this`shards
      ensures Valid() && shards == Emptied(old(shards))
    {
      for i := 0 to |shards|
        invariant |shards| == |old(shards)|
        invariant forall j :: 0 <= j < i ==> shards[j] == EmptyShard(old(shards)[j].capacity)
        invariant forall j :: i <= j < |shards| ==> shards[j] == old(shards)[j]
      {
        shards := shards[i := EmptyShard(shards[i].capacity)];
      }
    }

    /** Quiesces a row for one transaction's write and returns the mark's number. */
    method BeginWrite(t: Tenant, ns: Namespace, id: Id) returns (seqNo: nat)
      requires Valid()
      modifies this`shards, this`gate, this`stageSeq
      ensures Valid()
      ensures seqNo == old(stageSeq) + 1 == stageSeq
      ensures gate == Enter(old(gate)).gate
      ensures var k := KeyOf(t, ns, id); var e := Enter(old(gate));
              shards ==
                if e.record then old(shards)[shardOf(k) := MarkRow(old(ShardFor(k)), k, seqNo)]
                else if e.tripped then Emptied(old(shards))
                else old(shards)
    {
      var k := KeyOf(t, ns, id);
      stageSeq := stageSeq + 1;
      seqNo := stageSeq;
      var entered := Enter(gate);
      gate := entered.gate;
      if entered.tripped {
        ReleaseEverything();
      }
      if entered.record {
        var sh := shards[shardOf(k)];
        OperationsKeepTheShardValid(sh, k, Entry(0, map[]), seqNo);
        shards := shards[shardOf(k) := MarkRow(sh, k, seqNo)];
      }
    }

    /** Finds a transaction's mark among a row's and swaps the last one into its place. A
        mark already gone is no error. */
    static method GiveBack(marks: seq<nat>, seqNo: nat) returns (left: seq<nat>)
      ensures left == if seqNo in marks then WithoutMark(marks, seqNo) else marks
    {
      for i := 0 to |marks|
        invariant seqNo !in marks[..i]
      {
        if marks[i] == seqNo {
          return marks[i := marks[|marks| - 1]][..|marks| - 1];
        }
      }
      return marks;
    }

    /** Ends a write: a new generation for the tenant, the row's entry and the write's own
        mark gone, and one write fewer at the gate. */
    method FinishWrite(t: Tenant, ns: Namespace, id: Id, seqNo: nat) returns (event: GateEvent)
      requires Valid()
      modifies this`shards, this`gate, this`gens
      ensures Valid()
      ensures gens == old(gens)[t := Protocol.Gen(old(gens), t) + 1]
      ensures LeaveResult(gate, event) == Leave(old(gate))
      ensures var k := KeyOf(t, ns, id);
              var finished := old(shards)[shardOf(k) := FinishRow(old(ShardFor(k)), k, seqNo)];
              shards == if event.Underflowed? then Emptied(finished) else finished
    {
      var k := KeyOf(t, ns, id);
      gens := gens[t := Protocol.Gen(gens, t) + 1];
      var sh := shards[shardOf(k)];
      OperationsKeepTheShardValid(sh, k, Entry(0, map[]), seqNo);
      var left := GiveBack(Marks(sh, k), seqNo);
      var dropped := RemoveEntry(sh, k);
      if left != Marks(sh, k) {
        dropped := WithMarks(dropped, k, left);
      }
      ghost var was := Marks(sh, k);
      if seqNo in was {
        WithoutMarkIsOneLess(was, seqNo);
      }
      shards := shards[shardOf(k) := dropped];
      var l := Leave(gate);
      gate := l.gate;
      event := l.event;
      if event.Underflowed? {
        ReleaseEverything();
      }
    }
  }

  predicate EntryAgrees(entries: map<RowKey, Entry>, k: RowKey, gen: nat, snapshot: map<RowKey, Row>) {
    k in entries && entries[k].gen == gen ==> k in snapshot && snapshot[k] == entries[k].row
  }

  /** Storing a reader's own row, or serving one, keeps what its shard holds in
      agreement with its snapshot. */
  lemma UsingKeepsAgreement(sh: Shard, k: RowKey, gen: nat, snapshot: map<RowKey, Row>, x: RowKey)
    requires EntryAgrees(sh.entries, x, gen, snapshot)
    ensures EntryAgrees(Touch(sh, k).entries, x, gen, snapshot)
    ensures k in snapshot ==> EntryAgrees(StoreRow(sh, k, Entry(gen, snapshot[k])).entries, x, gen, snapshot)
  {
    if k in snapshot {
      StoreRowEntries(sh, k, Entry(gen, snapshot[k]));
    }
  }

  /** A query's reader: rows come from the cache while it may answer for them and
      from the reader's own snapshot otherwise. */
  class CachedReader {
    const cache: Cache
    const tenant: Tenant
    const gen: nat
    const snapshot: map<RowKey, Row>
    var hits: nat
    var misses: nat

    constructor (cache: Cache, tenant: Tenant, gen: nat, snapshot: map<RowKey, Row>)
      ensures this.cache == cache && this.tenant == tenant && this.gen == gen && this.snapshot == snapshot
      ensures hits == 0 && misses == 0
    {
      this.cache, this.tenant, this.gen, this.snapshot := cache, tenant, gen, snapshot;
      this.hits, this.misses := 0, 0;
    }

    /** The rows cached at this reader's generation are the ones its snapshot holds:
        ReadersAgreeInEveryRun derives it from the protocol. */
    ghost predicate Agrees()
      reads this, cache
    {
      cache.Valid() && forall k: RowKey :: k.tenant == tenant && cache.Admits(k, gen) ==>
        EntryAgrees(cache.ShardFor(k).entries, k, gen, snapshot)
    }

    ghost function SnapshotRow(k: RowKey): Option<Row> {
      if k in snapshot then Some(snapshot[k]) else None
    }

    /** Returns the snapshot's row whatever the cache holds, keeps the agreement for
        the next call, and leaves the cache alone for another tenant's row. */
    method Row(t: Tenant, ns: Namespace, id: Id) returns (row: Option<AttrValue.Row>)
      requires Agrees()
      modifies this`hits, this`misses, cache`shards
      ensures Agrees()
      ensures row == SnapshotRow(KeyOf(t, ns, id))
      ensures t != tenant ==> cache.shards == old(cache.shards) && hits == old(hits) && misses == old(misses)
      ensures t == tenant ==> hits + misses == old(hits) + old(misses) + 1
      ensures var k := KeyOf(t, ns, id);
              hits == old(hits) + 1 <==>
              t == tenant && old(cache.Admits(k, gen)) && k in old(cache.ShardFor(k)).entries && old(cache.ShardFor(k)).entries[k].gen == gen
      ensures var k := KeyOf(t, ns, id);
              t == tenant && old(cache.Admits(k, gen)) && k in snapshot ==>
                k in cache.ShardFor(k).entries && cache.ShardFor(k).entries[k] == Entry(gen, snapshot[k])
    {
      var k := KeyOf(t, ns, id);
      if t != tenant {
        return if k in snapshot then Some(snapshot[k]) else None;
      }
      ghost var sh := cache.ShardFor(k);
      row := cache.LookupAt(t, ns, id, gen);
      if row.Some? {
        hits := hits + 1;
        assert EntryAgrees(sh.entries, k, gen, snapshot);
      } else {
        misses := misses + 1;
        row := if k in snapshot then Some(snapshot[k]) else None;
        cache.StoreAt(t, ns, id, gen, row);
        if k in snapshot {
          StoreRowEntries(sh, k, Entry(gen, snapshot[k]));
        }
      }
      forall x: RowKey | x.tenant == tenant && cache.Admits(x, gen)
        ensures EntryAgrees(cache.ShardFor(x).entries, x, gen, snapshot)
      {
        assert old(cache.Admits(x, gen));
        if cache.shardOf(x) == cache.shardOf(k) {
          UsingKeepsAgreement(sh, k, gen, snapshot, x);
        }
      }
    }
  }

  /** In any state the protocol reaches, a row that may be served to a reader is the row its
      snapshot holds. */
  lemma AdmittedRowAgrees(s: Protocol.State, r: nat, k: RowKey)
    requires Protocol.Inv(s) && r in s.readers && s.readers[r].snap.Some?
    requires k.tenant == s.readers[r].tenant && !s.gate.disabled && Marks(s.shards.For(k), k) == []
    requires Protocol.Gen(s.gens, k.tenant) == s.readers[r].gen
    ensures EntryAgrees(s.shards.For(k).entries, k, s.readers[r].gen, s.readers[r].snap.value)
  {
    assert Protocol.Live(s.gate, s.clear, s.shards.of(k));
    assert !Protocol.InWindow(s.writers, k);
    assert Protocol.Agree(s.readers[r].snap.value, s.store, k);
  }

  /** The cache holds what a state of the protocol says, and the reader is one of its
      readers. */
  ghost predicate Mirrors(reader: CachedReader, s: Protocol.State, r: nat)
    reads reader, reader.cache
  {
    && s.shards == Protocol.Shards(reader.cache.shardOf, reader.cache.shards)
    && s.gens == reader.cache.gens && s.gate == reader.cache.gate
    && r in s.readers && s.readers[r].tenant == reader.tenant && s.readers[r].gen == reader.gen
    && s.readers[r].snap == Some(reader.snapshot)
  }

  /** So a reader agrees with the cache at every point of every run. */
  lemma ReadersAgreeInEveryRun(reader: CachedReader, states: seq<Protocol.State>, steps: seq<Protocol.Step>, n: nat, r: nat)
    requires Protocol.Run(states, steps) && n <= |steps|
    requires reader.cache.Valid() && Mirrors(reader, states[n], r)
    ensures reader.Agrees()
  {
    Protocol.RunKeeps(states, steps, n);
    forall k: RowKey | k.tenant == reader.tenant && reader.cache.Admits(k, reader.gen)
      ensures EntryAgrees(reader.cache.ShardFor(k).entries, k, reader.gen, reader.snapshot)
    {
      AdmittedRowAgrees(states[n], r, k);
    }
  }
}
