/** One shard of the attribute row cache as a value: its entries, its LRU order
    and the staging marks of its own rows, with the operations the cache performs
    while it holds the shard's mutex. */
module RowCacheShard {
  import opened Prelude
  import opened AttrValue

  datatype RowKey = RowKey(tenant: Tenant, namespace: Namespace, id: Id)

  datatype Entry = Entry(gen: nat, row: Row)

  /** `order` lists the held keys, most recently used first. */
  datatype Shard = Shard(
    capacity: nat,
    entries: map<RowKey, Entry>,
    order: seq<RowKey>,
    staged: map<RowKey, seq<nat>>)

  /** An empty namespace names the default one, on every side of the cache. */
  function KeyOf(t: Tenant, ns: Namespace, id: Id): RowKey {
    RowKey(t, if ns == "" then DEFAULT_NAMESPACE else ns, id)
  }

  /** Two rows share a key exactly when they are one tenant's, one record's and in one
      namespace, an empty name being the default's. */
  lemma KeysNameRows(t: Tenant, ns: Namespace, id: Id, t': Tenant, ns': Namespace, id': Id)
    ensures KeyOf(t, ns, id) == KeyOf(t', ns', id') <==>
            t == t' && id == id' && (if ns == "" then "default" else ns) == (if ns' == "" then "default" else ns')
    ensures KeyOf(t, ns, id).tenant == t
  {
  }

  ghost predicate NoDuplicates(s: seq<RowKey>) {
    forall i, j :: 0 <= i < j < |s| ==> s[i] != s[j]
  }

  /** The LRU list and the entry map hold the same keys, within the bound. */
  ghost predicate ValidShard(sh: Shard) {
    && NoDuplicates(sh.order)
    && (forall k :: k in sh.order <==> k in sh.entries)
    && |sh.order| <= sh.capacity
  }

  function Marks(sh: Shard, k: RowKey): seq<nat> {
    if k in sh.staged then sh.staged[k] else []
  }

  function EmptyShard(capacity: nat): Shard {
    Shard(capacity, map[], [], map[])
  }

  function Without(s: seq<RowKey>, x: RowKey): seq<RowKey> {
    if s == [] then []
    else if s[0] == x then Without(s[1..], x)
    else [s[0]] + Without(s[1..], x)
  }

  function RemoveEntry(sh: Shard, k: RowKey): Shard {
    if k in sh.entries then sh.(entries := sh.entries - {k}, order := Without(sh.order, k)) else sh
  }

  /** The shard after the mutex section of a write being staged. */
  function MarkRow(sh: Shard, k: RowKey, seqNo: nat): Shard {
    RemoveEntry(sh.(staged := sh.staged[k := Marks(sh, k) + [seqNo]]), k)
  }

  function IndexOf(marks: seq<nat>, seqNo: nat): (i: nat)
    ensures i <= |marks|
    ensures seqNo !in marks[..i]
    ensures i < |marks| ==> marks[i] == seqNo
  {
    if marks == [] || marks[0] == seqNo then 0 else
      var i := 1 + IndexOf(marks[1..], seqNo);
      assert marks[..i] == [marks[0]] + marks[1..][..i - 1];
      i
  }

  /** A transaction's mark taken out, the last mark moved to where it was. */
  function WithoutMark(marks: seq<nat>, seqNo: nat): seq<nat> {
    var i := IndexOf(marks, seqNo);
    if i == |marks| then marks
    else marks[i := marks[|marks| - 1]][..|marks| - 1]
  }

  function WithMarks(sh: Shard, k: RowKey, marks: seq<nat>): Shard {
    if marks == [] then sh.(staged := sh.staged - {k}) else sh.(staged := sh.staged[k := marks])
  }

  /** The shard after the mutex section of a write being finished. */
  function FinishRow(sh: Shard, k: RowKey, seqNo: nat): Shard {
    var dropped := RemoveEntry(sh, k);
    if seqNo in Marks(sh, k) then WithMarks(dropped, k, WithoutMark(Marks(sh, k), seqNo)) else dropped
  }

  function MoveToFront(order: seq<RowKey>, k: RowKey): seq<RowKey> {
    [k] + Without(order, k)
  }

  /** The shard after serving `k`. */
  function Touch(sh: Shard, k: RowKey): Shard {
    sh.(order := MoveToFront(sh.order, k))
  }

  /** The keys that survive the bound are the most recently used ones. */
  function Newest(order: seq<RowKey>, capacity: nat): seq<RowKey> {
    if |order| <= capacity then order else order[..capacity]
  }

  function StoreRow(sh: Shard, k: RowKey, e: Entry): Shard {
    if k in sh.entries then
      sh.(entries := sh.entries[k := e], order := MoveToFront(sh.order, k))
    else
      var order := Newest([k] + sh.order, sh.capacity);
      var entries := sh.entries[k := e];
      sh.(order := order, entries := map x | x in entries && x in order :: entries[x])
  }

  // ---------------------------------------------------------------------------

  lemma {:induction false} WithoutMembers(s: seq<RowKey>, x: RowKey)
    ensures forall y :: y in Without(s, x) <==> y in s && y != x
    ensures |Without(s, x)| <= |s|
    ensures x in s ==> |Without(s, x)| < |s|
    ensures NoDuplicates(s) ==> NoDuplicates(Without(s, x))
  {
    if s != [] {
      WithoutMembers(s[1..], x);
      var rest := Without(s[1..], x);
      if NoDuplicates(s) {
        assert forall i :: 0 <= i < |rest| ==> rest[i] in rest && rest[i] in s[1..];
      }
    }
  }

  /** Giving one mark back removes exactly one occurrence of it and keeps every other. */
  lemma WithoutMarkIsOneLess(marks: seq<nat>, seqNo: nat)
    requires seqNo in marks
    ensures multiset(WithoutMark(marks, seqNo)) == multiset(marks) - multiset{seqNo}
    ensures |WithoutMark(marks, seqNo)| == |marks| - 1
  {
    var i, last := IndexOf(marks, seqNo), |marks| - 1;
    assert marks == marks[..last] + [marks[last]];
    if i < last {
      var front := marks[..last];
      assert front == front[..i] + [seqNo] + front[i + 1..];
      assert WithoutMark(marks, seqNo) == front[..i] + [marks[last]] + front[i + 1..];
    }
  }

  lemma OtherMarksSurvive(marks: seq<nat>, mine: nat, other: nat)
    requires mine in marks && other in marks && mine != other
    ensures other in WithoutMark(marks, mine)
  {
    WithoutMarkIsOneLess(marks, mine);
    assert other in multiset(WithoutMark(marks, mine));
  }

  /** Every shard operation keeps the LRU list and the entries in step and bounded. */
  lemma OperationsKeepTheShardValid(sh: Shard, k: RowKey, e: Entry, seqNo: nat)
    requires ValidShard(sh)
    requires 0 < sh.capacity
    ensures ValidShard(RemoveEntry(sh, k))
    ensures ValidShard(MarkRow(sh, k, seqNo))
    ensures ValidShard(FinishRow(sh, k, seqNo))
    ensures ValidShard(StoreRow(sh, k, e))
    ensures k in sh.entries ==> ValidShard(Touch(sh, k))
  {
    WithoutMembers(sh.order, k);
    var order := Newest([k] + sh.order, sh.capacity);
    assert forall x :: x in order ==> x == k || x in sh.entries;
  }

  /** A stored row is there, and no other entry changes, except that the bound may evict some. */
  lemma StoreRowEntries(sh: Shard, k: RowKey, e: Entry)
    ensures forall x :: x in StoreRow(sh, k, e).entries ==>
              (if x == k then StoreRow(sh, k, e).entries[x] == e
               else x in sh.entries && StoreRow(sh, k, e).entries[x] == sh.entries[x])
    ensures 0 < sh.capacity ==> k in StoreRow(sh, k, e).entries
    ensures StoreRow(sh, k, e).staged == sh.staged
  {
    var order := Newest([k] + sh.order, sh.capacity);
    assert 0 < sh.capacity ==> order[0] == k;
  }
}
