/** What a full shard forgets: over any run of rows stored and served, a row no longer held
    was last used before every row that is. */
module RowCacheRecency {
  import opened Prelude
  import opened AttrValue
  import opened RowCacheShard

  /** A row stored, or one that is held served. */
  datatype Use = Store(key: RowKey, entry: Entry) | Serve(key: RowKey)

  /** When a row was last used, counting from the first use; before them all if never. */
  function LastUse(uses: seq<Use>, n: nat, k: RowKey): int
    requires n <= |uses|
  {
    if n == 0 then -1 else if uses[n - 1].key == k then n - 1 else LastUse(uses, n - 1, k)
  }

  function Used(sh: Shard, u: Use): Shard {
    match u
    case Store(k, e) => StoreRow(sh, k, e)
    case Serve(k) => Touch(sh, k)
  }

  /** The shard after the first uses. */
  function After(capacity: nat, uses: seq<Use>, n: nat): Shard
    requires n <= |uses|
  {
    if n == 0 then EmptyShard(capacity) else Used(After(capacity, uses, n - 1), uses[n - 1])
  }

  /** Only what is held is served. */
  ghost predicate IsRun(capacity: nat, uses: seq<Use>) {
    forall n | 0 <= n < |uses| :: uses[n].Serve? ==> uses[n].key in After(capacity, uses, n).entries
  }

  predicate Ranked(order: seq<RowKey>, rank: RowKey -> int) {
    forall i, j | 0 <= i < j < |order| :: rank(order[i]) > rank(order[j])
  }

  lemma {:induction false} WithoutKeepsRank(order: seq<RowKey>, x: RowKey, rank: RowKey -> int)
    requires Ranked(order, rank)
    ensures Ranked(Without(order, x), rank)
    decreases |order|
  {
    if order != [] {
      var rest := Without(order[1..], x);
      WithoutKeepsRank(order[1..], x, rank);
      WithoutMembers(order[1..], x);
      forall i | 0 <= i < |rest|
        ensures rank(order[0]) > rank(rest[i])
      {
        assert rest[i] in order[1..];
        var j :| 0 <= j < |order[1..]| && order[1..][j] == rest[i];
        assert order[j + 1] == rest[i];
      }
    }
  }

  /** Latest use first; and what is not there was used before them all, if ever, and is out
      for want of room. */
  predicate Recent(order: seq<RowKey>, capacity: nat, rank: RowKey -> int, k: RowKey) {
    if k in order then rank(k) >= 0
    else rank(k) >= 0 ==> |order| == capacity && forall o | o in order :: rank(o) > rank(k)
  }

  ghost predicate AllRecent(order: seq<RowKey>, capacity: nat, rank: RowKey -> int) {
    Ranked(order, rank) && forall k: RowKey :: Recent(order, capacity, rank, k)
  }

  /** The ranks once a row has been used again, at a time after all others. */
  ghost predicate Bumped(rank: RowKey -> int, next: RowKey -> int, k: RowKey, n: nat) {
    && next(k) == n && (forall x: RowKey :: rank(x) < n)
    && forall x: RowKey :: x != k ==> next(x) == rank(x)
  }

  lemma MovedIsRanked(order: seq<RowKey>, k: RowKey, rank: RowKey -> int, next: RowKey -> int, n: nat)
    requires Ranked(order, rank) && Bumped(rank, next, k, n)
    ensures Ranked(MoveToFront(order, k), next)
  {
    WithoutKeepsRank(order, k, rank);
    WithoutMembers(order, k);
    var rest := Without(order, k);
    forall i | 0 <= i < |rest|
      ensures rest[i] != k
    {
      assert rest[i] in rest;
    }
  }

  lemma {:induction false} OneLess(order: seq<RowKey>, k: RowKey)
    requires NoDuplicates(order)
    ensures |Without(order, k)| == if k in order then |order| - 1 else |order|
    decreases |order|
  {
    if order != [] {
      OneLess(order[1..], k);
    }
  }

  lemma MoveKeepsRecent(order: seq<RowKey>, capacity: nat, k: RowKey, rank: RowKey -> int, next: RowKey -> int, n: nat)
    requires AllRecent(order, capacity, rank) && NoDuplicates(order) && k in order && Bumped(rank, next, k, n)
    ensures AllRecent(MoveToFront(order, k), capacity, next)
  {
    MovedIsRanked(order, k, rank, next, n);
    OneLess(order, k);
    WithoutMembers(order, k);
    forall x: RowKey
      ensures Recent(MoveToFront(order, k), capacity, next, x)
    {
      assert Recent(order, capacity, rank, x);
    }
  }

  lemma AddedIsRanked(order: seq<RowKey>, k: RowKey, rank: RowKey -> int, next: RowKey -> int, n: nat)
    requires Ranked(order, rank) && k !in order && Bumped(rank, next, k, n)
    ensures Ranked([k] + order, next)
  {
    assert forall i | 0 <= i < |order| :: order[i] in order && order[i] != k;
  }

  lemma AddKeepsRecent(order: seq<RowKey>, capacity: nat, k: RowKey, rank: RowKey -> int, next: RowKey -> int, n: nat)
    requires AllRecent(order, capacity, rank) && k !in order && |order| <= capacity && 0 < capacity && Bumped(rank, next, k, n)
    ensures AllRecent(Newest([k] + order, capacity), capacity, next)
  {
    var all, kept := [k] + order, Newest([k] + order, capacity);
    AddedIsRanked(order, k, rank, next, n);
    assert kept == all[..|kept|];
    forall x: RowKey
      ensures Recent(kept, capacity, next, x)
    {
      assert Recent(order, capacity, rank, x);
      if x in all && x !in kept {
        CutAway(all, |kept|, x, next);
      } else if x !in all {
        NotThere(order, capacity, k, rank, next, n, x, kept);
      }
    }
  }

  lemma CutAway(all: seq<RowKey>, n: nat, x: RowKey, rank: RowKey -> int)
    requires Ranked(all, rank) && n <= |all| && x in all && x !in all[..n]
    ensures forall o | o in all[..n] :: rank(o) > rank(x)
  {
    assert forall i | 0 <= i < n :: all[i] in all[..n];
    var j :| 0 <= j < |all| && all[j] == x;
    forall o | o in all[..n]
      ensures rank(o) > rank(x)
    {
      var i :| 0 <= i < n && all[i] == o;
    }
  }

  lemma NotThere(order: seq<RowKey>, capacity: nat, k: RowKey, rank: RowKey -> int, next: RowKey -> int, n: nat, x: RowKey, kept: seq<RowKey>)
    requires Recent(order, capacity, rank, x) && x !in [k] + order && |order| <= capacity && 0 < capacity && Bumped(rank, next, k, n)
    requires kept == Newest([k] + order, capacity)
    ensures Recent(kept, capacity, next, x)
  {
    assert forall o | o in kept :: o in [k] + order;
    assert forall o | o in [k] + order :: o == k || o in order;
  }

  function Rank(uses: seq<Use>, n: nat): RowKey -> int
    requires n <= |uses|
  {
    (k: RowKey) => LastUse(uses, n, k)
  }

  lemma {:induction false} LastUseIsBefore(uses: seq<Use>, n: nat, k: RowKey)
    requires n <= |uses|
    ensures -1 <= LastUse(uses, n, k) < n
  {
    if n > 0 && uses[n - 1].key != k {
      LastUseIsBefore(uses, n - 1, k);
    }
  }

  lemma NextUseBumps(uses: seq<Use>, n: nat)
    requires 0 < n <= |uses|
    ensures Bumped(Rank(uses, n - 1), Rank(uses, n), uses[n - 1].key, n - 1)
  {
    var rank := Rank(uses, n - 1);
    forall x: RowKey
      ensures rank(x) < n - 1
    {
      LastUseIsBefore(uses, n - 1, x);
    }
  }

  lemma UseKeepsRecent(sh: Shard, u: Use, rank: RowKey -> int, next: RowKey -> int, n: nat)
    requires ValidShard(sh) && 0 < sh.capacity && AllRecent(sh.order, sh.capacity, rank)
    requires Bumped(rank, next, u.key, n) && (u.Serve? ==> u.key in sh.entries)
    ensures AllRecent(Used(sh, u).order, sh.capacity, next)
  {
    if u.key in sh.entries {
      MoveKeepsRecent(sh.order, sh.capacity, u.key, rank, next, n);
    } else {
      AddKeepsRecent(sh.order, sh.capacity, u.key, rank, next, n);
    }
  }

  lemma UseKeepsValid(sh: Shard, u: Use)
    requires ValidShard(sh) && 0 < sh.capacity && (u.Serve? ==> u.key in sh.entries)
    ensures ValidShard(Used(sh, u)) && Used(sh, u).capacity == sh.capacity
  {
    OperationsKeepTheShardValid(sh, u.key, if u.Store? then u.entry else sh.entries[u.key], 0);
  }

  ghost predicate InRecency(sh: Shard, capacity: nat, uses: seq<Use>, n: nat)
    requires n <= |uses|
  {
    ValidShard(sh) && sh.capacity == capacity && AllRecent(sh.order, capacity, Rank(uses, n))
  }

  lemma OneMoreUse(sh: Shard, capacity: nat, uses: seq<Use>, n: nat)
    requires 0 < n <= |uses| && 0 < capacity && InRecency(sh, capacity, uses, n - 1)
    requires uses[n - 1].Serve? ==> uses[n - 1].key in sh.entries
    ensures InRecency(Used(sh, uses[n - 1]), capacity, uses, n)
  {
    NextUseBumps(uses, n);
    UseKeepsRecent(sh, uses[n - 1], Rank(uses, n - 1), Rank(uses, n), n - 1);
    UseKeepsValid(sh, uses[n - 1]);
  }

  lemma NothingUsedYet(capacity: nat, uses: seq<Use>)
    ensures InRecency(EmptyShard(capacity), capacity, uses, 0)
  {
  }

  /** Over every run of uses of an empty shard with any room: its rows are in order of their
      last use, and a row used but not held was last used before all of them, the shard
      being full. */
  lemma {:induction false} LeastRecentlyUsedGoes(capacity: nat, uses: seq<Use>, n: nat)
    requires 0 < capacity && IsRun(capacity, uses) && n <= |uses|
    ensures InRecency(After(capacity, uses, n), capacity, uses, n)
  {
    if n == 0 {
      NothingUsedYet(capacity, uses);
    } else {
      LeastRecentlyUsedGoes(capacity, uses, n - 1);
      OneMoreUse(After(capacity, uses, n - 1), capacity, uses, n);
    }
  }
}
