/** The queue over its store: each call is the read and the conditional commit of the
    protocol's steps, and the scans take the oldest rows first. */
module JobsQueue {
  import opened Prelude
  import opened ByteOrder
  import opened JobsModel
  import opened JobsProtocol
  import Keys

  // --- scan order --------------------------------------------------------------------------

  /** The order of a partition's keys: due time, then job. */
  predicate Earlier(a: Key, b: Key) {
    a.due < b.due || (a.due == b.due && Lt(a.id, b.id))
  }

  function PartitionByte(p: Partition): byte {
    match p
    case PendingPart => 1
    case RunningPart => 2
    case DonePart => 3
  }

  function StorageKey(tenant: Bytes, ns: Bytes, k: Key): Bytes
    requires k.due < 0x1_0000_0000_0000_0000
  {
    Keys.Build(Keys.Key(tenant, ns, Keys.Job(PartitionByte(k.part), k.due, k.id)))
  }

  /** It is the order of the bytes the store keeps them under. */
  lemma ScanOrderIsByteOrder(tenant: Bytes, ns: Bytes, a: Key, b: Key)
    requires a.part == b.part && a.due < 0x1_0000_0000_0000_0000 && b.due < 0x1_0000_0000_0000_0000
    ensures Lt(StorageKey(tenant, ns, a), StorageKey(tenant, ns, b)) <==> Earlier(a, b)
  {
    SpanOfWords();
    var p := Keys.StatePrefix(tenant, ns, PartitionByte(a.part));
    StorageKeySplits(tenant, ns, a);
    StorageKeySplits(tenant, ns, b);
    CommonPrefix(p, BigEndian(a.due, 8) + a.id, BigEndian(b.due, 8) + b.id);
    BigEndianOrders(a.due, b.due, 8, a.id, b.id);
  }

  lemma StorageKeySplits(tenant: Bytes, ns: Bytes, k: Key)
    requires k.due < 0x1_0000_0000_0000_0000
    ensures StorageKey(tenant, ns, k) == Keys.StatePrefix(tenant, ns, PartitionByte(k.part)) + (BigEndian(k.due, 8) + k.id)
  {
    SpanOfWords();
  }

  lemma EarlierIsTotal(a: Key, b: Key, c: Key)
    requires a.part == b.part == c.part
    ensures Earlier(a, b) || a == b || Earlier(b, a)
    ensures Earlier(a, b) ==> a != b && !Earlier(b, a)
    ensures Earlier(a, b) && Earlier(b, c) ==> Earlier(a, c)
  {
    Total(a.id, b.id);
    Irreflexive(a.id);
    if Lt(a.id, b.id) {
      Asymmetric(a.id, b.id);
      if Lt(b.id, c.id) {
        Transitive(a.id, b.id, c.id);
      }
    }
  }

  /** A finite set of one partition's keys has an earliest. */
  lemma {:induction false} HasEarliest(ks: set<Key>, part: Partition) returns (first: Key)
    requires ks != {} && forall k | k in ks :: k.part == part
    ensures first in ks && forall k | k in ks && k != first :: Earlier(first, k)
  {
    var x :| x in ks;
    if ks == {x} {
      return x;
    }
    var least := HasEarliest(ks - {x}, part);
    EarlierIsTotal(least, x, x);
    first := if Earlier(x, least) then x else least;
    forall k | k in ks && k != first
      ensures Earlier(first, k)
    {
      if k != x && first == x {
        if k != least {
          EarlierIsTotal(x, least, k);
        }
      }
    }
  }

  predicate InScanOrder(ks: seq<Key>) {
    forall i, j | 0 <= i < j < |ks| :: Earlier(ks[i], ks[j])
  }

  const CLAIM_SCAN_CAP := 1024

  predicate Wanted(typ: string, types: seq<string>) {
    types == [] || typ in types
  }

  predicate IsDue(k: Key, part: Partition, bound: Instant) {
    k.part == part && k.due <= bound
  }

  /** Due, and of a type asked for. */
  predicate Candidate(jobs: Rows, k: Key, part: Partition, bound: Instant, types: seq<string>) {
    k in jobs && IsDue(k, part, bound) && Wanted(jobs[k].typ, types)
  }

  /** One row a job, each where it belongs. */
  predicate WellKept(jobs: Rows) {
    OneRow(jobs) && forall k | k in jobs :: RowOk(k, jobs[k])
  }

  /** What a scan left behind is later than everything it took. */
  ghost predicate OldestFirst(jobs: Rows, part: Partition, bound: Instant, types: seq<string>, taken: seq<Key>) {
    forall k, o | Candidate(jobs, k, part, bound, types) && k !in taken && o in taken :: Earlier(o, k)
  }

  /** How many rows that are due come before one in a scan. */
  ghost function Ahead(jobs: Rows, k: Key, part: Partition, bound: Instant): nat {
    |set o | o in jobs && IsDue(o, part, bound) && Earlier(o, k)|
  }

  /** Out of the first 1024 rows due, a scan takes none but those, and leaves a wanted one
      only once it has as many as it was asked for. */
  ghost predicate Exhausts(jobs: Rows, part: Partition, bound: Instant, types: seq<string>, want: int, taken: seq<Key>) {
    && (forall k | k in taken :: Ahead(jobs, k, part, bound) < 1024)
    && ((want > 0 && |taken| == want)
        || forall k | Candidate(jobs, k, part, bound, types) && Ahead(jobs, k, part, bound) < 1024 :: k in taken)
  }

  ghost function FirstOf(ks: seq<Key>, i: nat): set<Key>
    requires i <= |ks|
  {
    if i == 0 then {} else FirstOf(ks, i - 1) + {ks[i - 1]}
  }

  lemma {:induction false} FirstOfCounts(ks: seq<Key>, i: nat)
    requires i <= |ks| && Apart(ks)
    ensures |FirstOf(ks, i)| == i
    ensures forall j | 0 <= j < |ks| :: ks[j] in FirstOf(ks, i) <==> j < i
    ensures forall k | k in FirstOf(ks, i) :: k in ks
  {
    if i > 0 {
      FirstOfCounts(ks, i - 1);
    }
  }

  lemma PlaceInOrder(ks: seq<Key>, i: nat, j: nat)
    requires i < |ks| && j < |ks| && InScanOrder(ks) && ks[i].part == ks[j].part
    ensures (Earlier(ks[j], ks[i]) <==> j < i) && (ks[i] == ks[j] <==> i == j)
  {
    EarlierIsTotal(ks[i], ks[j], ks[i]);
    EarlierIsTotal(ks[j], ks[i], ks[j]);
  }

  /** In a scan of all that is due, a row's place says how many are ahead of it. */
  lemma PlaceInScan(jobs: Rows, ks: seq<Key>, i: nat, part: Partition, bound: Instant)
    requires i < |ks| && InScanOrder(ks) && forall k :: k in ks <==> k in jobs && IsDue(k, part, bound)
    ensures Ahead(jobs, ks[i], part, bound) == i
  {
    forall j, l | 0 <= j < |ks| && 0 <= l < |ks|
      ensures (Earlier(ks[j], ks[l]) <==> j < l) && (ks[j] == ks[l] <==> j == l)
    {
      assert ks[j] in ks && ks[l] in ks;
      PlaceInOrder(ks, l, j);
    }
    FirstOfCounts(ks, i);
    var sooner := set o | o in jobs && IsDue(o, part, bound) && Earlier(o, ks[i]);
    forall k: Key
      ensures k in sooner <==> k in FirstOf(ks, i)
    {
      if k in ks {
        var j :| 0 <= j < |ks| && ks[j] == k;
      }
    }
    assert sooner == FirstOf(ks, i);
  }

  /** Taking what is wanted out of the first so many leaves nothing it should not. */
  lemma TakenExhausts(jobs: Rows, ks: seq<Key>, i: nat, part: Partition, bound: Instant, types: seq<string>, want: int, out: seq<Key>)
    requires i <= |ks| && InScanOrder(ks) && Taken(jobs, ks, i, types, out)
    requires forall k :: k in ks <==> k in jobs && IsDue(k, part, bound)
    requires i <= 1024 && (i == |ks| || i == 1024 || (want > 0 && |out| == want))
    ensures Exhausts(jobs, part, bound, types, want, out)
  {
    forall k: Key | k in out
      ensures Ahead(jobs, k, part, bound) < 1024
    {
      var j :| 0 <= j < i && ks[..i][j] == k;
      PlaceInScan(jobs, ks, j, part, bound);
    }
    if !(want > 0 && |out| == want) {
      forall k | Candidate(jobs, k, part, bound, types) && Ahead(jobs, k, part, bound) < 1024
        ensures k in out
      {
        var j :| 0 <= j < |ks| && ks[j] == k;
        PlaceInScan(jobs, ks, j, part, bound);
        assert ks[..i][j] == k;
      }
    }
  }

  /** The rows wanted out of the first so many scanned, in the order scanned. */
  ghost predicate Taken(jobs: Rows, ks: seq<Key>, i: nat, types: seq<string>, out: seq<Key>)
    requires i <= |ks|
  {
    && (forall k | k in ks :: k in jobs)
    && InScanOrder(out) && forall k :: k in out <==> k in ks[..i] && k in jobs && Wanted(jobs[k].typ, types)
  }

  lemma TakeOneMore(jobs: Rows, ks: seq<Key>, i: nat, types: seq<string>, out: seq<Key>)
    requires i < |ks| && InScanOrder(ks) && Taken(jobs, ks, i, types, out)
    ensures ks[i] in jobs
    ensures Taken(jobs, ks, i + 1, types, if Wanted(jobs[ks[i]].typ, types) then out + [ks[i]] else out)
  {
    assert ks[i] in ks && ks[..i + 1] == ks[..i] + [ks[i]];
    forall j | 0 <= j < |out|
      ensures Earlier(out[j], ks[i])
    {
      assert out[j] in out && out[j] in ks[..i];
    }
  }

  lemma TakenIsOldest(jobs: Rows, ks: seq<Key>, i: nat, part: Partition, bound: Instant, types: seq<string>, out: seq<Key>)
    requires i <= |ks| && InScanOrder(ks) && Taken(jobs, ks, i, types, out)
    requires forall k :: k in ks <==> k in jobs && IsDue(k, part, bound)
    ensures forall k | k in out :: Candidate(jobs, k, part, bound, types)
    ensures OldestFirst(jobs, part, bound, types, out)
  {
    assert ks == ks[..i] + ks[i..];
    forall k | Candidate(jobs, k, part, bound, types) && k !in out
      ensures k in ks[i..]
    {
      assert k in ks && k !in ks[..i];
    }
    forall k, o | Candidate(jobs, k, part, bound, types) && k !in out && o in out
      ensures Earlier(o, k)
    {
      assert o in ks[..i] && k in ks[i..];
    }
  }

  /** A worker's pointer to a job it holds, and where it was last stored, if it was. */
  class JobRef {
    const tenant: string
    var job: Job
    var stored: Option<Key>

    constructor (tenant: string, job: Job, stored: Option<Key>)
      ensures this.tenant == tenant && this.job == job && this.stored == stored
    {
      this.tenant, this.job, this.stored := tenant, job, stored;
    }
  }

  // --- what an operation leaves, field by field ---------------------------------------------

  /** A row's key: by when it may run while it waits, when its lease lapses while it runs,
      and when it ended after that. */
  predicate BelongsAt(j: Job, k: Key) {
    && k.id == j.id
    && (j.state == Pending || j.state == Retry ==> k.part == PendingPart && k.due == j.runAt)
    && (j.state == Running ==> k.part == RunningPart && j.lease.Some? && k.due == j.lease.value.expiresAt)
    && (j.state == Completed || j.state == Failed || j.state == Cancelled ==> k.part == DonePart && k.due == j.updatedAt)
  }

  /** The work itself, which no operation changes. */
  predicate SameWork(a: Job, b: Job) {
    && a.id == b.id && a.typ == b.typ && a.payload == b.payload && a.priority == b.priority
    && a.maxAttempts == b.maxAttempts && a.createdAt == b.createdAt
  }

  predicate Waits(j: Job, at: Instant) {
    (j.state == Pending || j.state == Retry) && j.lease == None && j.runAt == at
  }

  predicate Ended(j: Job, state: JobState) {
    j.state == state && j.lease == None
  }

  /** What an operation makes of the row it re-read. Only whether a failure is the last is
      read off the copy. */
  predicate Outcome(op: Op, held: Job, cur: Job, next: Job, now: Instant, lease: nat) {
    && SameWork(cur, next) && next.updatedAt == now
    && (!op.Save? ==> next.checkpoint == cur.checkpoint)
    && (!op.Release? ==> next.attempts == cur.attempts)
    && match op
       case Complete => Ended(next, Completed) && next.lastError == ""
       case Fail(error, delay) =>
         if held.attempts >= held.maxAttempts
         then Ended(next, Failed) && next.lastError == (if error == "" then cur.lastError else error)
         else next.state == Retry && Waits(next, now + delay) && next.lastError == error
       case Renew =>
         && next.state == cur.state && cur.lease.Some? && next.lastError == cur.lastError
         && next.lease == Some(Lease(cur.lease.value.owner, now + lease, cur.lease.value.token))
       case Save(cursor) => next.checkpoint == cursor && next.state == cur.state && next.lease == cur.lease && next.lastError == cur.lastError
       case Release =>
         && next.state == Pending && Waits(next, now) && next.lastError == cur.lastError
         && next.attempts == if cur.attempts == 0 then 0 else cur.attempts - 1
       case Cancel => Ended(next, Cancelled) && next.lastError == "cancelled by an operator"
  }

  /** The history a transition writes: one row for a try that ended, else none. */
  predicate HistoryOf(op: Op, held: Job, next: Job, runId: Id, now: Instant, before: Runs, after: Runs) {
    if op.Complete? || op.Fail? || (op.Cancel? && held.state == Running && held.lease.Some?) then
      && RunKey(now, runId) !in before && RunKey(now, runId) in after && after - {RunKey(now, runId)} == before
      && var run := after[RunKey(now, runId)];
         && run.id == runId && run.jobId == held.id && run.typ == held.typ && run.attempt == next.attempts
         && run.finishedAt == now && run.outcome == next.state
         && (held.lease.Some? ==> run.owner == held.lease.value.owner)
         && run.error == match op case Fail(error, _) => error case Complete => "" case _ => "cancelled by an operator"
    else after == before
  }

  /** The row's lease, if the copy has one, is the copy's. */
  predicate StillHolds(held: Job, cur: Job) {
    held.lease.Some? ==> cur.lease.Some? && cur.lease.value.token == held.lease.value.token
  }

  lemma PlanOutcome(w: Id, slot: Slot, op: Op, jobs: Rows, runId: Id, now: Instant, lease: nat)
    requires slot.stored in jobs && Plan(w, slot, op, jobs, runId, now, lease).Ok?
    ensures var t := Plan(w, slot, op, jobs, runId, now, lease).value;
            && t.key == slot.stored && t.row == jobs[slot.stored] && StillHolds(slot.copy, t.row)
            && Outcome(op, slot.copy, t.row, t.next, now, lease) && KeyOf(t.next).Some? && BelongsAt(t.next, KeyOf(t.next).value)
  {
  }

  lemma PlanHistory(w: Id, slot: Slot, op: Op, jobs: Rows, runs: Runs, runId: Id, now: Instant, lease: nat)
    requires Plan(w, slot, op, jobs, runId, now, lease).Ok? && Holds(jobs, runs, Plan(w, slot, op, jobs, runId, now, lease).value)
    ensures var t := Plan(w, slot, op, jobs, runId, now, lease).value;
            HistoryOf(op, slot.copy, t.next, runId, now, runs, Recorded(runs, t.run))
  {
    var t := Plan(w, slot, op, jobs, runId, now, lease).value;
    if t.run.Some? {
      assert Recorded(runs, t.run) - {RunKey(now, runId)} == runs;
    }
  }

  /** A row gone, or under another's token, is a conflict; one that is not where it belongs is
      corrupt; and only a held lease is renewed or saved under. */
  predicate RefusedFor(slot: Slot, op: Op, jobs: Rows, r: Result<bool>) {
    if (op.Renew? || op.Save?) && slot.copy.lease.None? then r == Err(Invalid)
    else if slot.stored !in jobs then r == Err(Conflict)
    else if !BelongsAt(jobs[slot.stored], slot.stored) then r == Err(Corruption)
    else !StillHolds(slot.copy, jobs[slot.stored]) ==> r == Err(Conflict)
  }

  lemma PlanRefuses(w: Id, slot: Slot, op: Op, jobs: Rows, runId: Id, now: Instant, lease: nat, r: Result<bool>)
    requires Plan(w, slot, op, jobs, runId, now, lease).Err? ==> r == Err(Plan(w, slot, op, jobs, runId, now, lease).error)
    ensures RefusedFor(slot, op, jobs, r)
  {
  }

  /** Whoever holds the row as it stands, and may act on it, is not refused. */
  lemma HolderIsNotRefused(w: Id, slot: Slot, op: Op, jobs: Rows, runs: Runs, runId: Id, now: Instant, lease: nat)
    requires slot.stored in jobs && jobs[slot.stored] == slot.copy && RowOk(slot.stored, slot.copy) && MayAct(slot.copy, op)
    requires runId != ZERO_ID && RunKey(now, runId) !in runs
    ensures var plan := Plan(w, slot, op, jobs, runId, now, lease); plan.Ok? && Holds(jobs, runs, plan.value)
  {
  }

  /** A claim's grant: the row as it was but running, under this owner's lease from now and
      this token, one more try charged, stored where its lease lapses; and the copy is it. */
  predicate Granted(row: Job, slot: Slot, owner: string, token: Token, now: Instant, lease: nat) {
    var next := slot.copy;
    && slot.stored == Key(RunningPart, now + lease, row.id)
    && SameWork(row, next) && next.state == Running && next.lease == Some(Lease(owner, now + lease, token))
    && next.attempts == row.attempts + 1 && next.checkpoint == row.checkpoint && next.lastError == row.lastError
    && next.updatedAt == now
  }

  /** A reclamation: failed if it has no try left, else waiting again from now. */
  predicate GivenBack(row: Job, next: Job, now: Instant) {
    && SameWork(row, next) && next.attempts == row.attempts && next.checkpoint == row.checkpoint && next.updatedAt == now
    && if row.attempts >= row.maxAttempts then Ended(next, Failed) else next.state == Pending && Waits(next, now)
  }

  /** A new job as its caller gave it, what was left at zero filled in. */
  predicate FilledIn(given: Job, stateless: bool, freshId: Id, now: Instant, j: Job) {
    && j.id == (if given.id == ZERO_ID then freshId else given.id)
    && j.state == (if stateless then Pending else given.state)
    && j.runAt == (if given.runAt == 0 then now else given.runAt)
    && j.maxAttempts == (if given.maxAttempts == 0 then 6 else given.maxAttempts)
    && j.createdAt == (if given.createdAt == 0 then now else given.createdAt)
    && j.updatedAt == (if given.updatedAt == 0 then now else given.updatedAt)
    && j.typ == given.typ && j.payload == given.payload && j.priority == given.priority && j.attempts == given.attempts
    && j.lease == given.lease && j.checkpoint == given.checkpoint && j.lastError == given.lastError
  }

  /** A new job with the defaults for what its caller left at zero, its state among it. */
  function Filled(j: Job, stateless: bool, freshId: Id, now: Instant): (r: Job)
    ensures r.maxAttempts >= 1
  {
    j.(id := if j.id == ZERO_ID then freshId else j.id,
       state := if stateless then Pending else j.state,
       runAt := if j.runAt == 0 then now else j.runAt,
       maxAttempts := if j.maxAttempts == 0 then DEFAULT_MAX_ATTEMPTS else j.maxAttempts,
       createdAt := if j.createdAt == 0 then now else j.createdAt,
       updatedAt := if j.updatedAt == 0 then now else j.updatedAt)
  }

  lemma NewRow(jobs: Rows, key: Key, j: Job)
    requires WellKept(jobs) && key !in jobs && KeyOf(j) == Some(key) && Waiting(j.state) && j.maxAttempts >= 1
    ensures OneRow(jobs[key := j]) <==> forall k | k in jobs :: k.id != j.id
    ensures OneRow(jobs[key := j]) && j.attempts == 0 && j.lease.None? ==> WellKept(jobs[key := j])
  {
    var after := jobs[key := j];
    if OneRow(after) {
      forall k | k in jobs
        ensures k.id != j.id
      {
        assert k in after && key in after && key.id == j.id;
      }
    }
  }

  /** Looks a type up in the list asked for; an empty list asks for every type. */
  method IsWanted(typ: string, types: seq<string>) returns (wanted: bool)
    ensures wanted <==> types == [] || typ in types
  {
    if |types| == 0 {
      return true;
    }
    for i := 0 to |types|
      invariant typ !in types[..i]
    {
      if types[i] == typ {
        return true;
      }
      assert types[..i + 1] == types[..i] + [types[i]];
    }
    assert types[..|types|] == types;
    return false;
  }

  class Queue {
    var jobs: Rows
    var runs: Runs
    const lease: nat

    ghost predicate Valid()
      reads this
    {
      WellKept(jobs)
    }

    constructor (lease: nat)
      ensures Valid() && jobs == map[] && runs == map[]
    {
      jobs, runs, this.lease := map[], map[], lease;
    }

    /** Stores a new job, filling in what its caller left blank. Only the job's own key has
        to be free, so one row a job survives exactly when no other row has its id: a
        fresh id is what callers rely on. */
    method Enqueue(j: JobRef, stateless: bool, freshId: Id, now: Instant) returns (r: Result<Key>)
      requires Valid()
      modifies this`jobs, j
      ensures FilledIn(old(j.job), stateless, freshId, now, j.job)
      ensures r == if j.job.state != Pending && j.job.state != Retry then Err(Invalid)
                   else if Key(PendingPart, j.job.runAt, j.job.id) in old(jobs) then Err(Conflict)
                   else Ok(Key(PendingPart, j.job.runAt, j.job.id))
      ensures r.Err? ==> jobs == old(jobs)
      ensures r.Ok? ==> jobs == old(jobs)[r.value := j.job] && BelongsAt(j.job, r.value) && j.stored == Some(r.value)
      ensures r.Ok? ==> (OneRow(jobs) <==> forall k | k in old(jobs) :: k.id != j.job.id)
      ensures r.Ok? && OneRow(jobs) && j.job.attempts == 0 && j.job.lease.None? ==> Valid()
    {
      j.job := Filled(j.job, stateless, freshId, now);
      if !Waiting(j.job.state) {
        return Err(Invalid);
      }
      var key := Key(PendingPart, j.job.runAt, j.job.id);
      if key in jobs {
        return Err(Conflict);
      }
      NewRow(jobs, key, j.job);
      jobs := jobs[key := j.job];
      j.stored := Some(key);
      r := Ok(key);
    }

    /** What the protocol plans, committed if its conditions still hold, and the caller's copy
        overwritten with the outcome. */
    method CarryOut(j: JobRef, op: Op, runId: Id, now: Instant) returns (r: Result<bool>)
      modifies this, j
      ensures j.tenant == "" || old(j.stored).None? ==>
                r == Err(Invalid) && jobs == old(jobs) && runs == old(runs) && j.job == old(j.job) && j.stored == old(j.stored)
      ensures j.tenant != "" && old(j.stored).Some? ==>
                var plan := Plan(runId, Slot(old(j.job), old(j.stored).value), op, old(jobs), runId, now, lease);
                if plan.Ok? && Holds(old(jobs), old(runs), plan.value) then
                  var t := plan.value;
                  && r.Ok? && j.job == t.next && KeyOf(t.next).Some? && j.stored == KeyOf(t.next)
                  && jobs == Moved(old(jobs), t.key, KeyOf(t.next).value, t.next) && runs == Recorded(old(runs), t.run)
                else
                  && r == Err(if plan.Err? then plan.error else Conflict)
                  && jobs == old(jobs) && runs == old(runs) && j.job == old(j.job) && j.stored == old(j.stored)
    {
      var held := j.job;
      if (op.Renew? || op.Save?) && held.lease.None? {
        return Err(Invalid);
      }
      if j.tenant == "" || j.stored.None? {
        return Err(Invalid);
      }
      var key := j.stored.value;
      if key !in jobs {
        return Err(Conflict);
      }
      var cur := jobs[key];
      var decoded := Unmarshal(key, cur);
      if decoded.Err? {
        return Err(decoded.error);
      }
      var fence := Fence(held, cur);
      if fence.Err? {
        return Err(fence.error);
      }
      var next := Apply(op, held, cur, now, lease);
      var newKey := KeyOf(next);
      if newKey.None? {
        return Err(Invalid);
      }
      var run := Attempt(op, held, runId, now);
      if run.Some? {
        if !Accepted(run.value, held, next) {
          return Err(Invalid);
        }
        if RunKeyOf(run.value) in runs {
          return Err(Conflict);
        }
        runs := runs[RunKeyOf(run.value) := run.value];
      }
      jobs := (jobs - {key})[newKey.value := next];
      j.job, j.stored := next, newKey;
      r := Ok(true);
    }

    /** How every held job changes. Whoever is refused changes nothing; whoever is not finds
        the row moved, the copy with it, and the try recorded if it ended. */
    method TransitionWithRun(j: JobRef, op: Op, runId: Id, now: Instant) returns (r: Result<bool>)
      modifies this, j
      ensures j.tenant == "" || old(j.stored).None? ==> r == Err(Invalid)
      ensures r.Err? ==> jobs == old(jobs) && runs == old(runs) && j.job == old(j.job) && j.stored == old(j.stored)
      ensures r.Ok? ==>
                && old(j.stored).Some? && old(j.stored).value in old(jobs) && j.stored.Some?
                && var was, nk := old(j.stored).value, j.stored.value; var cur := old(jobs)[was];
                   && StillHolds(old(j.job), cur) && Outcome(op, old(j.job), cur, j.job, now, lease) && BelongsAt(j.job, nk)
                   && nk in jobs && jobs[nk] == j.job && jobs - {nk} == old(jobs) - {was, nk}
                   && HistoryOf(op, old(j.job), j.job, runId, now, old(runs), runs)
      ensures j.tenant != "" && old(j.stored).Some? ==> RefusedFor(Slot(old(j.job), old(j.stored).value), op, old(jobs), r)
      ensures (j.tenant != "" && old(j.stored).Some? && old(j.stored).value in old(jobs)
               && old(jobs)[old(j.stored).value] == old(j.job) && RowOk(old(j.stored).value, old(j.job)) && MayAct(old(j.job), op)
               && runId != ZERO_ID && RunKey(now, runId) !in old(runs)) ==> r.Ok?
    {
      ghost var slot, held, before, history := j.stored, j.job, jobs, runs;
      r := CarryOut(j, op, runId, now);
      if slot.Some? && j.tenant != "" {
        PlanRefuses(runId, Slot(held, slot.value), op, before, runId, now, lease, r);
        if r.Ok? {
          PlanOutcome(runId, Slot(held, slot.value), op, before, runId, now, lease);
          PlanHistory(runId, Slot(held, slot.value), op, before, history, runId, now, lease);
        } else if slot.value in before && before[slot.value] == held && RowOk(slot.value, held) && MayAct(held, op) && runId != ZERO_ID && RunKey(now, runId) !in history {
          HolderIsNotRefused(runId, Slot(held, slot.value), op, before, history, runId, now, lease);
        }
      }
    }

    /** The keys of a partition's range, as an iterator over it gives them. */
    method Scan(part: Partition, bound: Instant) returns (ks: seq<Key>)
      ensures InScanOrder(ks) && forall k :: k in ks <==> k in jobs && IsDue(k, part, bound)
    {
      ks := [];
      var rest := set k | k in jobs && k.part == part && k.due <= bound;
      while rest != {}
        invariant InScanOrder(ks) && forall k | k in rest :: k.part == part
        invariant forall k :: k in ks || k in rest <==> k in jobs && IsDue(k, part, bound)
        invariant forall k, o | k in rest && o in ks :: Earlier(o, k)
        decreases |rest|
      {
        ghost var least := HasEarliest(rest, part);
        var k :| k in rest && forall k' | k' in rest && k' != k :: Earlier(k, k');
        ks, rest := ks + [k], rest - {k};
      }
    }

    /** The oldest rows of a partition that are wanted and due by the bound, as many as asked
        for, out of at most a fixed number looked at. */
    method Due(part: Partition, bound: Instant, types: seq<string>, want: int) returns (out: seq<Key>)
      ensures InScanOrder(out) && (want > 0 ==> |out| <= want)
      ensures forall k | k in out :: Candidate(jobs, k, part, bound, types)
      ensures OldestFirst(jobs, part, bound, types, out)
      ensures Exhausts(jobs, part, bound, types, want, out)
    {
      var ks := Scan(part, bound);
      out := [];
      var i := 0;
      while i < |ks| && i < CLAIM_SCAN_CAP
        invariant 0 <= i <= |ks| && i <= CLAIM_SCAN_CAP && (want > 0 ==> |out| < want)
        invariant Taken(jobs, ks, i, types, out)
      {
        TakeOneMore(jobs, ks, i, types, out);
        var wanted := IsWanted(jobs[ks[i]].typ, types);
        if wanted {
          out := out + [ks[i]];
        }
        i := i + 1;
        if want > 0 && |out| == want {
          break;
        }
      }
      TakenIsOldest(jobs, ks, i, part, bound, types, out);
      TakenExhausts(jobs, ks, i, part, bound, types, want, out);
    }

    /** Puts a job's next row in and takes its last one out, together, or neither if the last
        one has changed. */
    method Move(oldKey: Key, oldValue: Job, next: Job) returns (r: Result<Key>)
      modifies this`jobs
      ensures if KeyOf(next).None? then r == Err(Invalid) && jobs == old(jobs)
              else if oldKey !in old(jobs) || old(jobs)[oldKey] != oldValue then r == Err(Conflict) && jobs == old(jobs)
              else r == Ok(KeyOf(next).value) && jobs == Moved(old(jobs), oldKey, KeyOf(next).value, next)
    {
      var newKey := KeyOf(next);
      if newKey.None? {
        return Err(Invalid);
      }
      if oldKey !in jobs || jobs[oldKey] != oldValue {
        return Err(Conflict);
      }
      jobs := (jobs - {oldKey})[newKey.value := next];
      r := Ok(newKey.value);
    }

    /** Moves each row scanned to its successor, one conditional move at a time. A row no
        longer as it was scanned is somebody else's work by now, and is passed over. */
    method MoveEach(scanned: seq<Found>, nexts: seq<Job>) returns (out: seq<Slot>, ghost from: seq<Key>, ghost done: seq<Job>)
      requires Valid() && Distinct(scanned) && Successors(scanned, nexts)
      modifies this`jobs
      ensures Valid() && Exchanged(old(jobs), jobs, from, out)
      ensures from == StillKeys(old(jobs), scanned, |scanned|) && done == StillNexts(old(jobs), scanned, nexts, |scanned|)
      ensures HandedOut(out, done)
    {
      ghost var before := jobs;
      out := [];
      var i := 0;
      while i < |scanned|
        invariant 0 <= i <= |scanned| && jobs == Progress(before, scanned, nexts, i)
        invariant HandedOut(out, StillNexts(before, scanned, nexts, i))
      {
        MovesPassBy(before, scanned, nexts, i, scanned[i].key);
        var moved := Move(scanned[i].key, scanned[i].value, nexts[i]);
        if moved.Ok? {
          HandOneMore(out, StillNexts(before, scanned, nexts, i), nexts[i], moved.value);
          out := out + [Slot(nexts[i], moved.value)];
        }
        i := i + 1;
      }
      from, done := StillKeys(before, scanned, i), StillNexts(before, scanned, nexts, i);
      ProgressIsMoves(before, scanned, nexts, i);
      StillFrom(before, scanned, i);
      MovesKeepRows(before, from, done);
      MovesExchange(before, from, done, out);
    }

    /** The oldest due jobs of the types wanted, the more urgent of them first. */
    method Pick(types: seq<string>, n: int, now: Instant) returns (candidates: seq<Found>)
      requires Valid() && n > 0
      ensures |candidates| <= n && Distinct(candidates) && ByPriority(candidates)
      ensures AsFound(jobs, candidates) && AllCandidates(jobs, KeysOf(candidates), PendingPart, now, types)
      ensures OldestFirst(jobs, PendingPart, now, types, KeysOf(candidates))
      ensures Exhausts(jobs, PendingPart, now, types, n, KeysOf(candidates))
    {
      var due := Due(PendingPart, now, types, n);
      candidates := SortByPriority(ReadAll(jobs, due));
      SortedRows(jobs, due, candidates);
      SortedIsOldest(jobs, due, candidates, PendingPart, now, types, n);
    }

    /** Leases what a pick found to an owner, each under a token of its own. */
    method Claim(t: string, owner: string, types: seq<string>, n: int, now: Instant, tokens: seq<Token>)
      returns (r: Result<seq<Slot>>, ghost from: seq<Key>)
      requires Valid() && |tokens| >= n
      modifies this`jobs
      ensures Valid() && (r.Err? <==> t == "" || owner == "")
      ensures r.Err? ==> r.error == Invalid && jobs == old(jobs)
      ensures r.Ok? ==>
                && Exchanged(old(jobs), jobs, from, r.value) && |from| <= (if n > 0 then n else 0)
                && AllGranted(old(jobs), from, r.value, owner, tokens, now, lease)
                && AllCandidates(old(jobs), from, PendingPart, now, types) && InPriorityOrder(old(jobs), from)
                && (n > 0 ==> OldestFirst(old(jobs), PendingPart, now, types, from) && Exhausts(old(jobs), PendingPart, now, types, n, from))
    {
      from := [];
      if t == "" || owner == "" {
        return Err(Invalid), from;
      }
      if n <= 0 {
        return Ok([]), from;
      }
      ghost var before, nexts := jobs, [];
      var candidates := Pick(types, n, now);
      var leased := Leases(candidates, owner, tokens, now, lease);
      LeasesSucceed(jobs, candidates, owner, tokens, now, lease);
      NobodyElse(jobs, candidates, leased);
      PickedInOrder(jobs, candidates);
      var out;
      out, from, nexts := MoveEach(candidates, leased);
      LeasesAreGranted(before, out, from, nexts, owner, tokens, now, lease);
      r := Ok(out);
    }

    /** Takes back the jobs whose leases lapsed first: waiting again, or failed where no
        attempt is left. */
    method Reclaim(t: string, limit: int, now: Instant) returns (r: Result<nat>, ghost from: seq<Key>, ghost out: seq<Slot>)
      requires Valid()
      modifies this`jobs
      ensures Valid() && Exchanged(old(jobs), jobs, from, out) && AllGivenBack(old(jobs), from, out, now)
      ensures r == if t == "" then Err(Invalid) else Ok(|from|)
      ensures |from| <= (if limit > 0 then limit else 0)
      ensures AllCandidates(old(jobs), from, RunningPart, now, [])
      ensures t != "" && limit > 0 ==>
                OldestFirst(old(jobs), RunningPart, now, [], from) && Exhausts(old(jobs), RunningPart, now, [], limit, from)
    {
      from, out := [], [];
      if t == "" {
        return Err(Invalid), from, out;
      }
      if limit <= 0 {
        return Ok(0), from, out;
      }
      ghost var before, nexts := jobs, [];
      var due := Due(RunningPart, now, [], limit);
      var lapsed := ReadAll(jobs, due);
      SortedRows(jobs, due, lapsed);
      SortedIsOldest(jobs, due, lapsed, RunningPart, now, [], limit);
      var next := Returns(lapsed, now);
      ReturnsSucceed(jobs, lapsed, now);
      NobodyElse(jobs, lapsed, next);
      var moved;
      moved, from, nexts := MoveEach(lapsed, next);
      ReturnsAreGivenBack(before, moved, from, nexts, now);
      out := moved;
      r := Ok(|moved|);
    }

    /** Removes the jobs that finished first, all in one transaction, and nothing else. */
    method Reap(before: Instant, limit: int) returns (removed: nat, ghost from: seq<Key>)
      requires Valid()
      modifies this`jobs
      ensures Valid() && removed == |from| <= (if limit > 0 then limit else 0)
      ensures forall k | k in from :: k in old(jobs) && IsDue(k, DonePart, before)
      ensures jobs == old(jobs) - (set k | k in from)
      ensures limit > 0 ==> OldestFirst(old(jobs), DonePart, before, [], from) && Exhausts(old(jobs), DonePart, before, [], limit, from)
    {
      from := [];
      removed := 0;
      if limit <= 0 {
        assert jobs - (set k | k in from) == jobs;
        return;
      }
      var stale := Due(DonePart, before, [], limit);
      from := stale;
      removed := |stale|;
      jobs := jobs - set k | k in stale;
    }
  }

  // --- rows moved one by one --------------------------------------------------------------------

  predicate Apart(ks: seq<Key>) {
    forall i, j | 0 <= i < j < |ks| :: ks[i] != ks[j]
  }

  /** A well-formed row that can take another's place: the same job, at its own key. */
  predicate Succeeds(next: Job, k: Key) {
    KeyOf(next).Some? && RowOk(KeyOf(next).value, next) && KeyOf(next).value.id == k.id
  }

  predicate Replaces(jobs: Rows, ks: seq<Key>, nexts: seq<Job>) {
    |ks| == |nexts| && forall i | 0 <= i < |ks| :: ks[i] in jobs && Succeeds(nexts[i], ks[i])
  }

  function MoveAll(jobs: Rows, ks: seq<Key>, nexts: seq<Job>): Rows
    requires Replaces(jobs, ks, nexts)
  {
    if ks == [] then jobs
    else
      var n := |ks| - 1;
      Moved(MoveAll(jobs, ks[..n], nexts[..n]), ks[n], KeyOf(nexts[n]).value, nexts[n])
  }

  // --- rows as they were scanned -----------------------------------------------------------------

  /** A row a scan is considering, with the value a conditional move needs. */
  datatype Found = Found(key: Key, value: Job)

  predicate Distinct(scanned: seq<Found>) {
    forall i, j | 0 <= i < j < |scanned| :: scanned[i].key.id != scanned[j].key.id
  }

  predicate Unchanged(jobs: Rows, r: Found) {
    r.key in jobs && jobs[r.key] == r.value
  }

  predicate Successors(scanned: seq<Found>, nexts: seq<Job>) {
    |nexts| == |scanned| && forall i | 0 <= i < |scanned| :: Succeeds(nexts[i], scanned[i].key)
  }

  function ReadAll(jobs: Rows, ks: seq<Key>): (r: seq<Found>)
    requires forall k | k in ks :: k in jobs
    ensures |r| == |ks| && forall i | 0 <= i < |ks| :: r[i] == Found(ks[i], jobs[ks[i]])
  {
    if ks == [] then [] else ReadAll(jobs, ks[..|ks| - 1]) + [Found(ks[|ks| - 1], jobs[ks[|ks| - 1]])]
  }

  function KeysOf(scanned: seq<Found>): (r: seq<Key>)
    ensures |r| == |scanned| && forall i | 0 <= i < |scanned| :: r[i] == scanned[i].key
  {
    seq(|scanned|, i requires 0 <= i < |scanned| => scanned[i].key)
  }

  /** The first rows scanned that are still as they were, and what each becomes. */
  function StillKeys(jobs: Rows, scanned: seq<Found>, n: nat): seq<Key>
    requires n <= |scanned|
  {
    if n == 0 then []
    else if Unchanged(jobs, scanned[n - 1]) then StillKeys(jobs, scanned, n - 1) + [scanned[n - 1].key]
    else StillKeys(jobs, scanned, n - 1)
  }

  function StillNexts(jobs: Rows, scanned: seq<Found>, nexts: seq<Job>, n: nat): seq<Job>
    requires n <= |scanned| == |nexts|
  {
    if n == 0 then []
    else if Unchanged(jobs, scanned[n - 1]) then StillNexts(jobs, scanned, nexts, n - 1) + [nexts[n - 1]]
    else StillNexts(jobs, scanned, nexts, n - 1)
  }

  /** The store once the first rows scanned have been tried. */
  function Progress(jobs: Rows, scanned: seq<Found>, nexts: seq<Job>, n: nat): Rows
    requires n <= |scanned| && Successors(scanned, nexts)
  {
    if n == 0 then jobs
    else
      var sofar := Progress(jobs, scanned, nexts, n - 1);
      if Unchanged(jobs, scanned[n - 1]) then Moved(sofar, scanned[n - 1].key, KeyOf(nexts[n - 1]).value, nexts[n - 1]) else sofar
  }

  /** A job not yet tried has its row, or lacks it, as before. */
  lemma {:induction false} MovesPassBy(jobs: Rows, scanned: seq<Found>, nexts: seq<Job>, n: nat, k: Key)
    requires n <= |scanned| && Successors(scanned, nexts) && forall i | 0 <= i < n :: scanned[i].key.id != k.id
    ensures k in Progress(jobs, scanned, nexts, n) <==> k in jobs
    ensures k in jobs ==> Progress(jobs, scanned, nexts, n)[k] == jobs[k]
  {
    if n > 0 {
      MovesPassBy(jobs, scanned, nexts, n - 1, k);
    }
  }

  lemma {:induction false} ProgressIsMoves(jobs: Rows, scanned: seq<Found>, nexts: seq<Job>, n: nat)
    requires n <= |scanned| && Successors(scanned, nexts)
    ensures var from, done := StillKeys(jobs, scanned, n), StillNexts(jobs, scanned, nexts, n);
            Replaces(jobs, from, done) && Progress(jobs, scanned, nexts, n) == MoveAll(jobs, from, done)
  {
    if n > 0 {
      ProgressIsMoves(jobs, scanned, nexts, n - 1);
      var from, done := StillKeys(jobs, scanned, n - 1), StillNexts(jobs, scanned, nexts, n - 1);
      if Unchanged(jobs, scanned[n - 1]) {
        AnotherMove(jobs, from, done, scanned[n - 1].key, nexts[n - 1]);
      }
    }
  }

  lemma {:induction false} StillFrom(jobs: Rows, scanned: seq<Found>, n: nat)
    requires n <= |scanned| && Distinct(scanned)
    ensures forall k | k in StillKeys(jobs, scanned, n) :: k in jobs && exists i | 0 <= i < n :: scanned[i].key == k
    ensures Apart(StillKeys(jobs, scanned, n))
  {
    if n > 0 {
      StillFrom(jobs, scanned, n - 1);
      var short := StillKeys(jobs, scanned, n - 1);
      assert forall i | 0 <= i < |short| :: short[i] in short;
    }
  }

  /** With nobody else about, every row scanned is still as it was. */
  lemma {:induction false} NobodyElseYet(jobs: Rows, scanned: seq<Found>, nexts: seq<Job>, n: nat)
    requires n <= |scanned| == |nexts| && AsFound(jobs, scanned)
    ensures StillKeys(jobs, scanned, n) == KeysOf(scanned)[..n] && StillNexts(jobs, scanned, nexts, n) == nexts[..n]
  {
    if n > 0 {
      NobodyElseYet(jobs, scanned, nexts, n - 1);
    }
  }

  lemma NobodyElse(jobs: Rows, scanned: seq<Found>, nexts: seq<Job>)
    requires |scanned| == |nexts| && AsFound(jobs, scanned)
    ensures StillKeys(jobs, scanned, |scanned|) == KeysOf(scanned) && StillNexts(jobs, scanned, nexts, |scanned|) == nexts
  {
    NobodyElseYet(jobs, scanned, nexts, |scanned|);
    assert KeysOf(scanned)[..|scanned|] == KeysOf(scanned) && nexts[..|scanned|] == nexts;
  }

  predicate AllCandidates(jobs: Rows, ks: seq<Key>, part: Partition, bound: Instant, types: seq<string>) {
    forall k | k in ks :: Candidate(jobs, k, part, bound, types)
  }

  /** Nothing scanned has changed. */
  predicate AsFound(jobs: Rows, scanned: seq<Found>) {
    forall i | 0 <= i < |scanned| :: Unchanged(jobs, scanned[i])
  }

  /** Some rows have given way to their successors, each at its own key. */
  predicate Landed(after: Rows, out: seq<Slot>) {
    forall i | 0 <= i < |out| :: out[i].stored in after && after[out[i].stored] == out[i].copy && BelongsAt(out[i].copy, out[i].stored)
  }

  /** Nothing has come but the successors. */
  ghost predicate NothingElseCame(before: Rows, after: Rows, from: seq<Key>, out: seq<Slot>) {
    forall k | k in after :: (k in before && k !in from) || exists i | 0 <= i < |out| :: out[i].stored == k
  }

  /** Some rows have given way to their successors, and no other row has come, gone or
      changed. */
  ghost predicate Exchanged(before: Rows, after: Rows, from: seq<Key>, out: seq<Slot>) {
    && |out| == |from| && Apart(from) && (forall k | k in from :: k in before)
    && Untouched(before, after, from) && Landed(after, out) && NothingElseCame(before, after, from, out)
  }

  /** Each row handed out is what a claim grants. */
  predicate AllGranted(jobs: Rows, from: seq<Key>, out: seq<Slot>, owner: string, tokens: seq<Token>, now: Instant, lease: nat) {
    |out| == |from| <= |tokens| &&
    forall i | 0 <= i < |from| :: from[i] in jobs && Granted(jobs[from[i]], out[i], owner, tokens[i], now, lease)
  }

  predicate AllGivenBack(jobs: Rows, from: seq<Key>, out: seq<Slot>, now: Instant) {
    |out| == |from| && forall i | 0 <= i < |from| :: from[i] in jobs && GivenBack(jobs[from[i]], out[i].copy, now)
  }

  lemma LeasesAreGranted(jobs: Rows, out: seq<Slot>, ks: seq<Key>, nexts: seq<Job>, owner: string, tokens: seq<Token>, now: Instant, lease: nat)
    requires LeasedOut(jobs, ks, nexts, owner, tokens, now, lease) && HandedOut(out, nexts)
    ensures AllGranted(jobs, ks, out, owner, tokens, now, lease)
  {
  }

  lemma ReturnsAreGivenBack(jobs: Rows, out: seq<Slot>, ks: seq<Key>, nexts: seq<Job>, now: Instant)
    requires Returned(jobs, ks, nexts, now) && HandedOut(out, nexts)
    ensures AllGivenBack(jobs, ks, out, now)
  {
  }

  predicate LeasedOut(jobs: Rows, ks: seq<Key>, nexts: seq<Job>, owner: string, tokens: seq<Token>, now: Instant, lease: nat) {
    |nexts| == |ks| <= |tokens| &&
    forall i | 0 <= i < |ks| :: ks[i] in jobs && nexts[i] == Claimed(jobs[ks[i]], owner, tokens[i], now, lease)
  }

  predicate Returned(jobs: Rows, ks: seq<Key>, nexts: seq<Job>, now: Instant) {
    |nexts| == |ks| && forall i | 0 <= i < |ks| :: ks[i] in jobs && nexts[i] == Reclaimed(jobs[ks[i]], now)
  }

  // --- priority ------------------------------------------------------------------------------------

  /** More urgent, or as urgent and due earlier. */
  predicate Before(a: Found, b: Found) {
    a.value.priority > b.value.priority || (a.value.priority == b.value.priority && Earlier(a.key, b.key))
  }

  predicate ByPriority(scanned: seq<Found>) {
    forall i, j | 0 <= i < j < |scanned| :: Before(scanned[i], scanned[j])
  }

  /** Puts a row, later than the ones sorted so far, behind those at least as urgent. */
  method Insert(sorted: seq<Found>, r: Found) returns (out: seq<Found>)
    requires ByPriority(sorted) && forall x | x in sorted :: Earlier(x.key, r.key)
    ensures ByPriority(out) && multiset(out) == multiset(sorted) + multiset{r}
  {
    var p := |sorted|;
    while p > 0 && sorted[p - 1].value.priority < r.value.priority
      invariant 0 <= p <= |sorted| && forall x | p <= x < |sorted| :: sorted[x].value.priority < r.value.priority
    {
      p := p - 1;
    }
    InsertedInOrder(sorted, p, r);
    InsertedCounts(sorted, p, r);
    out := sorted[..p] + [r] + sorted[p..];
  }

  lemma InsertedCounts(sorted: seq<Found>, p: nat, r: Found)
    requires p <= |sorted|
    ensures multiset(sorted[..p] + [r] + sorted[p..]) == multiset(sorted) + multiset{r}
  {
    assert sorted == sorted[..p] + sorted[p..];
  }

  lemma InsertedInOrder(sorted: seq<Found>, p: nat, r: Found)
    requires p <= |sorted| && ByPriority(sorted) && forall x | x in sorted :: Earlier(x.key, r.key)
    requires forall x | p <= x < |sorted| :: sorted[x].value.priority < r.value.priority
    requires p > 0 ==> sorted[p - 1].value.priority >= r.value.priority
    ensures ByPriority(sorted[..p] + [r] + sorted[p..])
  {
    var out := sorted[..p] + [r] + sorted[p..];
    forall x | 0 <= x < p
      ensures Before(sorted[x], r)
    {
      assert sorted[x] in sorted && (x < p - 1 ==> Before(sorted[x], sorted[p - 1]));
    }
    forall i, j | 0 <= i < j < |out|
      ensures Before(out[i], out[j])
    {
      assert out[i] == (if i < p then sorted[i] else if i == p then r else sorted[i - 1]);
      assert out[j] == (if j < p then sorted[j] else if j == p then r else sorted[j - 1]);
    }
  }

  /** A stable sort of rows in due order: within one priority the oldest stays first. */
  method SortByPriority(scanned: seq<Found>) returns (out: seq<Found>)
    requires forall i, j | 0 <= i < j < |scanned| :: Earlier(scanned[i].key, scanned[j].key)
    ensures ByPriority(out) && multiset(out) == multiset(scanned)
  {
    out := [];
    var i := 0;
    while i < |scanned|
      invariant 0 <= i <= |scanned| && ByPriority(out) && multiset(out) == multiset(scanned[..i])
    {
      forall x | x in out
        ensures Earlier(x.key, scanned[i].key)
      {
        assert x in multiset(scanned[..i]);
      }
      out := Insert(out, scanned[i]);
      assert scanned[..i + 1] == scanned[..i] + [scanned[i]];
      i := i + 1;
    }
    assert scanned[..i] == scanned;
  }

  lemma PermutedMembers(a: seq<Found>, b: seq<Found>)
    requires multiset(a) == multiset(b)
    ensures |a| == |b| && (forall r | r in a :: r in b) && forall r | r in b :: r in a
  {
    assert |multiset(a)| == |a| && |multiset(b)| == |b|;
    forall r: Found
      ensures r in a <==> r in b
    {
      assert r in a <==> r in multiset(a);
      assert r in b <==> r in multiset(b);
    }
  }

  lemma ScannedDistinct(jobs: Rows, ks: seq<Key>)
    requires OneRow(jobs) && InScanOrder(ks) && forall k | k in ks :: k in jobs
    ensures Distinct(ReadAll(jobs, ks))
  {
    ScannedApart(ks);
    forall i, j | 0 <= i < j < |ks|
      ensures ks[i].id != ks[j].id
    {
      assert ks[i] in ks && ks[j] in ks;
    }
  }

  /** Rows scanned from a well-kept store are of different jobs, in whatever order. */
  lemma SortedRows(jobs: Rows, ks: seq<Key>, scanned: seq<Found>)
    requires WellKept(jobs) && InScanOrder(ks) && (forall k | k in ks :: k in jobs) && multiset(scanned) == multiset(ReadAll(jobs, ks))
    ensures |scanned| == |ks| && Distinct(scanned) && AsFound(jobs, scanned)
    ensures forall k :: k in KeysOf(scanned) <==> k in ks
  {
    var all := ReadAll(jobs, ks);
    PermutedMembers(all, scanned);
    ScannedDistinct(jobs, ks);
    PermutedDistinct(all, scanned);
    forall i | 0 <= i < |scanned|
      ensures Unchanged(jobs, scanned[i]) && scanned[i].key in ks
    {
      assert scanned[i] in scanned && scanned[i] in all;
    }
    forall k | k in ks
      ensures k in KeysOf(scanned)
    {
      var i :| 0 <= i < |ks| && ks[i] == k;
      assert all[i] in all && all[i] in scanned;
      var j :| 0 <= j < |scanned| && scanned[j] == all[i];
      assert KeysOf(scanned)[j] == k;
    }
  }

  lemma SortedIsOldest(jobs: Rows, ks: seq<Key>, scanned: seq<Found>, part: Partition, bound: Instant,
                       types: seq<string>, want: int)
    requires (forall k :: k in KeysOf(scanned) <==> k in ks) && OldestFirst(jobs, part, bound, types, ks)
    requires AllCandidates(jobs, ks, part, bound, types) && |scanned| == |ks| && Exhausts(jobs, part, bound, types, want, ks)
    ensures OldestFirst(jobs, part, bound, types, KeysOf(scanned)) && AllCandidates(jobs, KeysOf(scanned), part, bound, types)
    ensures Exhausts(jobs, part, bound, types, want, KeysOf(scanned))
  {
  }

  /** The rows of some keys come more urgent first, and oldest first within one priority. */
  predicate InPriorityOrder(jobs: Rows, ks: seq<Key>) {
    (forall k | k in ks :: k in jobs) &&
    forall i, j | 0 <= i < j < |ks| ::
      jobs[ks[i]].priority > jobs[ks[j]].priority || (jobs[ks[i]].priority == jobs[ks[j]].priority && Earlier(ks[i], ks[j]))
  }

  lemma PickedInOrder(jobs: Rows, scanned: seq<Found>)
    requires AsFound(jobs, scanned) && ByPriority(scanned)
    ensures InPriorityOrder(jobs, KeysOf(scanned))
  {
    forall i | 0 <= i < |scanned|
      ensures scanned[i] == Found(KeysOf(scanned)[i], scanned[i].value) && Unchanged(jobs, scanned[i])
    {
    }
  }

  lemma LeasesSucceed(jobs: Rows, scanned: seq<Found>, owner: string, tokens: seq<Token>, now: Instant, lease: nat)
    requires WellKept(jobs) && |scanned| <= |tokens| && AsFound(jobs, scanned)
    requires forall k | k in KeysOf(scanned) :: k.part == PendingPart
    ensures Successors(scanned, Leases(scanned, owner, tokens, now, lease))
    ensures LeasedOut(jobs, KeysOf(scanned), Leases(scanned, owner, tokens, now, lease), owner, tokens, now, lease)
  {
    forall i | 0 <= i < |scanned|
      ensures Unchanged(jobs, scanned[i]) && Succeeds(Leases(scanned, owner, tokens, now, lease)[i], scanned[i].key)
    {
      assert KeysOf(scanned)[i] in KeysOf(scanned);
      ClaimedSucceeds(scanned[i].key, scanned[i].value, owner, tokens[i], now, lease);
    }
  }

  lemma ReturnsSucceed(jobs: Rows, scanned: seq<Found>, now: Instant)
    requires WellKept(jobs) && AsFound(jobs, scanned) && forall k | k in KeysOf(scanned) :: k.part == RunningPart
    ensures Successors(scanned, Returns(scanned, now)) && Returned(jobs, KeysOf(scanned), Returns(scanned, now), now)
  {
    forall i | 0 <= i < |scanned|
      ensures Unchanged(jobs, scanned[i]) && Succeeds(Returns(scanned, now)[i], scanned[i].key)
    {
      assert KeysOf(scanned)[i] in KeysOf(scanned);
      ReclaimedSucceeds(scanned[i].key, scanned[i].value, now);
    }
  }

  /** The candidates as a claim would write them, each under the next token. */
  function Leases(scanned: seq<Found>, owner: string, tokens: seq<Token>, now: Instant, lease: nat): (r: seq<Job>)
    requires |scanned| <= |tokens|
    ensures |r| == |scanned| && forall i | 0 <= i < |scanned| :: r[i] == Claimed(scanned[i].value, owner, tokens[i], now, lease)
  {
    seq(|scanned|, i requires 0 <= i < |scanned| => Claimed(scanned[i].value, owner, tokens[i], now, lease))
  }

  /** The lapsed rows as a reclamation would write them. */
  function Returns(scanned: seq<Found>, now: Instant): (r: seq<Job>)
    ensures |r| == |scanned| && forall i | 0 <= i < |scanned| :: r[i] == Reclaimed(scanned[i].value, now)
  {
    seq(|scanned|, i requires 0 <= i < |scanned| => Reclaimed(scanned[i].value, now))
  }

  lemma ClaimedSucceeds(k: Key, j: Job, owner: string, token: Token, now: Instant, lease: nat)
    requires RowOk(k, j) && k.part == PendingPart
    ensures Succeeds(Claimed(j, owner, token, now, lease), k)
  {
  }

  lemma ReclaimedSucceeds(k: Key, j: Job, now: Instant)
    requires RowOk(k, j) && k.part == RunningPart
    ensures Succeeds(Reclaimed(j, now), k)
  {
  }

  lemma MoveKeeps(jobs: Rows, k: Key, next: Job)
    requires WellKept(jobs) && k in jobs && Succeeds(next, k)
    ensures WellKept(Moved(jobs, k, KeyOf(next).value, next))
    ensures forall x | x in jobs && x.id != k.id :: x in Moved(jobs, k, KeyOf(next).value, next)
  {
  }

  /** The copies handed out are the rows written, each with the key it is stored at. */
  predicate HandedOut(out: seq<Slot>, nexts: seq<Job>) {
    |out| == |nexts| && forall i | 0 <= i < |out| :: out[i].copy == nexts[i] && KeyOf(nexts[i]) == Some(out[i].stored)
  }

  lemma HandOneMore(out: seq<Slot>, nexts: seq<Job>, next: Job, k: Key)
    requires HandedOut(out, nexts) && KeyOf(next) == Some(k)
    ensures HandedOut(out + [Slot(next, k)], nexts + [next])
  {
  }

  predicate Untouched(before: Rows, after: Rows, ks: seq<Key>) {
    forall k | k in before && k !in ks :: k in after && after[k] == before[k]
  }

  predicate Placed(after: Rows, ks: seq<Key>, nexts: seq<Job>) {
    |ks| == |nexts| && forall i | 0 <= i < |ks| ::
      KeyOf(nexts[i]).Some? && KeyOf(nexts[i]).value in after && after[KeyOf(nexts[i]).value] == nexts[i]
  }

  lemma UntouchedStays(jobs: Rows, sofar: Rows, ks: seq<Key>, k: Key, nk: Key, next: Job)
    requires OneRow(jobs) && Untouched(jobs, sofar, ks) && k in jobs && nk.id == k.id
    ensures Untouched(jobs, Moved(sofar, k, nk, next), ks + [k])
  {
    forall x | x in jobs && x !in ks + [k]
      ensures x !in ks && x.id != k.id
    {
      assert k in ks + [k] && forall y | y in ks :: y in ks + [k];
    }
  }

  lemma PlacedStays(sofar: Rows, ks: seq<Key>, nexts: seq<Job>, k: Key, nk: Key, next: Job)
    requires Placed(sofar, ks, nexts) && KeyOf(next) == Some(nk) && nk.id == k.id
    requires forall i | 0 <= i < |ks| :: KeyOf(nexts[i]).value.id != k.id
    ensures Placed(Moved(sofar, k, nk, next), ks + [k], nexts + [next])
  {
  }

  lemma OneMoveMore(jobs: Rows, sofar: Rows, ks: seq<Key>, nexts: seq<Job>, k: Key, next: Job)
    requires OneRow(jobs) && WellKept(sofar) && Replaces(jobs, ks, nexts)
    requires Untouched(jobs, sofar, ks) && Placed(sofar, ks, nexts)
    requires k in jobs && k !in ks && Succeeds(next, k)
    ensures var after := Moved(sofar, k, KeyOf(next).value, next);
            WellKept(after) && Untouched(jobs, after, ks + [k]) && Placed(after, ks + [k], nexts + [next])
  {
    var nk := KeyOf(next).value;
    MoveKeeps(sofar, k, next);
    UntouchedStays(jobs, sofar, ks, k, nk, next);
    forall i | 0 <= i < |ks|
      ensures KeyOf(nexts[i]).value.id != k.id
    {
      assert ks[i] in ks && ks[i] != k && Succeeds(nexts[i], ks[i]);
    }
    PlacedStays(sofar, ks, nexts, k, nk, next);
  }

  /** Moving rows one by one leaves each of the others as it was, puts each successor
      where it belongs, and keeps one row a job. */
  lemma {:induction false} MovesKeepRows(jobs: Rows, ks: seq<Key>, nexts: seq<Job>)
    requires WellKept(jobs) && Apart(ks) && Replaces(jobs, ks, nexts)
    ensures WellKept(MoveAll(jobs, ks, nexts))
    ensures Untouched(jobs, MoveAll(jobs, ks, nexts), ks)
    ensures Placed(MoveAll(jobs, ks, nexts), ks, nexts)
    decreases |ks|
  {
    if ks != [] {
      var n := |ks| - 1;
      var short, shortNexts := ks[..n], nexts[..n];
      assert Apart(short) && Replaces(jobs, short, shortNexts);
      assert ks == short + [ks[n]] && nexts == shortNexts + [nexts[n]];
      MovesKeepRows(jobs, short, shortNexts);
      OneMoveMore(jobs, MoveAll(jobs, short, shortNexts), short, shortNexts, ks[n], nexts[n]);
    }
  }

  lemma {:induction false} MovesAddOnlyNexts(jobs: Rows, ks: seq<Key>, nexts: seq<Job>, k: Key)
    requires Replaces(jobs, ks, nexts) && k in MoveAll(jobs, ks, nexts)
    ensures (k in jobs && k !in ks) || exists i | 0 <= i < |ks| :: KeyOf(nexts[i]) == Some(k)
    decreases |ks|
  {
    if ks != [] {
      var n := |ks| - 1;
      assert ks == ks[..n] + [ks[n]];
      if k != KeyOf(nexts[n]).value {
        MovesAddOnlyNexts(jobs, ks[..n], nexts[..n], k);
      }
    }
  }

  lemma MovesExchange(jobs: Rows, ks: seq<Key>, nexts: seq<Job>, out: seq<Slot>)
    requires WellKept(jobs) && Apart(ks) && Replaces(jobs, ks, nexts) && HandedOut(out, nexts)
    ensures Exchanged(jobs, MoveAll(jobs, ks, nexts), ks, out)
  {
    var after := MoveAll(jobs, ks, nexts);
    MovesKeepRows(jobs, ks, nexts);
    LandedAll(after, ks, nexts, out);
    forall k | k in after
      ensures (k in jobs && k !in ks) || exists i | 0 <= i < |out| :: out[i].stored == k
    {
      MovesAddOnlyNexts(jobs, ks, nexts, k);
      if !(k in jobs && k !in ks) {
        var i :| 0 <= i < |ks| && KeyOf(nexts[i]) == Some(k);
        assert out[i].stored == k;
      }
    }
  }

  lemma LandedAll(after: Rows, ks: seq<Key>, nexts: seq<Job>, out: seq<Slot>)
    requires Placed(after, ks, nexts) && HandedOut(out, nexts)
    ensures Landed(after, out)
  {
  }

  lemma ScannedApart(ks: seq<Key>)
    requires InScanOrder(ks)
    ensures Apart(ks)
  {
    forall a, b | 0 <= a < b < |ks|
      ensures ks[a] != ks[b]
    {
      Irreflexive(ks[a].id);
    }
  }

  lemma AnotherMove(jobs: Rows, ks: seq<Key>, nexts: seq<Job>, k: Key, next: Job)
    requires Replaces(jobs, ks, nexts) && k in jobs && Succeeds(next, k)
    ensures Replaces(jobs, ks + [k], nexts + [next])
    ensures MoveAll(jobs, ks + [k], nexts + [next]) == Moved(MoveAll(jobs, ks, nexts), k, KeyOf(next).value, next)
  {
    assert (ks + [k])[..|ks|] == ks && (nexts + [next])[..|nexts|] == nexts;
  }

  lemma PermutedDistinct(a: seq<Found>, b: seq<Found>)
    requires Distinct(a) && multiset(a) == multiset(b)
    ensures Distinct(b)
  {
    forall i, j | 0 <= i < j < |b|
      ensures b[i].key.id != b[j].key.id
    {
      assert b == b[..i] + [b[i]] + b[i + 1..j] + [b[j]] + b[j + 1..];
      assert b[i] in multiset(a) && b[j] in multiset(a);
      OnlyOnce(a, b[i]);
      assert b[i] == b[j] ==> multiset(b)[b[i]] >= 2;
    }
  }

  lemma {:induction false} OnlyOnce(a: seq<Found>, r: Found)
    requires Distinct(a)
    ensures multiset(a)[r] <= 1
  {
    if a != [] {
      var init, last := a[..|a| - 1], a[|a| - 1];
      OnlyOnce(init, r);
      assert a == init + [last] && last !in init;
    }
  }

  // --- an id enqueued twice -------------------------------------------------------------------------

  function Blank(id: Id, runAt: Instant): Job {
    Job(id, "", [], Pending, 0, 0, runAt, None, [], "", 0, 0, 0)
  }

  /** Under an id that already waits at another time, both calls succeed and the job has two
      rows. */
  method EnqueuedTwice(id: Id) returns (q: Queue, first: Result<Key>, second: Result<Key>)
    requires id != ZERO_ID
    ensures first.Ok? && second.Ok? && first.value in q.jobs && second.value in q.jobs
    ensures first.value != second.value && first.value.id == second.value.id == id && !OneRow(q.jobs)
  {
    q := new Queue(1000);
    var j := new JobRef("a", Blank(id, 1), None);
    var again := new JobRef("a", Blank(id, 2), None);
    first := q.Enqueue(j, false, id, 1);
    second := q.Enqueue(again, false, id, 1);
    assert first.value in q.jobs && second.value in q.jobs;
  }
}
