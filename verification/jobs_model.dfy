/** A job, its row's key, and what each transition makes of it. Instants are Unix
    milliseconds, which is what a row stores. */
module JobsModel {
  import opened Prelude

  datatype JobState = Pending | Running | Retry | Completed | Failed | Cancelled

  /** Six states share three partitions, which part a tenant's job keys. */
  datatype Partition = PendingPart | RunningPart | DonePart

  type Token = Id
  type Instant = nat

  datatype Lease = Lease(owner: string, expiresAt: Instant, token: Token)

  datatype Job = Job(
    id: Id, typ: string, payload: Bytes,
    state: JobState, attempts: nat, maxAttempts: nat, runAt: Instant,
    lease: Option<Lease>, checkpoint: Bytes, lastError: string,
    priority: int, createdAt: Instant, updatedAt: Instant)

  /** Where a row lives: its partition, the instant that orders it there, and the job. */
  datatype Key = Key(part: Partition, due: Instant, id: Id)

  /** One execution attempt's history row, and its address. */
  datatype Run = Run(id: Id, jobId: Id, typ: string, attempt: nat, finishedAt: Instant, outcome: JobState, error: string, owner: string)

  datatype RunKey = RunKey(finishedAt: Instant, id: Id)

  const DEFAULT_MAX_ATTEMPTS := 6

  predicate Terminal(s: JobState) {
    s.Completed? || s.Failed? || s.Cancelled?
  }

  predicate Waiting(s: JobState) {
    s.Pending? || s.Retry?
  }

  function PartitionOf(s: JobState): Partition {
    if s.Running? then RunningPart else if Terminal(s) then DonePart else PendingPart
  }

  /** Running rows are ordered by when their leases lapse, so one without a lease has no key. */
  function KeyOf(j: Job): Option<Key> {
    match PartitionOf(j.state)
    case RunningPart => if j.lease.None? then None else Some(Key(RunningPart, j.lease.value.expiresAt, j.id))
    case DonePart => Some(Key(DonePart, j.updatedAt, j.id))
    case PendingPart => Some(Key(PendingPart, j.runAt, j.id))
  }

  /** A decoded row is one whose body puts it where it was found. */
  function Unmarshal(k: Key, row: Job): Result<Job> {
    if PartitionOf(row.state) != k.part then Err(Corruption)
    else if KeyOf(row) != Some(k) then Err(Corruption)
    else Ok(row)
  }

  function RunKeyOf(r: Run): RunKey {
    RunKey(r.finishedAt, r.id)
  }

  // --- transitions ---------------------------------------------------------------

  function Claimed(j: Job, owner: string, token: Token, now: Instant, lease: nat): Job {
    j.(state := Running, attempts := j.attempts + 1, updatedAt := now, lease := Some(Lease(owner, now + lease, token)))
  }

  function Finished(j: Job, state: JobState, error: string, now: Instant): Job {
    j.(state := state, lease := None, updatedAt := now,
       lastError := if state.Completed? then "" else if error != "" then error else j.lastError)
  }

  function Retried(j: Job, error: string, runAt: Instant, now: Instant): Job {
    j.(state := Retry, lease := None, runAt := runAt, updatedAt := now, lastError := error)
  }

  function Renewed(j: Job, now: Instant, lease: nat): Job
    requires j.lease.Some?
  {
    j.(lease := Some(j.lease.value.(expiresAt := now + lease)), updatedAt := now)
  }

  function Saved(j: Job, cursor: Bytes, now: Instant): Job {
    j.(checkpoint := cursor, updatedAt := now)
  }

  /** Back to the queue, with the attempt the claim charged given back. */
  function Released(j: Job, now: Instant): Job {
    j.(state := Pending, lease := None, runAt := now, updatedAt := now,
       attempts := if j.attempts > 0 then j.attempts - 1 else j.attempts)
  }

  /** A lapsed lease: back to the queue, or failed if no attempt is left. */
  function Reclaimed(j: Job, now: Instant): Job {
    if j.attempts >= j.maxAttempts
    then j.(state := Failed, lease := None, updatedAt := now, lastError := "the lease expired and there are no attempts left")
    else j.(state := Pending, lease := None, runAt := now, updatedAt := now, lastError := "the lease expired; the job was reclaimed")
  }

  function CancelledJob(j: Job, now: Instant): Job {
    j.(state := Cancelled, lease := None, updatedAt := now, lastError := "cancelled by an operator")
  }

  /** The operations of a worker on its own job, and of an operator on any. */
  datatype Op =
    | Complete
    | Fail(error: string, delay: nat)
    | Renew
    | Save(cursor: Bytes)
    | Release
    | Cancel

  /** The row an operation would write: computed from the row read, except that a
      failure's choice between a retry and giving up reads the held copy. */
  function Apply(op: Op, held: Job, cur: Job, now: Instant, lease: nat): (next: Job)
    requires op.Renew? ==> cur.lease.Some?
  {
    match op
    case Complete => Finished(cur, Completed, "", now)
    case Fail(error, delay) =>
      if held.attempts >= held.maxAttempts then Finished(cur, Failed, error, now)
      else Retried(cur, error, now + delay, now)
    case Renew => Renewed(cur, now, lease)
    case Save(cursor) => Saved(cur, cursor, now)
    case Release => Released(cur, now)
    case Cancel => CancelledJob(cur, now)
  }

  /** Lets a copy act only under the token its row is leased by. A copy without a lease
      is let through. */
  function Fence(held: Job, cur: Job): Result<()> {
    if held.lease.None? then Ok(())
    else if cur.lease.None? then Err(Conflict)
    else if cur.lease.value.token != held.lease.value.token then Err(Conflict)
    else Ok(())
  }

  /** The attempt a worker records when its handler ends, or an operator's when it
      cancels a running job; the other operations record none. */
  function Attempt(op: Op, held: Job, runId: Id, now: Instant): Option<Run> {
    match op
    case Complete => Some(Run(runId, held.id, held.typ, held.attempts, now, Completed, "", Owner(held)))
    case Fail(error, _) =>
      Some(Run(runId, held.id, held.typ, held.attempts, now,
               if held.attempts >= held.maxAttempts then Failed else Retry, error, Owner(held)))
    case Cancel =>
      if held.state.Running? && held.lease.Some?
      then Some(Run(runId, held.id, held.typ, held.attempts, now, Cancelled, "cancelled by an operator", Owner(held)))
      else None
    case _ => None
  }

  function Owner(j: Job): string {
    if j.lease.Some? then j.lease.value.owner else ""
  }

  /** The history row is about this job, this try of it and how the try ended. */
  predicate Accepted(run: Run, held: Job, next: Job) {
    run.id != ZERO_ID && run.jobId == held.id && run.typ == held.typ && run.attempt == next.attempts && run.outcome == next.state
  }

  /** A job whose lease lapsed, taken back and claimed again, all by one forward clock: its
      row is back at the first claim's key exactly when the lease is of no length and no
      time has passed. */
  lemma ClaimedAgainLandsLater(j: Job, claim: Lease, again: Lease, t0: Instant, t1: Instant, t2: Instant, lease: nat)
    requires j.attempts + 1 < j.maxAttempts && t0 + lease <= t1 <= t2
    ensures var first := Claimed(j, claim.owner, claim.token, t0, lease);
            var second := Claimed(Reclaimed(first, t1), again.owner, again.token, t2, lease);
            && KeyOf(first).Some? && KeyOf(second).Some?
            && (KeyOf(second) == KeyOf(first) <==> lease == 0 && t2 == t0)
            && KeyOf(second).value.due >= KeyOf(first).value.due + lease
  {
  }
}
