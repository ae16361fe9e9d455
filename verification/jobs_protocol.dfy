/** The job queue as interleaved steps over one tenant's rows: every operation reads,
    then commits conditionally on what it read, with no lock between the two. Workers
    and operators act through copies that may have gone stale. */
module JobsProtocol {
  import opened Prelude
  import opened JobsModel

  type Rows = map<Key, Job>
  type Runs = map<RunKey, Run>

  /** A copy somebody holds of a job, and the key it was last stored at. A worker's
      copy is named by the token its claim drew, an operator's by an id of its own. */
  datatype Slot = Slot(copy: Job, stored: Key)

  type Slots = map<Id, Slot>

  /** What a claim granted: a token stands for one attempt of one job. */
  datatype Grant = Grant(job: Id, typ: string, attempts: nat, maxAttempts: nat)

  type Grants = map<Token, Grant>

  datatype Kind = Claiming | Reclaiming | Holding | Releasing

  /** A transaction that has read its row and has yet to commit. */
  datatype Txn = Txn(kind: Kind, slot: Id, key: Key, row: Job, next: Job, run: Option<Run>)

  type Open = map<nat, Txn>

  /** How often a job was claimed and released, and the bound it was enqueued with. */
  datatype Tally = Tally(claims: nat, releases: nat, limit: nat)

  type Tallies = map<Id, Tally>

  datatype State = State(
    jobs: Rows, runs: Runs, slots: Slots, open: Open,
    drawn: set<Id>, grants: Grants, tallies: Tallies)

  datatype Step =
    | Enqueue(job: Job)
    | ReadDue(txn: nat, key: Key, owner: string, token: Token, now: Instant, lease: nat)
    | ReadLapsed(txn: nat, key: Key, now: Instant)
    | Find(operator: Id, key: Key)
    | Read(txn: nat, slot: Id, op: Op, runId: Id, now: Instant, lease: nat)
    | Commit(txn: nat)
    | Reap(key: Key)

  function GrantOf(j: Job): Grant {
    Grant(j.id, j.typ, j.attempts, j.maxAttempts)
  }

  /** A job as the callers of Enqueue make it: no attempt charged, nothing leased. */
  predicate Enqueueable(j: Job) {
    Waiting(j.state) && j.attempts == 0 && 1 <= j.maxAttempts && j.lease.None?
  }

  /** A worker transitions only a job it holds a lease on; an operator only cancels
      one that had not finished when it was found. */
  predicate MayAct(copy: Job, op: Op) {
    if op.Cancel? then !Terminal(copy.state) else copy.lease.Some?
  }

  /** Every identifier drawn is new, which is all that is asked of the generator. */
  predicate Enabled(s: State, step: Step) {
    match step
    case Enqueue(j) => Enqueueable(j) && j.id !in s.drawn
    case ReadDue(x, k, _, token, now, _) =>
      x !in s.open && k in s.jobs && k.part == PendingPart && k.due <= now && token !in s.drawn
    case ReadLapsed(x, k, now) => x !in s.open && k in s.jobs && k.part == RunningPart && k.due <= now
    case Find(operator, k) => operator !in s.drawn && k in s.jobs
    case Read(x, w, op, runId, _, _) =>
      x !in s.open && w in s.slots && MayAct(s.slots[w].copy, op) && runId !in s.drawn && runId != ZERO_ID
    case Commit(x) => x in s.open
    case Reap(k) => k in s.jobs && k.part == DonePart
  }

  /** What a transition finds when it re-reads the row its copy was stored at. */
  function Plan(w: Id, slot: Slot, op: Op, jobs: Rows, runId: Id, now: Instant, lease: nat): Result<Txn> {
    if (op.Renew? || op.Save?) && slot.copy.lease.None? then Err(Invalid)
    else if slot.stored !in jobs then Err(Conflict)
    else
      var cur := jobs[slot.stored];
      var decoded := Unmarshal(slot.stored, cur);
      if decoded.Err? then Err(decoded.error)
      else
        var fence := Fence(slot.copy, cur);
        if fence.Err? then Err(fence.error)
        else
          var next := Apply(op, slot.copy, cur, now, lease);
          var run := Attempt(op, slot.copy, runId, now);
          if KeyOf(next).None? then Err(Invalid)
          else if run.Some? && !Accepted(run.value, slot.copy, next) then Err(Invalid)
          else Ok(Txn(if op.Release? then Releasing else Holding, w, slot.stored, cur, next, run))
  }

  /** The conditions a commit checks: the row exactly as read, the history row absent. */
  predicate Holds(jobs: Rows, runs: Runs, t: Txn) {
    && t.key in jobs && jobs[t.key] == t.row
    && (t.run.Some? ==> RunKeyOf(t.run.value) !in runs)
    && KeyOf(t.next).Some?
  }

  function Moved(jobs: Rows, k: Key, nk: Key, next: Job): Rows {
    (jobs - {k})[nk := next]
  }

  function Counted(tallies: Tallies, t: Txn): Tallies {
    if t.key.id !in tallies then tallies
    else
      var tally := tallies[t.key.id];
      if t.kind.Claiming? then tallies[t.key.id := tally.(claims := tally.claims + 1)]
      else if t.kind.Releasing? then tallies[t.key.id := tally.(releases := tally.releases + 1)]
      else tallies
  }

  function Recorded(runs: Runs, run: Option<Run>): Runs {
    if run.Some? then runs[RunKeyOf(run.value) := run.value] else runs
  }

  /** A commit applies all of its writes or, on a conflict, none of them. */
  function Committed(s: State, x: nat): State
    requires x in s.open
  {
    var t := s.open[x];
    if !Holds(s.jobs, s.runs, t) then s.(open := s.open - {x})
    else
      var nk := KeyOf(t.next).value;
      State(
        Moved(s.jobs, t.key, nk, t.next),
        Recorded(s.runs, t.run),
        if t.kind.Reclaiming? then s.slots else s.slots[t.slot := Slot(t.next, nk)],
        s.open - {x},
        s.drawn,
        if t.kind.Claiming? then s.grants[t.slot := GrantOf(t.next)] else s.grants,
        Counted(s.tallies, t))
  }

  function Do(s: State, step: Step): State
    requires Enabled(s, step)
  {
    match step
    case Enqueue(j) =>
      s.(jobs := s.jobs[KeyOf(j).value := j], drawn := s.drawn + {j.id},
         tallies := s.tallies[j.id := Tally(0, 0, j.maxAttempts)])
    case ReadDue(x, k, owner, token, now, lease) =>
      var next := Claimed(s.jobs[k], owner, token, now, lease);
      s.(open := s.open[x := Txn(Claiming, token, k, s.jobs[k], next, None)], drawn := s.drawn + {token})
    case ReadLapsed(x, k, now) =>
      s.(open := s.open[x := Txn(Reclaiming, k.id, k, s.jobs[k], Reclaimed(s.jobs[k], now), None)])
    case Find(operator, k) =>
      s.(slots := s.slots[operator := Slot(s.jobs[k], k)], drawn := s.drawn + {operator})
    case Read(x, w, op, runId, now, lease) =>
      var plan := Plan(w, s.slots[w], op, s.jobs, runId, now, lease);
      if plan.Err? then s.(drawn := s.drawn + {runId})
      else s.(open := s.open[x := plan.value], drawn := s.drawn + {runId})
    case Commit(x) => Committed(s, x)
    case Reap(k) => s.(jobs := s.jobs - {k})
  }

  const EMPTY := State(map[], map[], map[], map[], {}, map[], map[])

  // --- the invariant ------------------------------------------------------------

  predicate AttemptsOk(j: Job) {
    && 1 <= j.maxAttempts && j.attempts <= j.maxAttempts
    && (Waiting(j.state) ==> j.attempts < j.maxAttempts)
    && (j.state.Running? ==> 1 <= j.attempts)
  }

  /** A row, or a copy of one: at the key its state and due time determine, leased
      exactly when running, within its attempts. */
  predicate RowOk(k: Key, j: Job) {
    KeyOf(j) == Some(k) && (j.state.Running? <==> j.lease.Some?) && AttemptsOk(j)
  }

  predicate Leased(j: Job, grants: Grants) {
    j.lease.Some? ==> j.lease.value.token in grants && grants[j.lease.value.token] == GrantOf(j)
  }

  predicate RowsOk(jobs: Rows, grants: Grants, drawn: set<Id>) {
    forall k | k in jobs :: RowOk(k, jobs[k]) && Leased(jobs[k], grants) && k.id in drawn
  }

  predicate OneRow(jobs: Rows) {
    forall k1, k2 | k1 in jobs && k2 in jobs && k1.id == k2.id :: k1 == k2
  }

  predicate SlotsOk(slots: Slots, grants: Grants, drawn: set<Id>) {
    forall w | w in slots :: RowOk(slots[w].stored, slots[w].copy) && Leased(slots[w].copy, grants) && w in drawn
  }

  predicate GrantsDrawn(grants: Grants, drawn: set<Id>) {
    forall g | g in grants :: g in drawn
  }

  /** What no move touches: which work this is, and how often it may be tried. */
  predicate SameJob(row: Job, next: Job) {
    && next.id == row.id && next.typ == row.typ && next.maxAttempts == row.maxAttempts
    && next.payload == row.payload && next.priority == row.priority && next.createdAt == row.createdAt
  }

  /** The moves the queue makes, by who makes them. None starts from a finished row. */
  predicate Legal(t: Txn) {
    && SameJob(t.row, t.next)
    && match t.kind
       case Claiming =>
         && Waiting(t.row.state) && t.next.state.Running? && t.next.attempts == t.row.attempts + 1
         && t.next.lease.Some? && t.next.lease.value.token == t.slot
       case Reclaiming => t.row.state.Running? && LeftLease(t.row, t.next)
       case Releasing =>
         && t.row.state.Running? && t.next.state.Pending? && t.next.lease.None?
         && t.next.attempts + 1 == t.row.attempts
       case Holding =>
         || (t.row.state.Running? && KeptLease(t.row, t.next))
         || (t.row.state.Running? && LeftLease(t.row, t.next))
         || (Waiting(t.row.state) && t.next.state.Cancelled? && t.next.lease.None? && t.next.attempts == t.row.attempts)
  }

  predicate KeptLease(row: Job, next: Job) {
    && next.state.Running? && next.attempts == row.attempts
    && row.lease.Some? && next.lease.Some? && next.lease.value.token == row.lease.value.token
  }

  predicate LeftLease(row: Job, next: Job) {
    && !next.state.Running? && next.lease.None? && next.attempts == row.attempts
    && (Waiting(next.state) ==> row.attempts < row.maxAttempts)
  }

  /** A history row speaks of the attempt its transition ends. */
  predicate RunOk(t: Txn, drawn: set<Id>) {
    t.run.Some? ==>
      && t.row.state.Running? && LeftLease(t.row, t.next) && t.kind.Holding?
      && t.run.value.jobId == t.row.id && t.run.value.attempt == t.row.attempts
      && t.run.value.outcome == t.next.state && t.run.value.id in drawn
  }

  predicate TxnOk(t: Txn, grants: Grants, drawn: set<Id>) {
    && RowOk(t.key, t.row) && Leased(t.row, grants) && Legal(t) && RunOk(t, drawn)
    && t.slot in drawn && t.key.id in drawn
    && (t.kind.Claiming? ==> t.slot !in grants)
  }

  predicate OpenOk(open: Open, grants: Grants, drawn: set<Id>) {
    forall x | x in open :: TxnOk(open[x], grants, drawn)
  }

  predicate TokensApart(open: Open) {
    forall x, y | x in open && y in open && open[x].kind.Claiming? && open[y].kind.Claiming? && open[x].slot == open[y].slot :: x == y
  }

  predicate TalliesOk(jobs: Rows, tallies: Tallies) {
    forall k | k in jobs ::
      && k.id in tallies && tallies[k.id].limit == jobs[k].maxAttempts
      && tallies[k.id].claims == jobs[k].attempts + tallies[k.id].releases
  }

  predicate TalliesBounded(tallies: Tallies) {
    forall j | j in tallies :: tallies[j].claims <= tallies[j].limit + tallies[j].releases
  }

  /** History is behind the row: strictly while an attempt is under way. */
  predicate RunsBehind(runs: Runs, jobs: Rows) {
    forall r, k | r in runs && k in jobs && k.id == runs[r].jobId ::
      runs[r].attempt <= jobs[k].attempts && (jobs[k].state.Running? ==> runs[r].attempt < jobs[k].attempts)
  }

  predicate RunsKeyed(runs: Runs, drawn: set<Id>) {
    forall r | r in runs :: RunKeyOf(runs[r]) == r && r.id in drawn && runs[r].jobId in drawn
  }

  predicate RunsUnique(runs: Runs) {
    forall r1, r2 | r1 in runs && r2 in runs && runs[r1].jobId == runs[r2].jobId && runs[r1].attempt == runs[r2].attempt :: r1 == r2
  }

  /** The history rows still to be written have addresses nobody else uses. */
  predicate RunsFresh(open: Open, runs: Runs) {
    && (forall x | x in open && open[x].run.Some? :: RunKeyOf(open[x].run.value) !in runs)
    && (forall x, y | x in open && y in open && open[x].run.Some? && open[y].run.Some? && open[x].run.value.id == open[y].run.value.id :: x == y)
  }

  predicate Inv(s: State) {
    && RowsOk(s.jobs, s.grants, s.drawn) && OneRow(s.jobs)
    && SlotsOk(s.slots, s.grants, s.drawn) && GrantsDrawn(s.grants, s.drawn)
    && OpenOk(s.open, s.grants, s.drawn) && TokensApart(s.open)
    && TalliesOk(s.jobs, s.tallies) && TalliesBounded(s.tallies)
    && RunsBehind(s.runs, s.jobs) && RunsKeyed(s.runs, s.drawn) && RunsUnique(s.runs) && RunsFresh(s.open, s.runs)
  }

  // --- what one move does -----------------------------------------------------------

  /** A legal move of a well-formed row gives a well-formed row. */
  lemma LegalKeepsTheRow(t: Txn)
    requires RowOk(t.key, t.row) && Legal(t)
    ensures KeyOf(t.next).Some? && RowOk(KeyOf(t.next).value, t.next)
    ensures KeyOf(t.next).value.id == t.key.id
  {
  }

  /** What the running operations write is a legal move, so long as the copy and the
      row are of one attempt; and its history row is accepted. */
  lemma OperationsAreLegal(w: Id, slot: Slot, op: Op, cur: Job, runId: Id, now: Instant, lease: nat)
    requires RowOk(slot.stored, slot.copy) && RowOk(slot.stored, cur)
    requires MayAct(slot.copy, op) && Fence(slot.copy, cur).Ok? && runId != ZERO_ID
    requires slot.copy.lease.Some? ==> cur.lease.Some? && GrantOf(cur) == GrantOf(slot.copy)
    ensures op.Renew? ==> cur.lease.Some?
    ensures Legal(Txn(if op.Release? then Releasing else Holding, w, slot.stored, cur, Apply(op, slot.copy, cur, now, lease), None))
    ensures var run := Attempt(op, slot.copy, runId, now);
            run.Some? ==>
              && Accepted(run.value, slot.copy, Apply(op, slot.copy, cur, now, lease))
              && cur.state.Running? && LeftLease(cur, Apply(op, slot.copy, cur, now, lease)) && !op.Release?
  {
  }

  /** A copy whose token the row still carries is of the row's attempt. */
  lemma TokensMatchAttempts(copy: Job, cur: Job, grants: Grants)
    requires Leased(copy, grants) && Leased(cur, grants) && copy.lease.Some? && Fence(copy, cur).Ok?
    ensures cur.lease.Some? && GrantOf(cur) == GrantOf(copy)
  {
  }

  /** A transition that passes the fence is planned: its history row is never refused. */
  lemma PlanIsOk(s: State, w: Id, op: Op, runId: Id, now: Instant, lease: nat)
    requires RowsOk(s.jobs, s.grants, s.drawn) && SlotsOk(s.slots, s.grants, s.drawn)
    requires w in s.slots && MayAct(s.slots[w].copy, op) && runId != ZERO_ID
    ensures var plan := Plan(w, s.slots[w], op, s.jobs, runId, now, lease);
            && (plan.Err? ==> plan.error == Conflict)
            && (plan.Ok? <==> s.slots[w].stored in s.jobs && Fence(s.slots[w].copy, s.jobs[s.slots[w].stored]).Ok?)
            && (plan.Ok? ==> TxnOk(plan.value, s.grants, s.drawn + {runId}) && !plan.value.kind.Claiming?)
            && (plan.Ok? && plan.value.run.Some? ==> plan.value.run.value.id == runId)
  {
    var slot := s.slots[w];
    if slot.stored in s.jobs {
      var cur := s.jobs[slot.stored];
      assert RowOk(slot.stored, cur) && Leased(cur, s.grants);
      if Fence(slot.copy, cur).Ok? {
        if slot.copy.lease.Some? {
          TokensMatchAttempts(slot.copy, cur, s.grants);
        }
        OperationsAreLegal(w, slot, op, cur, runId, now, lease);
      }
    }
  }

  // --- a commit keeps the invariant ---------------------------------------------------

  lemma MoveKeepsRows(jobs: Rows, grants: Grants, after: Grants, drawn: set<Id>, t: Txn, nk: Key)
    requires RowsOk(jobs, grants, drawn) && OneRow(jobs)
    requires t.key in jobs && jobs[t.key] == t.row && RowOk(t.key, t.row) && Legal(t)
    requires forall g | g in grants :: g in after && after[g] == grants[g]
    requires KeyOf(t.next) == Some(nk) && Leased(t.next, after)
    ensures RowsOk(Moved(jobs, t.key, nk, t.next), after, drawn)
    ensures OneRow(Moved(jobs, t.key, nk, t.next))
  {
    LegalKeepsTheRow(t);
  }

  lemma MoveKeepsTallies(jobs: Rows, tallies: Tallies, t: Txn, nk: Key)
    requires OneRow(jobs) && TalliesOk(jobs, tallies) && TalliesBounded(tallies)
    requires t.key in jobs && jobs[t.key] == t.row && RowOk(t.key, t.row) && Legal(t)
    requires KeyOf(t.next) == Some(nk)
    ensures TalliesOk(Moved(jobs, t.key, nk, t.next), Counted(tallies, t))
    ensures TalliesBounded(Counted(tallies, t))
  {
    LegalKeepsTheRow(t);
    var after := Counted(tallies, t);
    forall k | k in Moved(jobs, t.key, nk, t.next)
      ensures
        && k.id in after && after[k.id].limit == Moved(jobs, t.key, nk, t.next)[k].maxAttempts
        && after[k.id].claims == Moved(jobs, t.key, nk, t.next)[k].attempts + after[k.id].releases
    {
      assert k != nk ==> k in jobs && k.id != t.key.id;
      assert t.key.id in tallies;
    }
  }

  lemma MoveKeepsRunsBehind(jobs: Rows, runs: Runs, t: Txn, nk: Key)
    requires OneRow(jobs) && RunsBehind(runs, jobs)
    requires t.key in jobs && jobs[t.key] == t.row && RowOk(t.key, t.row) && Legal(t)
    requires KeyOf(t.next) == Some(nk)
    ensures RunsBehind(runs, Moved(jobs, t.key, nk, t.next))
  {
    LegalKeepsTheRow(t);
    var after := Moved(jobs, t.key, nk, t.next);
    forall r, k | r in runs && k in after && k.id == runs[r].jobId
      ensures runs[r].attempt <= after[k].attempts && (after[k].state.Running? ==> runs[r].attempt < after[k].attempts)
    {
      if k == nk {
        assert t.key.id == runs[r].jobId;
      } else {
        assert k in jobs;
      }
    }
  }

  /** Recording the attempt a transition ends repeats no attempt number. */
  lemma RecordingKeepsRuns(jobs: Rows, runs: Runs, drawn: set<Id>, t: Txn, nk: Key)
    requires OneRow(jobs) && RunsBehind(runs, jobs) && RunsKeyed(runs, drawn) && RunsUnique(runs)
    requires t.key in jobs && jobs[t.key] == t.row && RowOk(t.key, t.row) && Legal(t) && RunOk(t, drawn)
    requires KeyOf(t.next) == Some(nk) && t.key.id in drawn
    requires t.run.Some? ==> RunKeyOf(t.run.value) !in runs
    ensures RunsBehind(Recorded(runs, t.run), Moved(jobs, t.key, nk, t.next))
    ensures RunsKeyed(Recorded(runs, t.run), drawn) && RunsUnique(Recorded(runs, t.run))
  {
    MoveKeepsRunsBehind(jobs, runs, t, nk);
    LegalKeepsTheRow(t);
    if t.run.Some? {
      var rk := RunKeyOf(t.run.value);
      var after := Moved(jobs, t.key, nk, t.next);
      assert after[nk] == t.next;
      forall k | k in after && k.id == t.run.value.jobId
        ensures k == nk
      {
        assert k != nk ==> k in jobs && t.key in jobs;
      }
      forall r | r in runs && runs[r].jobId == t.run.value.jobId
        ensures runs[r].attempt < t.run.value.attempt
      {
        assert t.key in jobs && t.key.id == runs[r].jobId;
      }
    }
  }

  lemma CommitKeepsOpen(open: Open, grants: Grants, after: Grants, drawn: set<Id>, x: nat)
    requires x in open && OpenOk(open, grants, drawn) && TokensApart(open)
    requires if open[x].kind.Claiming? then after == grants[open[x].slot := GrantOf(open[x].next)] else after == grants
    ensures OpenOk(open - {x}, after, drawn) && TokensApart(open - {x})
  {
    var t := open[x];
    forall y | y in open - {x}
      ensures TxnOk(open[y], after, drawn)
    {
      assert TxnOk(open[y], grants, drawn) && TxnOk(t, grants, drawn);
    }
  }

  lemma CommitKeepsRunsFresh(open: Open, runs: Runs, x: nat)
    requires x in open && RunsFresh(open, runs)
    ensures RunsFresh(open - {x}, Recorded(runs, open[x].run))
  {
  }

  lemma CommitKeepsSlots(slots: Slots, grants: Grants, after: Grants, drawn: set<Id>, t: Txn, nk: Key)
    requires SlotsOk(slots, grants, drawn)
    requires forall g | g in grants :: g in after && after[g] == grants[g]
    requires RowOk(nk, t.next) && Leased(t.next, after) && t.slot in drawn
    ensures SlotsOk(slots, after, drawn) && SlotsOk(slots[t.slot := Slot(t.next, nk)], after, drawn)
  {
  }

  /** What the commit writes is granted: to its holder already, or by this claim. */
  lemma CommitGrants(t: Txn, grants: Grants, drawn: set<Id>, after: Grants)
    requires TxnOk(t, grants, drawn)
    requires after == if t.kind.Claiming? then grants[t.slot := GrantOf(t.next)] else grants
    ensures Leased(t.next, after) && forall g | g in grants :: g in after && after[g] == grants[g]
  {
  }

  lemma CommitKeepsStore(s: State, x: nat, nk: Key, after: Grants)
    requires Inv(s) && x in s.open && Holds(s.jobs, s.runs, s.open[x])
    requires KeyOf(s.open[x].next) == Some(nk)
    requires after == if s.open[x].kind.Claiming? then s.grants[s.open[x].slot := GrantOf(s.open[x].next)] else s.grants
    ensures var t := s.open[x];
            var jobs, runs := Moved(s.jobs, t.key, nk, t.next), Recorded(s.runs, t.run);
            && RowsOk(jobs, after, s.drawn) && OneRow(jobs)
            && TalliesOk(jobs, Counted(s.tallies, t)) && TalliesBounded(Counted(s.tallies, t))
            && RunsBehind(runs, jobs) && RunsKeyed(runs, s.drawn) && RunsUnique(runs)
  {
    var t := s.open[x];
    assert TxnOk(t, s.grants, s.drawn);
    CommitGrants(t, s.grants, s.drawn, after);
    MoveKeepsRows(s.jobs, s.grants, after, s.drawn, t, nk);
    MoveKeepsTallies(s.jobs, s.tallies, t, nk);
    RecordingKeepsRuns(s.jobs, s.runs, s.drawn, t, nk);
  }

  lemma CommitKeeps(s: State, x: nat)
    requires Inv(s) && x in s.open
    ensures Inv(Committed(s, x))
  {
    var t := s.open[x];
    if Holds(s.jobs, s.runs, t) {
      var nk := KeyOf(t.next).value;
      var after := if t.kind.Claiming? then s.grants[t.slot := GrantOf(t.next)] else s.grants;
      assert TxnOk(t, s.grants, s.drawn);
      LegalKeepsTheRow(t);
      CommitGrants(t, s.grants, s.drawn, after);
      CommitKeepsStore(s, x, nk, after);
      CommitKeepsOpen(s.open, s.grants, after, s.drawn, x);
      CommitKeepsRunsFresh(s.open, s.runs, x);
      CommitKeepsSlots(s.slots, s.grants, after, s.drawn, t, nk);
    }
  }

  // --- the other steps ------------------------------------------------------------------

  lemma DrawingKeepsOpen(open: Open, grants: Grants, drawn: set<Id>, more: set<Id>)
    requires OpenOk(open, grants, drawn) && drawn <= more
    ensures OpenOk(open, grants, more)
  {
    assert forall x | x in open :: TxnOk(open[x], grants, drawn) && TxnOk(open[x], grants, more);
  }

  lemma EnqueueKeepsRows(s: State, j: Job, jobs: Rows)
    requires Inv(s) && Enabled(s, Enqueue(j)) && jobs == s.jobs[KeyOf(j).value := j]
    ensures RowsOk(jobs, s.grants, s.drawn + {j.id}) && OneRow(jobs)
    ensures TalliesOk(jobs, s.tallies[j.id := Tally(0, 0, j.maxAttempts)]) && RunsBehind(s.runs, jobs)
  {
  }

  lemma EnqueueKeeps(s: State, j: Job)
    requires Inv(s) && Enabled(s, Enqueue(j))
    ensures Inv(Do(s, Enqueue(j)))
  {
    EnqueueKeepsRows(s, j, s.jobs[KeyOf(j).value := j]);
    DrawingKeepsOpen(s.open, s.grants, s.drawn, s.drawn + {j.id});
  }

  lemma OpeningKeepsOpen(open: Open, grants: Grants, drawn: set<Id>, runs: Runs, x: nat, t: Txn, more: set<Id>)
    requires OpenOk(open, grants, drawn) && TokensApart(open) && RunsKeyed(runs, drawn) && RunsFresh(open, runs)
    requires drawn <= more && TxnOk(t, grants, more) && x !in open
    requires t.kind.Claiming? ==> t.slot !in drawn
    requires t.run.Some? ==> t.run.value.id !in drawn
    ensures OpenOk(open[x := t], grants, more) && TokensApart(open[x := t]) && RunsFresh(open[x := t], runs)
  {
    DrawingKeepsOpen(open, grants, drawn, more);
    assert forall y | y in open :: TxnOk(open[y], grants, drawn);
    assert t.run.Some? ==> RunKeyOf(t.run.value) !in runs;
  }

  /** Beginning a transaction on what the store holds. */
  lemma OpeningKeeps(s: State, x: nat, t: Txn, more: set<Id>)
    requires Inv(s) && x !in s.open && s.drawn <= more
    requires TxnOk(t, s.grants, more)
    requires t.kind.Claiming? ==> t.slot !in s.drawn
    requires t.run.Some? ==> t.run.value.id !in s.drawn
    ensures Inv(s.(open := s.open[x := t], drawn := more))
  {
    OpeningKeepsOpen(s.open, s.grants, s.drawn, s.runs, x, t, more);
  }

  lemma ReadDueKeeps(s: State, step: Step)
    requires step.ReadDue? && Inv(s) && Enabled(s, step)
    ensures Inv(Do(s, step))
  {
    var row := s.jobs[step.key];
    assert RowOk(step.key, row);
    var t := Txn(Claiming, step.token, step.key, row, Claimed(row, step.owner, step.token, step.now, step.lease), None);
    OpeningKeeps(s, step.txn, t, s.drawn + {step.token});
  }

  lemma ReadLapsedKeeps(s: State, step: Step)
    requires step.ReadLapsed? && Inv(s) && Enabled(s, step)
    ensures Inv(Do(s, step))
  {
    var row := s.jobs[step.key];
    assert RowOk(step.key, row);
    OpeningKeeps(s, step.txn, Txn(Reclaiming, step.key.id, step.key, row, Reclaimed(row, step.now), None), s.drawn);
  }

  lemma ReadKeeps(s: State, step: Step)
    requires step.Read? && Inv(s) && Enabled(s, step)
    ensures Inv(Do(s, step))
  {
    PlanIsOk(s, step.slot, step.op, step.runId, step.now, step.lease);
    var plan := Plan(step.slot, s.slots[step.slot], step.op, s.jobs, step.runId, step.now, step.lease);
    if plan.Ok? {
      OpeningKeeps(s, step.txn, plan.value, s.drawn + {step.runId});
    } else {
      DrawingKeepsOpen(s.open, s.grants, s.drawn, s.drawn + {step.runId});
    }
  }

  lemma FindKeeps(s: State, step: Step)
    requires step.Find? && Inv(s) && Enabled(s, step)
    ensures Inv(Do(s, step))
  {
    DrawingKeepsOpen(s.open, s.grants, s.drawn, s.drawn + {step.operator});
    assert RowOk(step.key, s.jobs[step.key]);
  }

  /** Every step keeps the invariant. */
  lemma StepKeeps(s: State, step: Step)
    requires Inv(s) && Enabled(s, step)
    ensures Inv(Do(s, step))
  {
    match step
    case Enqueue(j) => EnqueueKeeps(s, j);
    case ReadDue(_, _, _, _, _, _) => ReadDueKeeps(s, step);
    case ReadLapsed(_, _, _) => ReadLapsedKeeps(s, step);
    case Find(_, _) => FindKeeps(s, step);
    case Read(_, _, _, _, _, _) => ReadKeeps(s, step);
    case Commit(x) => CommitKeeps(s, x);
    case Reap(_) =>
  }

  // --- runs ---------------------------------------------------------------------------------

  ghost predicate IsRun(s: State, steps: seq<Step>)
    decreases |steps|
  {
    steps == [] || (Enabled(s, steps[0]) && IsRun(Do(s, steps[0]), steps[1..]))
  }

  ghost function After(s: State, steps: seq<Step>): State
    requires IsRun(s, steps)
    decreases |steps|
  {
    if steps == [] then s else After(Do(s, steps[0]), steps[1..])
  }

  /** Every reachable state satisfies the invariant. */
  lemma {:induction false} RunKeeps(s: State, steps: seq<Step>)
    requires Inv(s) && IsRun(s, steps)
    ensures Inv(After(s, steps))
    decreases |steps|
  {
    if steps != [] {
      StepKeeps(s, steps[0]);
      RunKeeps(Do(s, steps[0]), steps[1..]);
    }
  }

  /** Over every interleaving, a job has at most one row, at the key its state and due
      time determine, leased exactly while it runs; and a key decodes. */
  lemma OneRowPerJob(steps: seq<Step>, k1: Key, k2: Key)
    requires IsRun(EMPTY, steps)
    requires k1 in After(EMPTY, steps).jobs && k2 in After(EMPTY, steps).jobs && k1.id == k2.id
    ensures k1 == k2
    ensures Unmarshal(k1, After(EMPTY, steps).jobs[k1]) == Ok(After(EMPTY, steps).jobs[k1])
    ensures After(EMPTY, steps).jobs[k1].id == k1.id
  {
    RunKeeps(EMPTY, steps);
  }

  lemma StepKeepsARow(s: State, step: Step, k: Key)
    requires OneRow(s.jobs) && OpenOk(s.open, s.grants, s.drawn)
    requires Enabled(s, step) && k in s.jobs && !(step.Reap? && step.key.id == k.id)
    ensures exists k' :: k' in Do(s, step).jobs && k'.id == k.id
  {
    if step.Commit? && Holds(s.jobs, s.runs, s.open[step.txn]) {
      var t := s.open[step.txn];
      assert TxnOk(t, s.grants, s.drawn);
      LegalKeepsTheRow(t);
      var nk := KeyOf(t.next).value;
      assert (if k.id == t.key.id then nk else k) in Do(s, step).jobs;
    } else {
      assert k in Do(s, step).jobs;
    }
  }

  /** Until it is reaped, a job has exactly one row: over every run, one that has a row
      and is never reaped has one at the end, and no other. */
  lemma {:induction false} ExactlyOneRowUntilReaped(s: State, steps: seq<Step>, k: Key) returns (end: Key)
    requires Inv(s) && IsRun(s, steps) && k in s.jobs
    requires forall i | 0 <= i < |steps| :: !(steps[i].Reap? && steps[i].key.id == k.id)
    ensures end in After(s, steps).jobs && end.id == k.id
    ensures forall k' | k' in After(s, steps).jobs && k'.id == k.id :: k' == end
    decreases |steps|
  {
    if steps == [] {
      end := k;
    } else {
      StepKeeps(s, steps[0]);
      StepKeepsARow(s, steps[0], k);
      var next :| next in Do(s, steps[0]).jobs && next.id == k.id;
      end := ExactlyOneRowUntilReaped(Do(s, steps[0]), steps[1..], next);
    }
  }

  // --- time ----------------------------------------------------------------------------------

  /** In every run, a job is read for a claim only when the time its row names has come,
      and for a reclamation only when the lease its row holds has run out. */
  lemma NothingIsTakenEarly(steps: seq<Step>, step: Step)
    requires IsRun(EMPTY, steps) && Enabled(After(EMPTY, steps), step)
    ensures step.ReadDue? ==> After(EMPTY, steps).jobs[step.key].runAt <= step.now
    ensures step.ReadLapsed? ==>
              var row := After(EMPTY, steps).jobs[step.key];
              row.lease.Some? && row.lease.value.expiresAt <= step.now
  {
    RunKeeps(EMPTY, steps);
    if step.ReadDue? || step.ReadLapsed? {
      KeySaysWhen(After(EMPTY, steps), step);
    }
  }

  /** A worker's operation holds whoever comes later to what it said, however many steps
      lie between its read and theirs: while the row is the one it wrote, a failed job is
      not read for a claim before its delay is over, nor a renewed lease for reclamation
      before the lease from then has passed; and a finished one is read for neither. */
  lemma WritersWordIsKept(s: State, read: Step, steps: seq<Step>, later: Step)
    requires Inv(s) && read.Read? && Enabled(s, read) && IsRun(Do(s, read), steps)
    requires Enabled(After(Do(s, read), steps), later) && (later.ReadDue? || later.ReadLapsed?)
    requires var plan := Plan(read.slot, s.slots[read.slot], read.op, s.jobs, read.runId, read.now, read.lease);
             plan.Ok? && After(Do(s, read), steps).jobs[later.key] == plan.value.next
    ensures read.op.Fail? ==> later.ReadDue? && later.now >= read.now + read.op.delay
    ensures read.op.Renew? ==> later.ReadLapsed? && later.now >= read.now + read.lease
    ensures read.op.Release? ==> later.ReadDue? && later.now >= read.now
    ensures !read.op.Complete? && !read.op.Cancel?
  {
    StepKeeps(s, read);
    RunKeeps(Do(s, read), steps);
    PlanSaysWhen(read.slot, s.slots[read.slot], read.op, s.jobs, read.runId, read.now, read.lease);
    KeySaysWhen(After(Do(s, read), steps), later);
  }

  lemma KeySaysWhen(s: State, later: Step)
    requires RowsOk(s.jobs, s.grants, s.drawn) && Enabled(s, later) && (later.ReadDue? || later.ReadLapsed?)
    ensures KeyOf(s.jobs[later.key]) == Some(later.key) && later.key.due <= later.now
    ensures later.key.part == if later.ReadDue? then PendingPart else RunningPart
  {
  }

  lemma PlanSaysWhen(w: Id, slot: Slot, op: Op, jobs: Rows, runId: Id, now: Instant, lease: nat)
    requires Plan(w, slot, op, jobs, runId, now, lease).Ok?
    ensures var k := KeyOf(Plan(w, slot, op, jobs, runId, now, lease).value.next);
            && k.Some?
            && (op.Fail? ==> k.value.part == DonePart || (k.value.part == PendingPart && k.value.due == now + op.delay))
            && (op.Renew? && RowOk(slot.stored, jobs[slot.stored]) ==> k.value.part == RunningPart && k.value.due == now + lease)
            && (op.Release? ==> k.value.part == PendingPart && k.value.due == now)
            && (op.Complete? || op.Cancel? ==> k.value.part == DonePart)
  {
  }

  // --- fencing ------------------------------------------------------------------------------

  /** A claim that was granted and that no row answers to any more. */
  predicate Lost(s: State, token: Token) {
    token in s.grants && forall k | k in s.jobs :: s.jobs[k].lease.None? || s.jobs[k].lease.value.token != token
  }

  /** Reclaiming, cancelling, finishing, releasing or re-claiming a job takes it from
      every earlier holder. */
  lemma LeavingALeaseLosesIt(s: State, x: nat, token: Token)
    requires Inv(s) && x in s.open && Holds(s.jobs, s.runs, s.open[x])
    requires token in s.grants && s.grants[token].job == s.open[x].row.id
    requires !KeptLease(s.open[x].row, s.open[x].next)
    ensures Lost(Committed(s, x), token)
  {
    var t := s.open[x];
    assert TxnOk(t, s.grants, s.drawn);
    LegalKeepsTheRow(t);
    CommitKeeps(s, x);
    var after := Committed(s, x);
    forall k | k in after.jobs
      ensures after.jobs[k].lease.None? || after.jobs[k].lease.value.token != token
    {
      if k != KeyOf(t.next).value {
        assert k in s.jobs && t.key in s.jobs && k.id != t.key.id;
      }
    }
  }

  lemma LostStaysLost(s: State, step: Step, token: Token)
    requires OpenOk(s.open, s.grants, s.drawn) && Enabled(s, step) && Lost(s, token)
    ensures Lost(Do(s, step), token)
  {
    if step.Commit? && Holds(s.jobs, s.runs, s.open[step.txn]) {
      var t := s.open[step.txn];
      assert TxnOk(t, s.grants, s.drawn);
      assert t.next.lease.Some? ==> t.next.lease.value.token != token;
    }
  }

  /** A lost claim's holder is refused with a conflict, whatever it tries, even where
      another claim's row now sits at the key it remembers. */
  lemma LostHolderConflicts(s: State, w: Id, op: Op, runId: Id, now: Instant, lease: nat)
    requires Inv(s) && w in s.slots && !op.Cancel? && runId != ZERO_ID
    requires s.slots[w].copy.lease.Some? && Lost(s, s.slots[w].copy.lease.value.token)
    ensures Plan(w, s.slots[w], op, s.jobs, runId, now, lease) == Err(Conflict)
  {
    PlanIsOk(s, w, op, runId, now, lease);
  }

  /** A transaction the holder had already read under the lost claim conflicts too. */
  lemma LostTransactionConflicts(s: State, x: nat, token: Token)
    requires Inv(s) && x in s.open && Lost(s, token)
    requires s.open[x].row.lease.Some? && s.open[x].row.lease.value.token == token
    ensures Committed(s, x) == s.(open := s.open - {x})
  {
  }

  /** Once lost, lost over every run: whatever the old holder does then, early or late,
      leaves rows and history as they were. */
  lemma {:induction false} OldHolderChangesNothing(s: State, steps: seq<Step>, w: Id, token: Token, step: Step)
    requires Inv(s) && IsRun(s, steps) && Lost(s, token)
    requires Enabled(After(s, steps), step)
    requires match step
             case Read(_, slot, op, _, _, _) =>
               && slot == w && !op.Cancel? && After(s, steps).slots[w].copy.lease.value.token == token
             case Commit(x) => var row := After(s, steps).open[x].row; row.lease.Some? && row.lease.value.token == token
             case _ => false
    ensures Do(After(s, steps), step).jobs == After(s, steps).jobs
    ensures Do(After(s, steps), step).runs == After(s, steps).runs
    ensures Do(After(s, steps), step).slots == After(s, steps).slots
    decreases |steps|
  {
    if steps == [] {
      if step.Read? {
        LostHolderConflicts(s, w, step.op, step.runId, step.now, step.lease);
      } else {
        LostTransactionConflicts(s, step.txn, token);
      }
    } else {
      StepKeeps(s, steps[0]);
      LostStaysLost(s, steps[0], token);
      OldHolderChangesNothing(Do(s, steps[0]), steps[1..], w, token, step);
    }
  }

  predicate Gone(jobs: Rows, job: Id) {
    forall k | k in jobs :: k.id != job
  }

  lemma MoveLeavesOthers(jobs: Rows, t: Txn, nk: Key, k: Key)
    requires OneRow(jobs) && t.key in jobs && k in jobs && k != t.key && nk.id == t.key.id
    ensures k in Moved(jobs, t.key, nk, t.next) && Moved(jobs, t.key, nk, t.next)[k] == jobs[k]
  {
  }

  /** Rows change only where a job is enqueued, a transaction commits, or one is reaped. */
  lemma OtherStepsLeaveRows(s: State, step: Step)
    requires Enabled(s, step) && !step.Enqueue? && !step.Commit? && !step.Reap?
    ensures Do(s, step).jobs == s.jobs
  {
  }

  lemma CommitLeavesFinishedAlone(s: State, x: nat, k: Key)
    requires OneRow(s.jobs) && OpenOk(s.open, s.grants, s.drawn) && x in s.open
    requires k in s.jobs && Terminal(s.jobs[k].state)
    ensures k in Committed(s, x).jobs && Committed(s, x).jobs[k] == s.jobs[k]
  {
    var t := s.open[x];
    if Holds(s.jobs, s.runs, t) {
      assert TxnOk(t, s.grants, s.drawn);
      LegalKeepsTheRow(t);
      MoveLeavesOthers(s.jobs, t, KeyOf(t.next).value, k);
    }
  }

  lemma StepLeavesFinishedAlone(s: State, step: Step, k: Key)
    requires OneRow(s.jobs) && RowsOk(s.jobs, s.grants, s.drawn) && OpenOk(s.open, s.grants, s.drawn)
    requires Enabled(s, step) && k in s.jobs && Terminal(s.jobs[k].state)
    ensures var after := Do(s, step).jobs;
            if k in after then after[k] == s.jobs[k] else Gone(after, k.id)
  {
    if step.Enqueue? {
      assert k.id in s.drawn && KeyOf(step.job).value.id == step.job.id;
    } else if step.Commit? {
      CommitLeavesFinishedAlone(s, step.txn, k);
    } else if !step.Reap? {
      OtherStepsLeaveRows(s, step);
    }
  }

  lemma StepLeavesGoneAlone(s: State, step: Step, job: Id)
    requires OpenOk(s.open, s.grants, s.drawn) && Enabled(s, step) && job in s.drawn && Gone(s.jobs, job)
    ensures Gone(Do(s, step).jobs, job) && job in Do(s, step).drawn
  {
    if step.Commit? {
      var t := s.open[step.txn];
      assert TxnOk(t, s.grants, s.drawn);
      if Holds(s.jobs, s.runs, t) {
        LegalKeepsTheRow(t);
      }
    }
  }

  /** A finished job stays finished: its row is never rewritten, only reaped, and then
      the job never comes back. */
  lemma {:induction false} FinishedStaysFinished(s: State, steps: seq<Step>, k: Key)
    requires Inv(s) && IsRun(s, steps) && k.id in s.drawn
    requires if k in s.jobs then Terminal(s.jobs[k].state) else Gone(s.jobs, k.id)
    ensures var end := After(s, steps).jobs;
            if k in end then k in s.jobs && end[k] == s.jobs[k] else Gone(end, k.id)
    decreases |steps|
  {
    if steps != [] {
      StepKeeps(s, steps[0]);
      if k in s.jobs {
        StepLeavesFinishedAlone(s, steps[0], k);
      } else {
        StepLeavesGoneAlone(s, steps[0], k.id);
      }
      DrawnStays(s, steps[0]);
      FinishedStaysFinished(Do(s, steps[0]), steps[1..], k);
    }
  }

  lemma DrawnStays(s: State, step: Step)
    requires Enabled(s, step)
    ensures s.drawn <= Do(s, step).drawn
  {
  }

  // --- the work itself ----------------------------------------------------------------------

  lemma StepKeepsWork(s: State, step: Step, k: Key, k': Key)
    requires OneRow(s.jobs) && RowsOk(s.jobs, s.grants, s.drawn) && OpenOk(s.open, s.grants, s.drawn)
    requires Enabled(s, step) && k in s.jobs && k' in Do(s, step).jobs && k'.id == k.id
    ensures SameJob(s.jobs[k], Do(s, step).jobs[k'])
  {
    if step.Enqueue? {
      assert k.id in s.drawn && KeyOf(step.job).value.id == step.job.id;
    } else if step.Commit? {
      var t := s.open[step.txn];
      assert TxnOk(t, s.grants, s.drawn);
      if Holds(s.jobs, s.runs, t) {
        LegalKeepsTheRow(t);
      }
    } else if !step.Reap? {
      OtherStepsLeaveRows(s, step);
    }
  }

  /** Over every run, whatever happens to a job, its type, payload, priority, creation
      time and attempt bound are the ones it was enqueued with. */
  lemma {:induction false} WorkIsNeverChanged(s: State, steps: seq<Step>, k: Key, k': Key)
    requires Inv(s) && IsRun(s, steps) && k in s.jobs && k' in After(s, steps).jobs && k'.id == k.id
    ensures SameJob(s.jobs[k], After(s, steps).jobs[k'])
    decreases |steps|
  {
    if steps != [] {
      var next := Do(s, steps[0]);
      StepKeeps(s, steps[0]);
      if Gone(next.jobs, k.id) {
        DrawnStays(s, steps[0]);
        FinishedStaysFinished(next, steps[1..], Key(DonePart, 0, k.id));
      } else {
        var mid :| mid in next.jobs && mid.id == k.id;
        StepKeepsWork(s, steps[0], k, mid);
        WorkIsNeverChanged(next, steps[1..], mid, k');
      }
    }
  }

  // --- attempts -----------------------------------------------------------------------------

  /** Waiting rows have an attempt left, running rows have used one, and a copy whose
      token its row still carries is of that row's attempt. */
  lemma AttemptsStayInBounds(steps: seq<Step>, k: Key)
    requires IsRun(EMPTY, steps) && k in After(EMPTY, steps).jobs
    ensures var j := After(EMPTY, steps).jobs[k];
            && (Waiting(j.state) ==> j.attempts < j.maxAttempts)
            && (j.state.Running? ==> 1 <= j.attempts <= j.maxAttempts)
            && j.attempts <= j.maxAttempts
    ensures forall w | w in After(EMPTY, steps).slots ::
              var c := After(EMPTY, steps).slots[w].copy;
              var j := After(EMPTY, steps).jobs[k];
              c.lease.Some? && j.lease.Some? && c.lease.value.token == j.lease.value.token ==>
                c.attempts == j.attempts && c.id == j.id
  {
    RunKeeps(EMPTY, steps);
  }

  /** However often leases lapse, a job is claimed at most its attempts plus the times
      it was released; and exactly its attempts plus its releases while it has a row. */
  lemma ClaimsAreBounded(steps: seq<Step>, job: Id)
    requires IsRun(EMPTY, steps) && job in After(EMPTY, steps).tallies
    ensures var t := After(EMPTY, steps).tallies[job];
            && t.claims <= t.limit + t.releases
            && (forall k | k in After(EMPTY, steps).jobs && k.id == job ::
                  t.claims == After(EMPTY, steps).jobs[k].attempts + t.releases && t.limit == After(EMPTY, steps).jobs[k].maxAttempts)
  {
    RunKeeps(EMPTY, steps);
  }

  // --- history ------------------------------------------------------------------------------

  /** No two history rows of one job carry the same attempt. */
  lemma AttemptsAreRecordedOnce(steps: seq<Step>, r1: RunKey, r2: RunKey)
    requires IsRun(EMPTY, steps) && r1 in After(EMPTY, steps).runs && r2 in After(EMPTY, steps).runs && r1 != r2
    requires After(EMPTY, steps).runs[r1].jobId == After(EMPTY, steps).runs[r2].jobId
    ensures After(EMPTY, steps).runs[r1].attempt != After(EMPTY, steps).runs[r2].attempt
  {
    RunKeeps(EMPTY, steps);
  }

  /** A transition is refused only because the row moved on, never for its history row:
      planned exactly when the fence lets it through, and committed exactly when the row
      is still the one read, and then row and history change together. */
  lemma HistoryIsNeverRefused(s: State, w: Id, op: Op, runId: Id, now: Instant, lease: nat)
    requires Inv(s) && w in s.slots && MayAct(s.slots[w].copy, op) && runId != ZERO_ID
    ensures var plan := Plan(w, s.slots[w], op, s.jobs, runId, now, lease);
            && (plan.Ok? <==> s.slots[w].stored in s.jobs && Fence(s.slots[w].copy, s.jobs[s.slots[w].stored]).Ok?)
            && (plan.Err? ==> plan.error == Conflict)
    ensures forall x | x in s.open ::
              var t := s.open[x];
              && (Holds(s.jobs, s.runs, t) <==> t.key in s.jobs && s.jobs[t.key] == t.row)
              && (t.run.Some? ==> (RunKeyOf(t.run.value) in Committed(s, x).runs <==> Holds(s.jobs, s.runs, t)))
  {
    PlanIsOk(s, w, op, runId, now, lease);
    forall x | x in s.open
      ensures KeyOf(s.open[x].next).Some?
    {
      assert TxnOk(s.open[x], s.grants, s.drawn);
      LegalKeepsTheRow(s.open[x]);
    }
  }
}
