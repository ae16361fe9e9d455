/** The lifecycle as it runs: a pass edits the record and the result it is given, a
    recall appends to the stream, and a visit folds, decides and writes. */
module Lifecycle {
  import opened Prelude
  import opened LifecyclePolicy
  import P = LifecyclePass
  import R = LifecycleRecall
  import opened LifecycleEffects

  class Record {
    var fields: P.Memory

    constructor (fields: P.Memory)
      ensures this.fields == fields
    {
      this.fields := fields;
    }
  }

  class Result {
    var out: P.Outcome

    constructor ()
      ensures out == P.NOTHING
    {
      out := P.NOTHING;
    }

    method Note(kind: P.Kind)
      modifies this
      ensures out == old(out).(changed := true, notes := old(out.notes) + [kind])
    {
      out := out.(changed := true, notes := out.notes + [kind]);
    }
  }

  method Retire(rec: Record, now: Instant)
    modifies rec
    ensures rec.fields == P.Retired(old(rec.fields), now)
  {
    rec.fields := rec.fields.(archived := true);
    rec.fields := rec.fields.(archivedAt := now);
  }

  /** Past its time to live a memory is promoted or retired; the answer says if it was. */
  method Expire(pol: Policy, rec: Record, now: Instant, res: Result) returns (done: bool)
    modifies rec, res
    ensures done == TimeIsUp(pol, old(rec.fields), now)
    ensures P.Step(rec.fields, res.out) == P.Expire(pol, P.Step(old(rec.fields), old(res.out)), now)
    ensures done && !old(rec.fields).archived && old(res.out.notes) == [] ==> Expiry(pol, old(rec.fields), now, rec.fields, res.out.notes)
    ensures !done ==> rec.fields == old(rec.fields) && res.out == old(res.out)
  {
    var ttl := P.EffectiveTtl(pol, rec.fields);
    if ttl <= 0 || now < rec.fields.createdAt + ttl {
      return false;
    }
    if pol.promoteAtRecalls.Some? && rec.fields.accessCount >= pol.promoteAtRecalls.value {
      rec.fields := rec.fields.(policy := pol.promoteTo);
      rec.fields := rec.fields.(ttl := 0);
      res.Note(P.Promoted);
      return true;
    }
    Retire(rec, now);
    res.Note(P.Expired);
    return true;
  }

  method DecayImportance(pol: Policy, rec: Record, now: Instant, res: Result)
    modifies rec, res
    ensures P.Step(rec.fields, res.out) == P.DecayImportance(pol, P.Step(old(rec.fields), old(res.out)), now)
  {
    if pol.importanceDecay >= 1.0 {
      return;
    }
    var from := rec.fields.lastDecayAt;
    if from == 0 {
      from := rec.fields.createdAt;
    }
    var days := P.WholeDays(from, now);
    if days == 0 {
      return;
    }
    var decayed := rec.fields.importance * P.Power(pol.importanceDecay, days);
    rec.fields := rec.fields.(importance := P.Max(decayed, 0.0));
    rec.fields := rec.fields.(lastDecayAt := now);
    res.out := res.out.(changed := true);
  }

  method DecayHealth(pol: Policy, rec: Record, now: Instant, res: Result)
    modifies rec, res
    ensures P.Step(rec.fields, res.out) == P.DecayHealth(pol, P.Step(old(rec.fields), old(res.out)), now)
  {
    if pol.healthDecay <= 0.0 {
      return;
    }
    var reinforced := rec.fields.lastRecalledAt;
    if reinforced == 0 {
      reinforced := rec.fields.accessedAt;
    }
    var checked := rec.fields.lastHealthCheckAt;
    if checked == 0 {
      checked := rec.fields.createdAt;
    }
    var days := P.WholeDays(P.Later(reinforced, checked), now);
    if days == 0 {
      return;
    }
    var health := rec.fields.health - pol.healthDecay * days as real;
    rec.fields := rec.fields.(health := P.Min(P.Max(health, 0.0), MAX_HEALTH));
    rec.fields := rec.fields.(lastHealthCheckAt := now);
    res.out := res.out.(changed := true);
  }

  method Archive(pol: Policy, rec: Record, now: Instant, res: Result)
    modifies rec, res
    ensures P.Step(rec.fields, res.out) == P.Archive(pol, P.Step(old(rec.fields), old(res.out)), now)
  {
    if pol.archiveAtHealth.None? || rec.fields.archived {
      return;
    }
    if rec.fields.health > pol.archiveAtHealth.value {
      return;
    }
    Retire(rec, now);
    res.Note(P.Archived);
  }

  method Cleanup(pol: Policy, rec: Record, now: Instant, res: Result)
    modifies res
    ensures P.Step(rec.fields, res.out) == P.Cleanup(pol, P.Step(rec.fields, old(res.out)), now)
  {
    if pol.cleanupAfter.None? {
      return;
    }
    var archivedFor := now - P.ArchivedAt(rec.fields);
    if archivedFor < pol.cleanupAfter.value {
      return;
    }
    res.out := res.out.(delete := true);
    res.Note(P.HardDeleted);
  }

  /** Carries out whatever has come due on a record, on the record itself. What it does
      is the pass: due exactly when the schedule says, or on sight of a memory run down. */
  method Apply(table: Table, rec: Record, now: Instant) returns (res: Result)
    modifies rec
    ensures fresh(res) && P.Step(rec.fields, res.out) == P.Pass(table, old(rec.fields), now)
    ensures Effect(table, old(rec.fields), now, rec.fields, res.out)
    ensures IsTable(table) && old(rec.fields).createdAt > 0 ==>
              (res.out.changed || res.out.delete <==>
               P.Due(table, old(rec.fields), now) || P.OnSight(table, old(rec.fields), now))
  {
    if IsTable(table) && rec.fields.createdAt > 0 {
      P.PassActsWhenDue(table, rec.fields, now);
    }
    PassHasItsEffect(table, rec.fields, now);
    res := new Result();
    var pol := Resolve(table, rec.fields.policy);
    if !Known(table, rec.fields.policy) {
      return;
    }
    if rec.fields.archived {
      Cleanup(pol, rec, now, res);
      return;
    }
    var done := Expire(pol, rec, now, res);
    if done {
      return;
    }
    if now < rec.fields.protectedUntil {
      return;
    }
    DecayImportance(pol, rec, now, res);
    DecayHealth(pol, rec, now, res);
    Archive(pol, rec, now, res);
  }

  /** Appends a recall to the stream, unless the last one is within the window. */
  method RecordRecall(store: R.Store, now: Instant, window: int) returns (wrote: bool)
    modifies store
    ensures wrote == R.IsNew(old(store.events), now, window)
    ensures R.Sorted(old(store.events)) ==> (wrote <==> OutsideTheWindow(old(store.events), now, window))
    ensures store.events == if wrote then old(store.events) + [R.Event(now / 1_000_000, P.Recalled)] else old(store.events)
  {
    if R.Sorted(store.events) {
      NewIsOutsideTheWindow(store.events, now, window);
    }
    var span := if window <= 0 then R.DEFAULT_RECALL_WINDOW else window;
    var last := store.NewestRecallOf();
    if last.Some? && now - last.value * MILLISECOND < span {
      return false;
    }
    store.events := store.events + [R.Event(R.Millis(now), P.Recalled)];
    return true;
  }

  /** Adds to a record's counters the recalls it has not counted yet. */
  method Fold(store: R.Store, rec: Record) returns (n: nat)
    requires R.Sorted(store.events)
    modifies rec
    ensures n == R.Count(store.events, old(rec.fields).lastRecalledAt)
    ensures rec.fields == R.Folded(old(rec.fields), store.events)
    ensures FoldEffect(old(rec.fields), store.events, rec.fields)
  {
    FoldHasItsEffect(rec.fields, store.events);
    var newest;
    n, newest := store.RecallsSince(rec.fields.lastRecalledAt);
    if n == 0 {
      return;
    }
    rec.fields := rec.fields.(accessCount := rec.fields.accessCount + n);
    if newest > rec.fields.accessedAt {
      rec.fields := rec.fields.(accessedAt := newest);
    }
    if newest > rec.fields.lastRecalledAt {
      rec.fields := rec.fields.(lastRecalledAt := newest);
    }
    var health := rec.fields.health + R.RECALL_HEALTH_BOOST * n as real;
    if health > MAX_HEALTH {
      health := MAX_HEALTH;
    }
    if health < 0.0 {
      health := 0.0;
    }
    rec.fields := rec.fields.(health := health);
  }

  method AppendNotes(store: R.Store, ms: nat, notes: seq<P.Kind>)
    modifies store
    ensures store.events == R.Noted(old(store.events), ms, notes)
  {
    var i := 0;
    while i < |notes|
      invariant 0 <= i <= |notes| && store.events == R.Noted(old(store.events), ms, notes[..i])
    {
      store.events := store.events + [R.Event(ms, notes[i])];
      assert notes[..i + 1] == notes[..i] + [notes[i]];
      i := i + 1;
    }
    assert notes[..i] == notes;
  }

  /** Writes the stream a visit leaves: nothing of a deleted memory's but its notes. */
  method Settle(store: R.Store, now: Instant, retention: nat, out: P.Outcome)
    requires R.Sorted(store.events)
    modifies store
    ensures out.delete ==> store.events == R.Noted([], R.Millis(now), out.notes)
    ensures !out.delete ==>
              var k := R.Dropped(old(store.events), R.Cutoff(now, retention), R.SWEEP_BATCH);
              k <= |old(store.events)| && store.events == R.Noted(old(store.events)[k..], R.Millis(now), out.notes)
    ensures !out.delete ==> StreamAfter(old(store.events), now, retention, out.notes, store.events)
    ensures out.delete ==> OnlyNotes(now, out.notes, store.events)
  {
    if out.delete {
      store.events := [];
    } else {
      DroppedAreOutlived(store.events, now, retention);
      VisitKeepsTheRest(store.events, now, retention, out.notes, R.Dropped(store.events, R.Cutoff(now, retention), R.SWEEP_BATCH));
      var removed := store.Trim(R.Cutoff(now, retention), R.SWEEP_BATCH);
      R.DroppedIs(old(store.events), R.Cutoff(now, retention), R.SWEEP_BATCH, removed);
    }
    AppendNotes(store, R.Millis(now), out.notes);
    if out.delete {
      NotesFollow([], R.Millis(now), out.notes);
    }
  }

  /** One memory's turn in a pass: its recalls counted, its dues carried out, its row saved. */
  method Visit(table: Table, rec: Record, store: R.Store, now: Instant, retention: nat)
    returns (acted: bool, deleted: bool, ghost folded: P.Memory, ghost out: P.Outcome)
    requires R.Sorted(store.events)
    modifies rec, store
    ensures FoldEffect(old(rec.fields), old(store.events), folded) && Effect(table, folded, now, rec.fields, out)
    ensures deleted == out.delete && (acted <==> rec.fields != old(rec.fields) || out.notes != [])
    ensures acted && !deleted ==> StreamAfter(old(store.events), now, retention, out.notes, store.events)
    ensures deleted ==> OnlyNotes(now, out.notes, store.events)
    ensures var v := R.VisitMemory(table, old(rec.fields), old(store.events), now, retention);
            && deleted == v.memory.None? && store.events == v.events
            && (!deleted ==> rec.fields == v.memory.value)
    ensures !acted ==> rec.fields == old(rec.fields) && store.events == old(store.events)
  {
    ghost var events := store.events;
    var n := Fold(store, rec);
    folded := rec.fields;
    var res := Apply(table, rec, now);
    out := res.out;
    CountIsOfTheFresh(events, old(rec.fields).lastRecalledAt);
    ActingShows(table, old(rec.fields), events, folded, now, rec.fields, out);
    if !res.out.changed && !res.out.delete && n == 0 {
      P.QuietPass(table, folded, now);
      acted, deleted := false, false;
      return;
    }
    Settle(store, now, retention, res.out);
    acted, deleted := true, res.out.delete;
  }
}
