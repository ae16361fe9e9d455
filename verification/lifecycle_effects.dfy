/** What passes, recalls and folds do to a memory, field by field and in plain arithmetic,
    apart from the functions that compute it. */
module LifecycleEffects {
  import opened Prelude
  import opened LifecyclePolicy
  import P = LifecyclePass
  import R = LifecycleRecall

  // --- a pass ---------------------------------------------------------------------------------

  /** The policy a memory is under; an empty name is the short-term one. */
  predicate Under(table: Table, m: P.Memory, pol: Policy) {
    var name := if m.policy == "" then "short_term" else m.policy;
    name in table && table[name] == pol
  }

  /** A short-term memory's own time to live goes before its policy's. */
  predicate TimeIsUp(pol: Policy, m: P.Memory, now: Instant) {
    if m.ttl > 0 && m.policy == "short_term" then now >= m.createdAt + m.ttl
    else pol.ttl.Some? && pol.ttl.value > 0 && now >= m.createdAt + pol.ttl.value
  }

  /** What no pass touches. */
  predicate SameHistory(m: P.Memory, after: P.Memory) {
    && after.createdAt == m.createdAt && after.updatedAt == m.updatedAt && after.protectedUntil == m.protectedUntil
    && after.accessCount == m.accessCount && after.accessedAt == m.accessedAt && after.lastRecalledAt == m.lastRecalledAt
  }

  predicate SameStrength(m: P.Memory, after: P.Memory) {
    && after.importance == m.importance && after.health == m.health
    && after.lastDecayAt == m.lastDecayAt && after.lastHealthCheckAt == m.lastHealthCheckAt
  }

  /** At the end of its time to live, a memory recalled often enough is promoted and kept;
      any other is archived under its own policy. */
  predicate Expiry(pol: Policy, m: P.Memory, now: Instant, after: P.Memory, notes: seq<P.Kind>) {
    && SameHistory(m, after) && SameStrength(m, after)
    && if pol.promoteAtRecalls.Some? && pol.promoteAtRecalls.value <= m.accessCount
       then !after.archived && after.archivedAt == m.archivedAt && after.policy == pol.promoteTo && after.ttl == 0 && notes == [P.Promoted]
       else after.archived && after.archivedAt == now && after.policy == m.policy && after.ttl == m.ttl && notes == [P.Expired]
  }

  /** The whole days from one instant to another, none from an unset one. */
  predicate DaysFrom(from: Instant, to: Instant, days: nat) {
    if from == 0 || to < from then days == 0
    else from + days * 86_400_000_000_000 <= to < from + (days + 1) * 86_400_000_000_000
  }

  /** A number with a factor applied once a day. */
  function Daily(x: real, factor: real, days: nat): real {
    if days == 0 then x else Daily(x, factor, days - 1) * factor
  }

  predicate ImportanceAfter(pol: Policy, m: P.Memory, now: Instant, days: nat, after: P.Memory) {
    && DaysFrom(if m.lastDecayAt == 0 then m.createdAt else m.lastDecayAt, now, days)
    && if pol.importanceDecay >= 1.0 || days == 0 then after.importance == m.importance && after.lastDecayAt == m.lastDecayAt
       else
         && after.lastDecayAt == now
         && after.importance == if Daily(m.importance, pol.importanceDecay, days) < 0.0 then 0.0 else Daily(m.importance, pol.importanceDecay, days)
  }

  /** Clamped to between nothing and a hundred. */
  predicate Clamped(x: real, health: real) {
    if x < 0.0 then health == 0.0 else if x > 100.0 then health == 100.0 else health == x
  }

  predicate HealthAfter(pol: Policy, m: P.Memory, now: Instant, days: nat, after: P.Memory) {
    var reinforced := if m.lastRecalledAt == 0 then m.accessedAt else m.lastRecalledAt;
    var checked := if m.lastHealthCheckAt == 0 then m.createdAt else m.lastHealthCheckAt;
    && DaysFrom(if reinforced > checked then reinforced else checked, now, days)
    && if pol.healthDecay <= 0.0 || days == 0 then after.health == m.health && after.lastHealthCheckAt == m.lastHealthCheckAt
       else after.lastHealthCheckAt == now && Clamped(m.health - pol.healthDecay * days as real, after.health)
  }

  predicate ArchiveAfter(pol: Policy, m: P.Memory, now: Instant, after: P.Memory, notes: seq<P.Kind>) {
    && after.policy == m.policy && after.ttl == m.ttl
    && if pol.archiveAtHealth.Some? && after.health <= pol.archiveAtHealth.value
       then after.archived && after.archivedAt == now && notes == [P.Archived]
       else !after.archived && after.archivedAt == m.archivedAt && notes == []
  }

  /** A live memory's ordinary pass: two decays by whole days, then perhaps the archive. */
  ghost predicate Wear(pol: Policy, m: P.Memory, now: Instant, after: P.Memory, out: P.Outcome) {
    && SameHistory(m, after) && !out.delete && ArchiveAfter(pol, m, now, after, out.notes)
    && (exists days :: ImportanceAfter(pol, m, now, days, after))
    && (exists days :: HealthAfter(pol, m, now, days, after))
  }

  /** An archived memory is deleted exactly once its retention is over. */
  predicate Retention(pol: Policy, m: P.Memory, now: Instant, out: P.Outcome) {
    var since := if m.archivedAt == 0 then m.updatedAt else m.archivedAt;
    if pol.cleanupAfter.Some? && now - since >= pol.cleanupAfter.value then out.delete && out.notes == [P.HardDeleted]
    else !out.delete && out.notes == []
  }

  /** The whole of what one pass may do. */
  ghost predicate Effect(table: Table, m: P.Memory, now: Instant, after: P.Memory, out: P.Outcome) {
    && ((forall pol :: !Under(table, m, pol)) ==> after == m && !out.delete && out.notes == [])
    && (forall pol | Under(table, m, pol) ::
          if m.archived then after == m && Retention(pol, m, now, out)
          else if TimeIsUp(pol, m, now) then !out.delete && Expiry(pol, m, now, after, out.notes)
          else if now < m.protectedUntil then after == m && !out.delete && out.notes == []
          else Wear(pol, m, now, after, out))
    && (out.changed <==> after != m || out.notes != [])
  }

  lemma DaysAreWhole(from: Instant, to: Instant)
    ensures DaysFrom(from, to, P.WholeDays(from, to))
  {
  }

  lemma {:induction false} DailyIsPower(x: real, factor: real, days: nat)
    ensures Daily(x, factor, days) == P.Weakened(x, factor, days)
  {
    if days > 0 {
      DailyIsPower(x, factor, days - 1);
      Reassociate(x, factor, P.Power(factor, days - 1));
    }
  }

  lemma Reassociate(x: real, factor: real, power: real)
    ensures x * power * factor == x * (factor * power)
  {
  }

  lemma ImportanceIs(pol: Policy, s: P.Step, now: Instant)
    ensures ImportanceAfter(pol, s.memory, now, P.WholeDays(P.DecayClock(s.memory), now), P.DecayImportance(pol, s, now).memory)
  {
    var m := s.memory;
    var days := P.WholeDays(P.DecayClock(m), now);
    DaysAreWhole(P.DecayClock(m), now);
    DailyIsPower(m.importance, pol.importanceDecay, days);
  }

  lemma HealthIs(pol: Policy, s: P.Step, now: Instant)
    ensures HealthAfter(pol, s.memory, now, P.WholeDays(P.HealthClock(s.memory), now), P.DecayHealth(pol, s, now).memory)
  {
    DaysAreWhole(P.HealthClock(s.memory), now);
  }

  /** The second decay leaves the first one's work alone. */
  lemma HealthLeavesImportance(pol: Policy, m: P.Memory, now: Instant, days: nat, s: P.Step)
    requires ImportanceAfter(pol, m, now, days, s.memory)
    ensures var two := P.DecayHealth(pol, s, now);
            && ImportanceAfter(pol, m, now, days, two.memory)
            && two == P.Step(s.memory.(health := two.memory.health, lastHealthCheckAt := two.memory.lastHealthCheckAt), s.out.(changed := two.out.changed))
  {
  }

  lemma ImportanceLeavesHealth(pol: Policy, m: P.Memory, now: Instant)
    ensures var one := P.DecayImportance(pol, P.Step(m, P.NOTHING), now);
            one == P.Step(m.(importance := one.memory.importance, lastDecayAt := one.memory.lastDecayAt), P.NOTHING.(changed := one.out.changed))
  {
  }

  lemma HealthIsFrom(pol: Policy, m: P.Memory, one: P.Memory, now: Instant, days: nat, two: P.Memory)
    requires one == m.(importance := one.importance, lastDecayAt := one.lastDecayAt) && HealthAfter(pol, one, now, days, two)
    ensures HealthAfter(pol, m, now, days, two)
  {
  }

  lemma DecaysAre(pol: Policy, m: P.Memory, now: Instant)
    ensures var two := P.DecayHealth(pol, P.DecayImportance(pol, P.Step(m, P.NOTHING), now), now);
            && ImportanceAfter(pol, m, now, P.WholeDays(P.DecayClock(m), now), two.memory)
            && HealthAfter(pol, m, now, P.WholeDays(P.HealthClock(m), now), two.memory)
            && SameHistory(m, two.memory) && two.memory.policy == m.policy && two.memory.ttl == m.ttl
            && two.memory.archived == m.archived && two.memory.archivedAt == m.archivedAt
            && !two.out.delete && two.out.notes == []
  {
    var one := P.DecayImportance(pol, P.Step(m, P.NOTHING), now);
    var two := P.DecayHealth(pol, one, now);
    ImportanceIs(pol, P.Step(m, P.NOTHING), now);
    ImportanceLeavesHealth(pol, m, now);
    HealthLeavesImportance(pol, m, now, P.WholeDays(P.DecayClock(m), now), one);
    HealthIs(pol, one, now);
    HealthIsFrom(pol, m, one.memory, now, P.WholeDays(P.HealthClock(m), now), two.memory);
  }

  /** Archiving changes neither the decays nor their clocks. */
  lemma ArchiveIs(pol: Policy, m: P.Memory, now: Instant, i: nat, h: nat, s: P.Step)
    requires ImportanceAfter(pol, m, now, i, s.memory) && HealthAfter(pol, m, now, h, s.memory)
    requires SameHistory(m, s.memory) && s.memory.policy == m.policy && s.memory.ttl == m.ttl
    requires !s.memory.archived && s.memory.archivedAt == m.archivedAt && !s.out.delete && s.out.notes == []
    ensures var end := P.Archive(pol, s, now);
            && SameHistory(m, end.memory) && !end.out.delete && ArchiveAfter(pol, m, now, end.memory, end.out.notes)
            && ImportanceAfter(pol, m, now, i, end.memory) && HealthAfter(pol, m, now, h, end.memory)
  {
  }

  lemma WearIs(pol: Policy, m: P.Memory, now: Instant)
    requires !m.archived
    ensures var end := P.Archive(pol, P.DecayHealth(pol, P.DecayImportance(pol, P.Step(m, P.NOTHING), now), now), now);
            Wear(pol, m, now, end.memory, end.out)
  {
    var two := P.DecayHealth(pol, P.DecayImportance(pol, P.Step(m, P.NOTHING), now), now);
    DecaysAre(pol, m, now);
    ArchiveIs(pol, m, now, P.WholeDays(P.DecayClock(m), now), P.WholeDays(P.HealthClock(m), now), two);
  }

  /** A pass does what is set out above, and nothing else. */
  lemma PassHasItsEffect(table: Table, m: P.Memory, now: Instant)
    ensures Effect(table, m, now, P.Pass(table, m, now).memory, P.Pass(table, m, now).out)
  {
    if !m.archived {
      WearIs(Resolve(table, m.policy), m, now);
    }
    assert Known(table, m.policy) ==> Under(table, m, Resolve(table, m.policy));
  }

  /** More recalls never turn a memory a pass keeps into one it archives. */
  lemma MoreRecallsNeverArchive(table: Table, m: P.Memory, more: nat, now: Instant)
    requires !m.archived && P.Pass(table, m.(accessCount := m.accessCount + more), now).memory.archived
    ensures P.Pass(table, m, now).memory.archived
  {
  }

  // --- recalls ------------------------------------------------------------------------------------

  /** A recall of a later millisecond than the watermark's; an unset watermark is before all. */
  predicate Fresh(events: R.Stream, after: Instant, i: nat) {
    i < |events| && events[i].kind == P.Recalled && (after == 0 || events[i].ms > after / 1_000_000)
  }

  ghost function FreshAt(events: R.Stream, after: Instant): set<nat> {
    set i: nat | i < |events| && Fresh(events, after, i)
  }

  lemma {:induction false} CountIsOfTheFresh(events: R.Stream, after: Instant)
    ensures R.Count(events, after) == |FreshAt(events, after)|
    decreases |events|
  {
    if events != [] {
      var n := |events| - 1;
      CountIsOfTheFresh(events[..n], after);
      var rest := FreshAt(events[..n], after);
      assert n !in rest;
      assert FreshAt(events, after) == if Fresh(events, after, n) then rest + {n} else rest;
    }
  }

  /** The latest recall there is. */
  predicate IsNewest(events: R.Stream, ms: nat) {
    R.Event(ms, P.Recalled) in events && forall e | e in events && e.kind == P.Recalled :: e.ms <= ms
  }

  /** A fold: one access for each fresh recall, ten of health for each up to a hundred, and
      both instants moved up to the latest recall. With nothing fresh, nothing. */
  ghost predicate FoldEffect(m: P.Memory, events: R.Stream, after: P.Memory) {
    var n := |FreshAt(events, m.lastRecalledAt)|;
    if n == 0 then after == m
    else
      && after == m.(accessCount := after.accessCount, accessedAt := after.accessedAt, lastRecalledAt := after.lastRecalledAt, health := after.health)
      && after.accessCount == m.accessCount + n && Clamped(m.health + 10.0 * n as real, after.health)
      && exists ms: nat | IsNewest(events, ms) ::
           && after.accessedAt == (if ms * 1_000_000 > m.accessedAt then ms * 1_000_000 else m.accessedAt)
           && after.lastRecalledAt == if ms * 1_000_000 > m.lastRecalledAt then ms * 1_000_000 else m.lastRecalledAt
  }

  lemma FoldHasItsEffect(m: P.Memory, events: R.Stream)
    requires R.Sorted(events)
    ensures FoldEffect(m, events, R.Folded(m, events))
  {
    CountIsOfTheFresh(events, m.lastRecalledAt);
    R.CountIsZero(events, m.lastRecalledAt);
    R.NewestRecallIsNewest(events);
    if R.Count(events, m.lastRecalledAt) != 0 {
      assert IsNewest(events, R.NewestRecall(events).value);
    }
  }

  /** A recall is recorded exactly when no recorded one is within the window, half a minute
      unless another is set. */
  predicate OutsideTheWindow(events: R.Stream, now: Instant, window: int) {
    forall e | e in events && e.kind == P.Recalled ::
      now - e.ms * 1_000_000 >= if window <= 0 then 30_000_000_000 else window
  }

  lemma NewIsOutsideTheWindow(events: R.Stream, now: Instant, window: int)
    requires R.Sorted(events)
    ensures R.IsNew(events, now, window) <==> OutsideTheWindow(events, now, window)
  {
    R.NewestRecallIsNewest(events);
  }

  // --- a visit --------------------------------------------------------------------------------------

  /** A row's time, to the millisecond it is kept to, is before the retention. */
  predicate Outlived(e: R.Event, now: Instant, retention: nat) {
    (e.ms + 1) * 1_000_000 <= now - retention
  }

  /** A stream less so many rows at its front, and then the notes. */
  predicate Trimmed(events: R.Stream, k: nat, notes: seq<P.Kind>, ms: nat, after: R.Stream) {
    && k <= |events| && |after| == |events| - k + |notes| && after[..|events| - k] == events[k..]
    && forall i | 0 <= i < |notes| :: after[|events| - k + i] == R.Event(ms, notes[i])
  }

  /** The rows at the front that have outlived the retention, 256 of them at most. */
  predicate OutlivedFront(events: R.Stream, k: nat, now: Instant, retention: nat) {
    && k <= |events| && k <= 256 && (forall i | 0 <= i < k :: Outlived(events[i], now, retention))
    && (k < |events| && k < 256 ==> !Outlived(events[k], now, retention))
  }

  /** All that is left of a deleted memory's stream: what was noted of it. */
  predicate OnlyNotes(now: Instant, notes: seq<P.Kind>, after: R.Stream) {
    |after| == |notes| && forall i | 0 <= i < |notes| :: after[i] == R.Event(now / 1_000_000, notes[i])
  }

  ghost predicate StreamAfter(events: R.Stream, now: Instant, retention: nat, notes: seq<P.Kind>, after: R.Stream) {
    exists k | OutlivedFront(events, k, now, retention) :: Trimmed(events, k, notes, now / 1_000_000, after)
  }

  lemma DroppedAreOutlived(events: R.Stream, now: Instant, retention: nat)
    ensures var k := R.Dropped(events, R.Cutoff(now, retention), R.SWEEP_BATCH);
            OutlivedFront(events, k, now, retention)
  {
    R.DroppedAreOld(events, R.Cutoff(now, retention), R.SWEEP_BATCH);
    forall i | 0 <= i < |events|
      ensures Outlived(events[i], now, retention) <==> events[i].ms < R.Cutoff(now, retention)
    {
      BeforeTheCutoff(events[i], now, retention);
    }
  }

  /** What a visit leaves of the stream is all of it but the front that outlived the retention. */
  lemma VisitKeepsTheRest(events: R.Stream, now: Instant, retention: nat, notes: seq<P.Kind>, k: nat)
    requires OutlivedFront(events, k, now, retention)
    ensures StreamAfter(events, now, retention, notes, R.Noted(events[k..], R.Millis(now), notes))
  {
    NotesFollow(events[k..], R.Millis(now), notes);
    MillisAre(now);
    TrimmedIs(events, k, notes, R.Millis(now), R.Noted(events[k..], R.Millis(now), notes));
  }

  lemma MillisAre(now: Instant)
    ensures R.Millis(now) == now / 1_000_000
  {
  }

  lemma TrimmedIs(events: R.Stream, k: nat, notes: seq<P.Kind>, ms: nat, after: R.Stream)
    requires k <= |events| && |after| == |events[k..]| + |notes| && after[..|events[k..]|] == events[k..]
    requires forall i | 0 <= i < |notes| :: after[|events[k..]| + i] == R.Event(ms, notes[i])
    ensures Trimmed(events, k, notes, ms, after)
  {
  }

  lemma NotesFollow(kept: R.Stream, ms: nat, notes: seq<P.Kind>)
    ensures var after := R.Noted(kept, ms, notes);
            && |after| == |kept| + |notes| && after[..|kept|] == kept
            && forall i | 0 <= i < |notes| :: after[|kept| + i] == R.Event(ms, notes[i])
  {
  }

  lemma BeforeTheCutoff(e: R.Event, now: Instant, retention: nat)
    ensures Outlived(e, now, retention) <==> e.ms < R.Cutoff(now, retention)
  {
  }

  /** Counting a recall, noting a transition or changing a field is acting. */
  lemma ActingShows(table: Table, m: P.Memory, events: R.Stream, folded: P.Memory, now: Instant, after: P.Memory, out: P.Outcome)
    requires FoldEffect(m, events, folded) && Effect(table, folded, now, after, out)
    ensures (out.changed || out.delete || FreshAt(events, m.lastRecalledAt) != {}) <==> after != m || out.notes != []
  {
    KeepsCount(table, folded, now, after, out);
  }

  lemma KeepsCount(table: Table, m: P.Memory, now: Instant, after: P.Memory, out: P.Outcome)
    requires Effect(table, m, now, after, out)
    ensures after.accessCount == m.accessCount && (out.delete ==> out.notes != [])
  {
    if pol :| Under(table, m, pol) {
    }
  }
}
