/** One lifecycle pass over a memory, and the schedule that says when the next is due.
    The two are written apart and have to agree. */
module LifecyclePass {
  import opened Prelude
  import opened LifecyclePolicy

  /** The fields the lifecycle reads and writes. */
  datatype Memory = Memory(
    createdAt: Instant, updatedAt: Instant,
    policy: string, ttl: int,
    archived: bool, archivedAt: Instant,
    accessCount: nat, accessedAt: Instant, lastRecalledAt: Instant,
    lastDecayAt: Instant, lastHealthCheckAt: Instant, protectedUntil: Instant,
    importance: real, health: real)

  datatype Kind = Promoted | Expired | Archived | HardDeleted | Recalled

  /** What a pass decided: whether to write the memory back, whether to delete it, and
      the events to write. */
  datatype Outcome = Outcome(changed: bool, delete: bool, notes: seq<Kind>)

  const NOTHING := Outcome(false, false, [])

  datatype Step = Step(memory: Memory, out: Outcome)

  function Note(s: Step, kind: Kind): Step {
    s.(out := s.out.(changed := true, notes := s.out.notes + [kind]))
  }

  function Later(a: Instant, b: Instant): Instant {
    if b > a then b else a
  }

  function WholeDays(from: Instant, to: Instant): nat {
    if from == 0 || to <= from then 0 else (to - from) / DAY
  }

  function Power(base: real, n: nat): real {
    if n == 0 then 1.0 else base * Power(base, n - 1)
  }

  function Max(a: real, b: real): real {
    if a < b then b else a
  }

  function Min(a: real, b: real): real {
    if a < b then a else b
  }

  /** Importance after so many days of a daily factor. */
  function Weakened(importance: real, decay: real, days: nat): real {
    importance * Power(decay, days)
  }

  /** Health after so many days of a daily loss, before clamping. */
  function Worn(health: real, decay: real, days: nat): real {
    health - decay * days as real
  }

  // --- clocks ----------------------------------------------------------------------------------

  /** Importance decays from the last decay, or from creation. */
  function DecayClock(m: Memory): Instant {
    if m.lastDecayAt == 0 then m.createdAt else m.lastDecayAt
  }

  /** Health decays from the last reinforcement or the last check, whichever is later. */
  function HealthClock(m: Memory): Instant {
    var reinforced := if m.lastRecalledAt == 0 then m.accessedAt else m.lastRecalledAt;
    var checked := if m.lastHealthCheckAt == 0 then m.createdAt else m.lastHealthCheckAt;
    Later(reinforced, checked)
  }

  function EffectiveTtl(pol: Policy, m: Memory): int {
    if m.ttl > 0 && m.policy == SHORT_TERM then m.ttl
    else if pol.ttl.Some? then pol.ttl.value
    else 0
  }

  function ArchivedAt(m: Memory): Instant {
    if m.archivedAt != 0 then m.archivedAt else m.updatedAt
  }

  // --- the transitions ------------------------------------------------------------------------------

  function Retired(m: Memory, now: Instant): Memory {
    m.(archived := true, archivedAt := now)
  }

  predicate Elapsed(pol: Policy, m: Memory, now: Instant) {
    EffectiveTtl(pol, m) > 0 && now >= m.createdAt + EffectiveTtl(pol, m)
  }

  predicate Promotes(pol: Policy, m: Memory) {
    pol.promoteAtRecalls.Some? && m.accessCount >= pol.promoteAtRecalls.value
  }

  function Expire(pol: Policy, s: Step, now: Instant): Step {
    if !Elapsed(pol, s.memory, now) then s
    else if Promotes(pol, s.memory) then Note(s.(memory := s.memory.(policy := pol.promoteTo, ttl := 0)), Promoted)
    else Note(s.(memory := Retired(s.memory, now)), Expired)
  }

  /** Days of decay a pass charges, for each of the two clocks. */
  function ImportanceDays(pol: Policy, m: Memory, now: Instant): nat {
    if pol.importanceDecay >= 1.0 then 0 else WholeDays(DecayClock(m), now)
  }

  function HealthDays(pol: Policy, m: Memory, now: Instant): nat {
    if pol.healthDecay <= 0.0 then 0 else WholeDays(HealthClock(m), now)
  }

  function DecayImportance(pol: Policy, s: Step, now: Instant): Step {
    var days := ImportanceDays(pol, s.memory, now);
    if days == 0 then s
    else
      var decayed := Weakened(s.memory.importance, pol.importanceDecay, days);
      Step(s.memory.(importance := Max(decayed, 0.0), lastDecayAt := now), s.out.(changed := true))
  }

  function DecayHealth(pol: Policy, s: Step, now: Instant): Step {
    var days := HealthDays(pol, s.memory, now);
    if days == 0 then s
    else
      var health := Worn(s.memory.health, pol.healthDecay, days);
      Step(s.memory.(health := Min(Max(health, 0.0), MAX_HEALTH), lastHealthCheckAt := now), s.out.(changed := true))
  }

  predicate RunDown(pol: Policy, m: Memory) {
    pol.archiveAtHealth.Some? && m.health <= pol.archiveAtHealth.value
  }

  function Archive(pol: Policy, s: Step, now: Instant): Step {
    if !RunDown(pol, s.memory) || s.memory.archived then s
    else Note(s.(memory := Retired(s.memory, now)), Archived)
  }

  function Cleanup(pol: Policy, s: Step, now: Instant): Step {
    if pol.cleanupAfter.None? || now - ArchivedAt(s.memory) < pol.cleanupAfter.value then s
    else Note(s.(out := s.out.(delete := true)), HardDeleted)
  }

  /** One pass: what a memory is owed at an instant. */
  function Pass(table: Table, m: Memory, now: Instant): Step {
    var pol, s := Resolve(table, m.policy), Step(m, NOTHING);
    if !Known(table, m.policy) then s
    else if m.archived then Cleanup(pol, s, now)
    else if Elapsed(pol, m, now) then Expire(pol, s, now)
    else if now < m.protectedUntil then s
    else Archive(pol, DecayHealth(pol, DecayImportance(pol, s, now), now), now)
  }

  predicate Acts(table: Table, m: Memory, now: Instant) {
    Pass(table, m, now).out.changed || Pass(table, m, now).out.delete
  }

  // --- the schedule -----------------------------------------------------------------------------------

  function Earlier(a: Instant, b: Instant): Instant {
    if a == 0 || b < a then b else a
  }

  function NotBefore(due: Instant, floor: Instant): Instant {
    if floor > due then floor else due
  }

  /** When a record next has something coming to it; the zero instant means never. */
  function EarliestTransition(pol: Policy, m: Memory): Instant
    requires pol.cleanupAfter.Some? ==> pol.cleanupAfter.value >= 0
  {
    if m.archived then
      if pol.cleanupAfter.None? then 0 else ArchivedAt(m) + pol.cleanupAfter.value
    else
      var ttl := EffectiveTtl(pol, m);
      var expiry := if ttl > 0 then Earlier(0, m.createdAt + ttl) else 0;
      var decay := if pol.importanceDecay < 1.0 then Earlier(expiry, NotBefore(DecayClock(m) + DAY, m.protectedUntil)) else expiry;
      if pol.healthDecay > 0.0 then Earlier(decay, NotBefore(HealthClock(m) + DAY, m.protectedUntil)) else decay
  }

  const MAX_ATTENTION_INTERVAL: nat := 30 * DAY

  function Latest(m: Memory): Instant {
    Later(Later(Later(Later(Later(Later(Later(m.createdAt, m.updatedAt), m.archivedAt), m.accessedAt),
      m.lastRecalledAt), m.lastDecayAt), m.lastHealthCheckAt), m.protectedUntil)
  }

  function NextAttention(table: Table, m: Memory): Instant
    requires IsTable(table)
  {
    var due, cap := EarliestTransition(Resolve(table, m.policy), m), Latest(m) + MAX_ATTENTION_INTERVAL;
    if due != 0 && due < cap then due else cap
  }

  predicate Due(table: Table, m: Memory, now: Instant)
    requires IsTable(table)
  {
    var due := EarliestTransition(Resolve(table, m.policy), m);
    due != 0 && due <= now
  }

  /** A memory whose health had already run out when the pass met it: the one thing a
      pass does that no arm of the schedule foretells. */
  predicate OnSight(table: Table, m: Memory, now: Instant) {
    && Known(table, m.policy) && !m.archived && now >= m.protectedUntil
    && RunDown(Resolve(table, m.policy), m)
  }

  lemma DaysAreDue(from: Instant, now: Instant)
    requires from > 0
    ensures WholeDays(from, now) > 0 <==> from + DAY <= now
  {
  }

  /** The pass acts exactly when the schedule says something is due, or on sight of a
      memory already run down. */
  lemma PassActsWhenDue(table: Table, m: Memory, now: Instant)
    requires IsTable(table) && m.createdAt > 0
    ensures Acts(table, m, now) <==> Due(table, m, now) || OnSight(table, m, now)
    ensures !Acts(table, m, now) ==> Pass(table, m, now) == Step(m, NOTHING)
  {
    var pol := Resolve(table, m.policy);
    DaysAreDue(DecayClock(m), now);
    DaysAreDue(HealthClock(m), now);
  }

  /** A pass that decides nothing leaves the memory as it found it. */
  lemma QuietPass(table: Table, m: Memory, now: Instant)
    requires !Acts(table, m, now)
    ensures Pass(table, m, now) == Step(m, NOTHING)
  {
  }

  /** So the schedule is exact where, and only where, no memory is archived on sight
      before anything is due. */
  lemma ScheduleIsExact(table: Table, m: Memory, now: Instant)
    requires IsTable(table) && m.createdAt > 0
    ensures (Acts(table, m, now) <==> Due(table, m, now)) <==> (OnSight(table, m, now) ==> Due(table, m, now))
    ensures m.archived || !RunDown(Resolve(table, m.policy), m) ==> (Acts(table, m, now) <==> Due(table, m, now))
  {
    PassActsWhenDue(table, m, now);
  }

  /** A pass would act before the memory is scheduled exactly when it would archive it on
      sight, with nothing due and the cap not yet come; so never for the archived, and
      never for a memory with health left. */
  lemma AttentionIsLateExactly(table: Table, m: Memory, now: Instant)
    requires IsTable(table) && m.createdAt > 0
    ensures Acts(table, m, now) && NextAttention(table, m) > now <==>
            OnSight(table, m, now) && !Due(table, m, now) && now < Latest(m) + MAX_ATTENTION_INTERVAL
    ensures m.archived || !RunDown(Resolve(table, m.policy), m) ==>
            (Acts(table, m, now) ==> NextAttention(table, m) <= now)
  {
    PassActsWhenDue(table, m, now);
  }

  /** Every memory comes up: by its due time if it has one, and within the cap anyway. */
  lemma AttentionAlwaysComes(table: Table, m: Memory)
    requires IsTable(table) && m.createdAt > 0
    ensures 0 < NextAttention(table, m) <= Latest(m) + 30 * 86_400_000_000_000
    ensures var due := EarliestTransition(Resolve(table, m.policy), m); due != 0 ==> NextAttention(table, m) <= due
  {
  }

  /** Without health left, the schedule can come the whole cap late: a memory of a policy
      that archives at zero and does not decay. */
  lemma RunDownIsNotScheduled() returns (table: Table, m: Memory, now: Instant)
    ensures IsTable(table) && m.createdAt > 0
    ensures Acts(table, m, now) && !Due(table, m, now) && NextAttention(table, m) == now + MAX_ATTENTION_INTERVAL
  {
    var kept := Policy(None, None, "", 1.0, 0.0, Some(0.0), None);
    table := BUILTINS["kept" := kept];
    m := Memory(1, 1, "kept", 0, false, 0, 0, 0, 0, 0, 0, 0, 1.0, 0.0);
    now := 1;
    assert Resolve(table, "kept") == kept;
  }

  // --- repeating a pass ---------------------------------------------------------------------------------

  /** A second pass at the same instant does nothing, unless the first promoted the
      memory or deleted it. */
  lemma RepeatedPassDoesNothing(table: Table, m: Memory, now: Instant)
    requires IsTable(table) && m.createdAt > 0
    requires var first := Pass(table, m, now).out; !first.delete && Promoted !in first.notes
    ensures var first := Pass(table, m, now).memory; Pass(table, first, now) == Step(first, NOTHING)
  {
    var pol := Resolve(table, m.policy);
    var first := Pass(table, m, now);
    if m.archived || !Known(table, m.policy) {
    } else if Elapsed(pol, m, now) {
      assert Promotes(pol, m) ==> first.out.notes == [Promoted];
    }
  }

  /** Both exceptions are real: a promoted memory can be owed something at once, and a
      deletion is asked for again. */
  lemma PromotionMayOweMore() returns (table: Table, m: Memory, now: Instant)
    ensures IsTable(table) && m.createdAt > 0 && Promoted in Pass(table, m, now).out.notes
    ensures Acts(table, Pass(table, m, now).memory, now)
  {
    table := BUILTINS;
    m := Memory(1, 1, SHORT_TERM, 5, false, 0, 3, 0, 0, 0, 0, 0, 1.0, 50.0);
    now := 1 + DAY;
    var first := Pass(table, m, now);
    assert first.out.notes == [Promoted];
    assert first.memory.policy == LONG_TERM;
  }

  // --- passes over time -----------------------------------------------------------------------------------

  /** One visit of a sweep: the table then in force, and the instant. */
  datatype Visit = Visit(table: Table, now: Instant)

  predicate InTime(visits: seq<Visit>) {
    && (forall i | 0 <= i < |visits| :: IsTable(visits[i].table))
    && (forall i, j | 0 <= i < j < |visits| :: visits[i].now <= visits[j].now)
  }

  /** The memory as the passes leave it. */
  function Passes(m: Memory, visits: seq<Visit>): Memory {
    if visits == [] then m
    else
      var n := |visits| - 1;
      Pass(visits[n].table, Passes(m, visits[..n]), visits[n].now).memory
  }

  /** A pass gets as far as the decays. */
  predicate Decays(v: Visit, m: Memory) {
    && Known(v.table, m.policy) && !m.archived && !Elapsed(Resolve(v.table, m.policy), m, v.now)
    && v.now >= m.protectedUntil
  }

  function ImportanceCharge(v: Visit, m: Memory): nat {
    if Decays(v, m) then ImportanceDays(Resolve(v.table, m.policy), m, v.now) else 0
  }

  function HealthCharge(v: Visit, m: Memory): nat {
    if Decays(v, m) then HealthDays(Resolve(v.table, m.policy), m, v.now) else 0
  }

  /** Days of importance decay charged over all the passes, and of health decay. */
  function ImportanceCharged(m: Memory, visits: seq<Visit>): nat {
    if visits == [] then 0
    else
      var n := |visits| - 1;
      ImportanceCharged(m, visits[..n]) + ImportanceCharge(visits[n], Passes(m, visits[..n]))
  }

  function HealthCharged(m: Memory, visits: seq<Visit>): nat {
    if visits == [] then 0
    else
      var n := |visits| - 1;
      HealthCharged(m, visits[..n]) + HealthCharge(visits[n], Passes(m, visits[..n]))
  }

  /** What the days charged say of the time between a clock's start and where the last
      charge left it: all of them passed, and they are more than half of it. */
  predicate Fair(charged: nat, start: Instant, clock: Instant) {
    && start + charged * DAY <= clock
    && (if charged == 0 then clock == start else clock - start < 2 * charged * DAY)
  }

  /** A pass charges a clock the whole days it has run and restarts it, or leaves it. */
  predicate Ticks(days: nat, before: Instant, after: Instant, now: Instant) {
    (days == 0 && after == before) || (days > 0 && after == now && before < now && days == (now - before) / DAY)
  }

  lemma PassTicks(v: Visit, m: Memory)
    requires m.createdAt > 0
    ensures var after := Pass(v.table, m, v.now).memory;
            && after.createdAt == m.createdAt
            && Ticks(ImportanceCharge(v, m), DecayClock(m), DecayClock(after), v.now)
            && Ticks(HealthCharge(v, m), HealthClock(m), HealthClock(after), v.now)
  {
  }

  lemma ChargeIsFair(charged: nat, start: Instant, clock: Instant, days: nat, after: Instant, now: Instant)
    requires Fair(charged, start, clock) && Ticks(days, clock, after, now)
    ensures Fair(charged + days, start, after)
  {
    if days > 0 {
      assert days * DAY <= now - clock < (days + 1) * DAY;
      assert (charged + days) * DAY == charged * DAY + days * DAY;
    }
  }

  /** Over any passes in time order, each clock is charged no more days than have gone
      by since it started, and more than half of those up to its last charge. */
  lemma {:induction false} DecayIsChargedFairly(m: Memory, visits: seq<Visit>)
    requires m.createdAt > 0
    ensures Passes(m, visits).createdAt == m.createdAt
    ensures Fair(ImportanceCharged(m, visits), DecayClock(m), DecayClock(Passes(m, visits)))
    ensures Fair(HealthCharged(m, visits), HealthClock(m), HealthClock(Passes(m, visits)))
    decreases |visits|
  {
    if visits != [] {
      var n := |visits| - 1;
      DecayIsChargedFairly(m, visits[..n]);
      var before, after := Passes(m, visits[..n]), Passes(m, visits);
      PassTicks(visits[n], before);
      ChargeIsFair(ImportanceCharged(m, visits[..n]), DecayClock(m), DecayClock(before),
                   ImportanceCharge(visits[n], before), DecayClock(after), visits[n].now);
      ChargeIsFair(HealthCharged(m, visits[..n]), HealthClock(m), HealthClock(before),
                   HealthCharge(visits[n], before), HealthClock(after), visits[n].now);
    }
  }

  /** A clock is only ever set to the instant of a pass. */
  lemma {:induction false} ClocksAreVisits(m: Memory, visits: seq<Visit>)
    requires m.createdAt > 0 && InTime(visits) && visits != []
    ensures var end, now := Passes(m, visits), visits[|visits| - 1].now;
            && DecayClock(end) <= Later(DecayClock(m), now) && HealthClock(end) <= Later(HealthClock(m), now)
    decreases |visits|
  {
    var n := |visits| - 1;
    var before := Passes(m, visits[..n]);
    DecayIsChargedFairly(m, visits[..n]);
    PassTicks(visits[n], before);
    if n > 0 {
      ClocksAreVisits(m, visits[..n]);
      assert visits[..n][n - 1] == visits[n - 1];
    }
  }

  /** So the days charged never exceed the whole days elapsed by the last pass. */
  lemma ChargesNeverExceedElapsedDays(m: Memory, visits: seq<Visit>)
    requires m.createdAt > 0 && InTime(visits) && visits != []
    ensures ImportanceCharged(m, visits) <= WholeDays(DecayClock(m), visits[|visits| - 1].now)
    ensures HealthCharged(m, visits) <= WholeDays(HealthClock(m), visits[|visits| - 1].now)
  {
    DecayIsChargedFairly(m, visits);
    ClocksAreVisits(m, visits);
    WithinWholeDays(ImportanceCharged(m, visits), DecayClock(m), DecayClock(Passes(m, visits)), visits[|visits| - 1].now);
    WithinWholeDays(HealthCharged(m, visits), HealthClock(m), HealthClock(Passes(m, visits)), visits[|visits| - 1].now);
  }

  lemma WithinWholeDays(charged: nat, start: Instant, clock: Instant, now: Instant)
    requires start > 0 && Fair(charged, start, clock) && clock <= Later(start, now)
    ensures charged <= WholeDays(start, now)
  {
    if charged > 0 {
      assert charged * DAY <= now - start;
    }
  }

  // --- what decay comes to -------------------------------------------------------------------------------

  lemma {:induction false} PowersAdd(base: real, a: nat, b: nat)
    ensures Power(base, a + b) == Power(base, a) * Power(base, b)
    decreases a
  {
    if a > 0 {
      PowersAdd(base, a - 1, b);
      Reassociate(base, Power(base, a - 1), Power(base, b));
    }
  }

  lemma Reassociate(a: real, b: real, c: real)
    ensures a * (b * c) == (a * b) * c
  {
  }

  lemma {:induction false} PowerIsPositive(base: real, n: nat)
    requires base > 0.0
    ensures Power(base, n) > 0.0
  {
    if n > 0 {
      PowerIsPositive(base, n - 1);
    }
  }

  /** Weakening by some days and then by more is weakening by all of them. */
  lemma WeakeningAdds(importance: real, decay: real, a: nat, b: nat)
    requires importance >= 0.0 && decay > 0.0
    ensures Weakened(Weakened(importance, decay, a), decay, b) == Weakened(importance, decay, a + b)
    ensures Weakened(importance, decay, a) >= 0.0 && Weakened(importance, decay, 0) == importance
  {
    PowersAdd(decay, a, b);
    Reassociate(importance, Power(decay, a), Power(decay, b));
    PowerIsPositive(decay, a);
    ScalesUp(importance, Power(decay, a));
  }

  lemma ScalesUp(a: real, b: real)
    requires a >= 0.0 && b >= 0.0
    ensures a * b >= 0.0
  {
  }

  /** Wearing down by some days and then by more, stopping at zero, likewise. */
  lemma WearingAdds(health: real, decay: real, a: nat, b: nat)
    requires 0.0 <= health && decay >= 0.0
    ensures Max(Worn(Max(Worn(health, decay, a), 0.0), decay, b), 0.0) == Max(Worn(health, decay, a + b), 0.0)
    ensures Worn(health, decay, a) <= health && Worn(health, decay, 0) == health
  {
    assert decay * (a + b) as real == decay * a as real + decay * b as real;
    ScalesUp(decay, a as real);
    ScalesUp(decay, b as real);
  }

  /** One pass over a memory that does not expire weakens it by the days it charges. */
  lemma PassDecays(v: Visit, m: Memory)
    requires IsTable(v.table) && EffectiveTtl(Resolve(v.table, m.policy), m) <= 0
    requires m.importance >= 0.0 && 0.0 <= m.health <= MAX_HEALTH
    ensures var pol, after := Resolve(v.table, m.policy), Pass(v.table, m, v.now).memory;
            && after.policy == m.policy && after.ttl == m.ttl
            && after.importance == Weakened(m.importance, pol.importanceDecay, ImportanceCharge(v, m))
            && after.health == Max(Worn(m.health, pol.healthDecay, HealthCharge(v, m)), 0.0)
  {
    var pol := Resolve(v.table, m.policy);
    WeakeningAdds(m.importance, pol.importanceDecay, ImportanceCharge(v, m), 0);
    WearingAdds(m.health, pol.healthDecay, HealthCharge(v, m), 0);
  }

  /** A memory that has decayed from another by so many days of each clock. */
  predicate Decayed(pol: Policy, m: Memory, now: Memory, days: nat, healthDays: nat) {
    && now.policy == m.policy && now.ttl == m.ttl
    && now.importance == Weakened(m.importance, pol.importanceDecay, days)
    && now.health == Max(Worn(m.health, pol.healthDecay, healthDays), 0.0)
  }

  lemma PassDecaysFurther(pol: Policy, m: Memory, before: Memory, days: nat, healthDays: nat, v: Visit)
    requires IsTable(v.table) && pol == Resolve(v.table, m.policy) && EffectiveTtl(pol, m) <= 0
    requires m.importance >= 0.0 && 0.0 <= m.health <= MAX_HEALTH && Decayed(pol, m, before, days, healthDays)
    ensures Decayed(pol, m, Pass(v.table, before, v.now).memory, days + ImportanceCharge(v, before), healthDays + HealthCharge(v, before))
  {
    WeakeningAdds(m.importance, pol.importanceDecay, days, ImportanceCharge(v, before));
    WearingAdds(m.health, pol.healthDecay, healthDays, HealthCharge(v, before));
    PassDecays(v, before);
  }

  /** How the passes are spaced does not matter beyond the days they charge: under one
      policy, importance is multiplied once per day charged and health loses its points
      once per day charged, down to zero. */
  lemma {:induction false} DecayIsByDaysCharged(table: Table, m: Memory, visits: seq<Visit>)
    requires IsTable(table) && forall i | 0 <= i < |visits| :: visits[i].table == table
    requires EffectiveTtl(Resolve(table, m.policy), m) <= 0
    requires m.importance >= 0.0 && 0.0 <= m.health <= MAX_HEALTH
    ensures Decayed(Resolve(table, m.policy), m, Passes(m, visits), ImportanceCharged(m, visits), HealthCharged(m, visits))
    decreases |visits|
  {
    var pol := Resolve(table, m.policy);
    if visits == [] {
      WeakeningAdds(m.importance, pol.importanceDecay, 0, 0);
      WearingAdds(m.health, pol.healthDecay, 0, 0);
    } else {
      var n := |visits| - 1;
      DecayIsByDaysCharged(table, m, visits[..n]);
      PassDecaysFurther(pol, m, Passes(m, visits[..n]), ImportanceCharged(m, visits[..n]), HealthCharged(m, visits[..n]), visits[n]);
    }
  }

  // --- deletion -----------------------------------------------------------------------------------------------

  /** A pass deletes only what was archived before it, and leaves what is archived alone. */
  lemma {:induction false} ArchivedIsLeftAlone(m: Memory, visits: seq<Visit>)
    requires m.archived
    ensures Passes(m, visits) == m
    decreases |visits|
  {
    if visits != [] {
      ArchivedIsLeftAlone(m, visits[..|visits| - 1]);
    }
  }

  /** Between the pass that archived a memory and a pass that deletes it lies at least
      the retention of the policy then in force, whatever passes come between. */
  lemma DeletionWaits(m: Memory, archiving: Visit, between: seq<Visit>, deleting: Visit)
    requires !m.archived && archiving.now > 0
    requires Pass(archiving.table, m, archiving.now).memory.archived
    requires Pass(deleting.table, Passes(Pass(archiving.table, m, archiving.now).memory, between), deleting.now).out.delete
    ensures var pol := Resolve(deleting.table, Pass(archiving.table, m, archiving.now).memory.policy);
            pol.cleanupAfter.Some? && deleting.now - archiving.now >= pol.cleanupAfter.value
  {
    ArchivedIsLeftAlone(Pass(archiving.table, m, archiving.now).memory, between);
  }

  /** Nothing deletes a memory that is not archived. */
  lemma OnlyTheArchivedAreDeleted(table: Table, m: Memory, now: Instant)
    requires Pass(table, m, now).out.delete
    ensures m.archived && HardDeleted in Pass(table, m, now).out.notes
  {
  }
}
