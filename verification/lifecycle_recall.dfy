/** Recalls: one event per window appended to a memory's stream, folded into the memory
    by the sweep, and trimmed once old. Nothing is counted twice or lost. */
module LifecycleRecall {
  import opened Prelude
  import opened LifecyclePolicy
  import opened LifecyclePass

  /** One entry of a memory's stream. Its key holds whole milliseconds; entries that
      share one stay in the order of appending. */
  datatype Event = Event(ms: nat, kind: Kind)

  type Stream = seq<Event>

  const DEFAULT_RECALL_WINDOW: nat := 30_000 * MILLISECOND
  const RECALL_HEALTH_BOOST: real := 10.0

  function Millis(t: Instant): nat {
    t / MILLISECOND
  }

  predicate Sorted(events: Stream) {
    forall i, j | 0 <= i < j < |events| :: events[i].ms <= events[j].ms
  }

  /** A recall newer than the watermark; an unset watermark is older than them all. */
  predicate Unfolded(e: Event, after: Instant) {
    e.kind.Recalled? && (after == 0 || e.ms > Millis(after))
  }

  function Count(events: Stream, after: Instant): nat {
    if events == [] then 0
    else
      var n := |events| - 1;
      Count(events[..n], after) + if Unfolded(events[n], after) then 1 else 0
  }

  /** The newest recall's millisecond. */
  function NewestRecall(events: Stream): Option<nat> {
    if events == [] then None
    else
      var n := |events| - 1;
      if events[n].kind.Recalled? then Some(events[n].ms) else NewestRecall(events[..n])
  }

  // --- reading the stream -----------------------------------------------------------------------

  lemma {:induction false} NewestRecallIsNewest(events: Stream)
    requires Sorted(events)
    ensures NewestRecall(events).None? <==> forall e | e in events :: !e.kind.Recalled?
    ensures NewestRecall(events).Some? ==>
              && Event(NewestRecall(events).value, Recalled) in events
              && forall e | e in events && e.kind.Recalled? :: e.ms <= NewestRecall(events).value
    decreases |events|
  {
    if events != [] {
      var n := |events| - 1;
      assert events == events[..n] + [events[n]];
      assert events[n] in events;
      if events[n].kind.Recalled? {
        assert events[n] == Event(events[n].ms, Recalled);
      } else {
        NewestRecallIsNewest(events[..n]);
        assert forall e | e in events[..n] :: e in events;
      }
    }
  }

  lemma {:induction false} CountIsZero(events: Stream, after: Instant)
    ensures Count(events, after) == 0 <==> forall e | e in events :: !Unfolded(e, after)
    decreases |events|
  {
    if events != [] {
      var n := |events| - 1;
      CountIsZero(events[..n], after);
      assert events == events[..n] + [events[n]];
    }
  }

  lemma CountOneMore(events: Stream, e: Event, after: Instant)
    ensures Count(events + [e], after) == Count(events, after) + if Unfolded(e, after) then 1 else 0
  {
    assert (events + [e])[..|events|] == events;
  }

  class Store {
    var events: Stream

    constructor ()
      ensures events == []
    {
      events := [];
    }

    /** Walks back from the newest row to the first recall. */
    method NewestRecallOf() returns (last: Option<nat>)
      ensures last == NewestRecall(events)
    {
      var i := |events|;
      assert events[..i] == events;
      while i > 0
        invariant 0 <= i <= |events| && NewestRecall(events) == NewestRecall(events[..i])
      {
        i := i - 1;
        assert events[..i + 1][..i] == events[..i];
        if events[i].kind.Recalled? {
          return Some(events[i].ms);
        }
      }
      last := None;
    }

    /** How many recalls lie past a watermark, and when the last of them was. */
    method RecallsSince(after: Instant) returns (n: nat, newest: Instant)
      requires Sorted(events)
      ensures n == Count(events, after)
      ensures n > 0 ==> NewestRecall(events) == Some(Millis(newest)) && newest == Millis(newest) * MILLISECOND
    {
      n, newest := 0, 0;
      var i := 0;
      while i < |events|
        invariant 0 <= i <= |events| && n == Count(events[..i], after)
        invariant n > 0 ==> NewestRecall(events[..i]) == Some(Millis(newest)) && newest == Millis(newest) * MILLISECOND
        invariant n > 0 ==> exists j | 0 <= j < i :: Unfolded(events[j], after)
      {
        assert events[..i + 1][..i] == events[..i];
        if Unfolded(events[i], after) {
          n, newest := n + 1, events[i].ms * MILLISECOND;
        }
        i := i + 1;
      }
      assert events[..i] == events;
    }

    /** Drops the oldest rows before a cutoff, up to a bound. */
    method Trim(cutoff: nat, max: nat) returns (removed: nat)
      requires Sorted(events)
      modifies this
      ensures removed <= max && removed <= |old(events)| && events == old(events)[removed..]
      ensures forall i | 0 <= i < removed :: old(events)[i].ms < cutoff
      ensures removed < max && removed < |old(events)| ==> old(events)[removed].ms >= cutoff
    {
      removed := 0;
      while removed < |events| && removed < max && events[removed].ms < cutoff
        invariant 0 <= removed <= |events| && removed <= max
        invariant forall i | 0 <= i < removed :: events[i].ms < cutoff
      {
        removed := removed + 1;
      }
      events := events[removed..];
    }
  }

  // --- recording, folding, visiting -------------------------------------------------------------

  /** Whether a recall at an instant is a new one rather than part of the last. */
  predicate IsNew(events: Stream, now: Instant, window: int) {
    var span := if window <= 0 then DEFAULT_RECALL_WINDOW else window;
    var last := NewestRecall(events);
    last.None? || now - last.value * MILLISECOND >= span
  }

  function Recorded(events: Stream, now: Instant, window: int): Stream {
    if IsNew(events, now, window) then events + [Event(Millis(now), Recalled)] else events
  }

  /** A memory brought up to date with its stream. */
  function Folded(m: Memory, events: Stream): Memory {
    var n := Count(events, m.lastRecalledAt);
    if n == 0 || NewestRecall(events).None? then m
    else
      var newest := NewestRecall(events).value * MILLISECOND;
      m.(accessCount := m.accessCount + n,
         accessedAt := Later(m.accessedAt, newest),
         lastRecalledAt := Later(m.lastRecalledAt, newest),
         health := Max(Min(m.health + RECALL_HEALTH_BOOST * n as real, MAX_HEALTH), 0.0))
  }

  const SWEEP_BATCH := 256

  function Dropped(events: Stream, cutoff: nat, max: nat): nat {
    if events == [] || max == 0 || events[0].ms >= cutoff then 0 else 1 + Dropped(events[1..], cutoff, max - 1)
  }

  lemma {:induction false} DroppedIs(events: Stream, cutoff: nat, max: nat, k: nat)
    requires k <= max && k <= |events| && forall i | 0 <= i < k :: events[i].ms < cutoff
    requires k < max && k < |events| ==> events[k].ms >= cutoff
    ensures Dropped(events, cutoff, max) == k
    decreases |events|
  {
    if k > 0 {
      DroppedIs(events[1..], cutoff, max - 1, k - 1);
    }
  }

  lemma {:induction false} DroppedBounds(events: Stream, cutoff: nat, max: nat)
    ensures Dropped(events, cutoff, max) <= |events|
    decreases |events|
  {
    if events != [] && max > 0 && events[0].ms < cutoff {
      DroppedBounds(events[1..], cutoff, max - 1);
    }
  }

  function Cutoff(now: Instant, retention: nat): nat {
    if now < retention then 0 else Millis(now - retention)
  }

  function Noted(events: Stream, ms: nat, notes: seq<Kind>): Stream {
    events + seq(|notes|, i requires 0 <= i < |notes| => Event(ms, notes[i]))
  }

  /** What a visit leaves: the memory unless it was deleted, and its stream. */
  datatype Visited = Visited(memory: Option<Memory>, events: Stream)

  function VisitMemory(table: Table, m: Memory, events: Stream, now: Instant, retention: nat): Visited {
    var folded := Folded(m, events);
    var pass := Pass(table, folded, now);
    if !pass.out.changed && !pass.out.delete && Count(events, m.lastRecalledAt) == 0 then Visited(Some(m), events)
    else if pass.out.delete then Visited(None, Noted([], Millis(now), pass.out.notes))
    else
      DroppedBounds(events, Cutoff(now, retention), SWEEP_BATCH);
      var kept := events[Dropped(events, Cutoff(now, retention), SWEEP_BATCH)..];
      Visited(Some(pass.memory), Noted(kept, Millis(now), pass.out.notes))
  }

  // --- every run ------------------------------------------------------------------------------------

  /** A memory and its stream; how many recalls were recorded, now and as of the last
      visit; and the latest instant seen. */
  datatype State = State(memory: Memory, events: Stream, clock: Instant, recorded: nat, visited: nat)

  datatype Move =
    | Recall(now: Instant, window: int)
    | Sweep(table: Table, now: Instant, retention: nat)

  /** The clock runs forward, from at least its first millisecond, and a window is unset
      or at least a millisecond long. */
  predicate Enabled(s: State, move: Move) {
    move.now >= s.clock && move.now >= MILLISECOND && (move.Recall? ==> move.window <= 0 || move.window >= MILLISECOND)
  }

  /** None once the memory has been deleted. */
  function Do(s: State, move: Move): Option<State> {
    match move
    case Recall(now, window) =>
      Some(s.(events := Recorded(s.events, now, window), clock := now,
              recorded := if IsNew(s.events, now, window) then s.recorded + 1 else s.recorded))
    case Sweep(table, now, retention) =>
      var v := VisitMemory(table, s.memory, s.events, now, retention);
      if v.memory.None? then None
      else Some(State(v.memory.value, v.events, now, s.recorded, s.recorded))
  }

  predicate Apart(events: Stream) {
    forall i, j | 0 <= i < j < |events| && events[i].kind.Recalled? && events[j].kind.Recalled? :: events[i].ms < events[j].ms
  }

  /** The watermark is a recall still in the stream, or of a millisecond gone by. */
  predicate Marked(m: Memory, events: Stream, clock: Instant) {
    && m.lastRecalledAt == Millis(m.lastRecalledAt) * MILLISECOND && m.lastRecalledAt <= clock
    && (m.lastRecalledAt == 0 || Event(Millis(m.lastRecalledAt), Recalled) in events || Millis(m.lastRecalledAt) < Millis(clock))
  }

  predicate StreamOk(events: Stream, clock: Instant) {
    Sorted(events) && Apart(events) && forall e | e in events :: 1 <= e.ms <= Millis(clock)
  }

  predicate Inv(s: State, base: nat) {
    && StreamOk(s.events, s.clock) && Marked(s.memory, s.events, s.clock)
    && s.memory.accessCount == base + s.visited
    && s.recorded == s.visited + Count(s.events, s.memory.lastRecalledAt)
  }

  /** A recall outside the window falls in a later millisecond than every other, and than
      the watermark. */
  lemma NewRecallIsLater(m: Memory, events: Stream, clock: Instant, now: Instant, window: int)
    requires StreamOk(events, clock) && Marked(m, events, clock) && clock <= now
    requires window <= 0 || window >= MILLISECOND
    requires IsNew(events, now, window)
    ensures forall e | e in events && e.kind.Recalled? :: e.ms < Millis(now)
    ensures Unfolded(Event(Millis(now), Recalled), m.lastRecalledAt)
  {
    NewestRecallIsNewest(events);
    MillisGrow(clock, now);
    var last := NewestRecall(events);
    if last.Some? {
      AfterTheWindow(last.value, now);
    }
  }

  lemma AfterTheWindow(ms: nat, now: Instant)
    requires now - ms * MILLISECOND >= MILLISECOND
    ensures ms < Millis(now)
  {
  }

  lemma AppendingKeeps(events: Stream, clock: Instant, now: Instant, kind: Kind)
    requires StreamOk(events, clock) && clock <= now && MILLISECOND <= now
    requires kind.Recalled? ==> forall e | e in events && e.kind.Recalled? :: e.ms < Millis(now)
    ensures StreamOk(events + [Event(Millis(now), kind)], now)
  {
    MillisGrow(clock, now);
    MillisGrow(MILLISECOND, now);
    forall i | 0 <= i < |events|
      ensures events[i] in events
    {
    }
  }

  lemma RecallKeeps(s: State, move: Move, base: nat)
    requires Inv(s, base) && Enabled(s, move) && move.Recall?
    ensures Inv(Do(s, move).value, base)
  {
    MillisGrow(s.clock, move.now);
    if IsNew(s.events, move.now, move.window) {
      NewRecallIsLater(s.memory, s.events, s.clock, move.now, move.window);
      AppendingKeeps(s.events, s.clock, move.now, Recalled);
      CountOneMore(s.events, Event(Millis(move.now), Recalled), s.memory.lastRecalledAt);
    }
  }

  lemma MillisGrow(a: Instant, b: Instant)
    requires a <= b
    ensures Millis(a) <= Millis(b)
  {
  }

  /** Folding leaves nothing to fold, and counts exactly what there was. */
  lemma FoldingIsComplete(m: Memory, events: Stream, clock: Instant)
    requires StreamOk(events, clock) && Marked(m, events, clock)
    ensures var f := Folded(m, events);
            && f.accessCount == m.accessCount + Count(events, m.lastRecalledAt)
            && Count(events, f.lastRecalledAt) == 0 && Marked(f, events, clock)
            && m.accessedAt <= f.accessedAt && m.lastRecalledAt <= f.lastRecalledAt <= Later(f.accessedAt, m.lastRecalledAt)
            && (Count(events, m.lastRecalledAt) > 0 ==> NewestRecall(events) == Some(Millis(f.lastRecalledAt)))
            && (0.0 <= m.health <= MAX_HEALTH ==> m.health <= f.health <= MAX_HEALTH)
  {
    var f := Folded(m, events);
    NewestRecallIsNewest(events);
    CountIsZero(events, m.lastRecalledAt);
    CountIsZero(events, f.lastRecalledAt);
    if Count(events, m.lastRecalledAt) > 0 {
      var newest := NewestRecall(events).value;
      assert Event(newest, Recalled) in events;
      assert Millis(newest * MILLISECOND) == newest;
      assert newest >= 1;
      ScaleBack(newest, clock);
    }
  }

  lemma ScaleBack(ms: nat, clock: Instant)
    requires ms <= Millis(clock)
    ensures ms * MILLISECOND <= clock
  {
  }

  /** A pass leaves the counters to the fold. */
  lemma PassLeavesCounters(table: Table, m: Memory, now: Instant)
    ensures Pass(table, m, now).memory.accessCount == m.accessCount
    ensures Pass(table, m, now).memory.lastRecalledAt == m.lastRecalledAt
    ensures forall k | k in Pass(table, m, now).out.notes :: !k.Recalled?
  {
  }

  lemma {:induction false} NotingKeeps(events: Stream, now: Instant, notes: seq<Kind>, after: Instant)
    requires StreamOk(events, now) && MILLISECOND <= now
    requires forall k | k in notes :: !k.Recalled?
    ensures StreamOk(Noted(events, Millis(now), notes), now)
    ensures Count(Noted(events, Millis(now), notes), after) == Count(events, after)
    decreases |notes|
  {
    if notes == [] {
      assert Noted(events, Millis(now), notes) == events;
    } else {
      var n := |notes| - 1;
      assert notes[n] in notes;
      NotingKeeps(events, now, notes[..n], after);
      NotedOneMore(events, Millis(now), notes);
      AppendingKeeps(Noted(events, Millis(now), notes[..n]), now, now, notes[n]);
      CountOneMore(Noted(events, Millis(now), notes[..n]), Event(Millis(now), notes[n]), after);
    }
  }

  lemma NotedOneMore(events: Stream, ms: nat, notes: seq<Kind>)
    requires notes != []
    ensures var n := |notes| - 1; Noted(events, ms, notes) == Noted(events, ms, notes[..n]) + [Event(ms, notes[n])]
  {
  }

  lemma DroppingKeeps(events: Stream, clock: Instant, k: nat, after: Instant)
    requires StreamOk(events, clock) && k <= |events| && Count(events, after) == 0
    ensures StreamOk(events[k..], clock) && Count(events[k..], after) == 0
  {
    CountIsZero(events, after);
    CountIsZero(events[k..], after);
    forall e | e in events[k..]
      ensures e in events
    {
    }
  }

  /** Trimming old rows and noting transitions loses no unfolded recall. */
  lemma TrimmingKeeps(m: Memory, events: Stream, clock: Instant, now: Instant, retention: nat, notes: seq<Kind>)
    requires StreamOk(events, clock) && Marked(m, events, clock) && clock <= now && MILLISECOND <= now
    requires Count(events, m.lastRecalledAt) == 0 && forall k | k in notes :: !k.Recalled?
    ensures Dropped(events, Cutoff(now, retention), SWEEP_BATCH) <= |events|
    ensures var after := Noted(events[Dropped(events, Cutoff(now, retention), SWEEP_BATCH)..], Millis(now), notes);
            StreamOk(after, now) && Marked(m, after, now) && Count(after, m.lastRecalledAt) == 0
  {
    var cutoff := Cutoff(now, retention);
    DroppedAreOld(events, cutoff, SWEEP_BATCH);
    var k := Dropped(events, cutoff, SWEEP_BATCH);
    DroppingKeeps(events, clock, k, m.lastRecalledAt);
    MillisGrow(clock, now);
    NotingKeeps(events[k..], now, notes, m.lastRecalledAt);
    if retention <= now {
      MillisGrow(now - retention, now);
    }
    MarkSurvives(m, events, k, Noted(events[k..], Millis(now), notes), clock, now, cutoff);
  }

  lemma {:induction false} DroppedAreOld(events: Stream, cutoff: nat, max: nat)
    ensures Dropped(events, cutoff, max) <= |events|
    ensures Dropped(events, cutoff, max) <= max && forall i | 0 <= i < Dropped(events, cutoff, max) :: events[i].ms < cutoff
    ensures var k := Dropped(events, cutoff, max); k < max && k < |events| ==> events[k].ms >= cutoff
    decreases |events|
  {
    if events != [] && max > 0 && events[0].ms < cutoff {
      DroppedAreOld(events[1..], cutoff, max - 1);
      assert forall i | 1 <= i < Dropped(events, cutoff, max) :: events[i] == events[1..][i - 1];
    }
  }

  lemma MarkSurvives(m: Memory, events: Stream, k: nat, after: Stream, clock: Instant, now: Instant, cutoff: nat)
    requires Marked(m, events, clock) && clock <= now && k <= |events| && events[k..] <= after
    requires cutoff <= Millis(now) && forall i | 0 <= i < k :: events[i].ms < cutoff
    ensures Marked(m, after, now)
  {
    MillisGrow(clock, now);
    var at := Event(Millis(m.lastRecalledAt), Recalled);
    if at in events {
      var i :| 0 <= i < |events| && events[i] == at;
      if i >= k {
        assert after[i - k] == events[k..][i - k] == at;
      }
    }
  }

  lemma SweepKeeps(s: State, move: Move, base: nat)
    requires Inv(s, base) && Enabled(s, move) && move.Sweep?
    ensures Do(s, move).Some? ==> Inv(Do(s, move).value, base)
  {
    var f := Folded(s.memory, s.events);
    var pass := Pass(move.table, f, move.now);
    FoldingIsComplete(s.memory, s.events, s.clock);
    PassLeavesCounters(move.table, f, move.now);
    MillisGrow(s.clock, move.now);
    TrimmingKeeps(f, s.events, s.clock, move.now, move.retention, pass.out.notes);
  }

  predicate IsRun(s: State, moves: seq<Move>)
    decreases |moves|
  {
    moves == [] || (Enabled(s, moves[0]) && (Do(s, moves[0]).Some? ==> IsRun(Do(s, moves[0]).value, moves[1..])))
  }

  function After(s: State, moves: seq<Move>): Option<State>
    requires IsRun(s, moves)
    decreases |moves|
  {
    if moves == [] then Some(s)
    else if Do(s, moves[0]).None? then None
    else After(Do(s, moves[0]).value, moves[1..])
  }

  /** Over any mix of recalls and sweeps, a memory's access count is what it started with
      plus the recalls recorded before its last visit; the rest are still in its stream. */
  lemma {:induction false} EveryRecallIsCountedOnce(s: State, moves: seq<Move>, base: nat)
    requires Inv(s, base) && IsRun(s, moves)
    ensures After(s, moves).Some? ==>
              var end := After(s, moves).value;
              && Inv(end, base) && end.memory.accessCount == base + end.visited
              && end.recorded == end.visited + Count(end.events, end.memory.lastRecalledAt)
    decreases |moves|
  {
    if moves != [] {
      if moves[0].Recall? {
        RecallKeeps(s, moves[0], base);
      } else {
        SweepKeeps(s, moves[0], base);
      }
      if Do(s, moves[0]).Some? {
        EveryRecallIsCountedOnce(Do(s, moves[0]).value, moves[1..], base);
      }
    }
  }

  /** A pinned memory is owed nothing. */
  lemma PinnedIsQuiet(m: Memory, now: Instant)
    requires m.policy == PINNED && !m.archived && m.ttl == 0
    ensures Pass(BUILTINS, m, now) == Step(m, NOTHING)
  {
    assert Resolve(BUILTINS, PINNED) == Policy(None, None, "", 1.0, 0.0, None, None);
  }

  const FIRST_RECALL := Event(1, Recalled)

  /** A pinned memory's first recall, at the first millisecond, is folded. */
  lemma FirstRecallIsFolded(m: Memory)
    requires m.policy == PINNED && !m.archived && m.ttl == 0 && m.lastRecalledAt == 0
    ensures var v := VisitMemory(BUILTINS, m, [FIRST_RECALL], MILLISECOND, MILLISECOND);
            && v.memory.Some? && v.events == [FIRST_RECALL]
            && v.memory.value.lastRecalledAt == MILLISECOND && v.memory.value.accessCount == m.accessCount + 1
            && v.memory.value.policy == PINNED && !v.memory.value.archived && v.memory.value.ttl == 0
  {
    var one: Stream := [FIRST_RECALL];
    assert one[..0] == [];
    assert Count(one, 0) == 1 && NewestRecall(one) == Some(1);
    PinnedIsQuiet(Folded(m, one), MILLISECOND);
    assert Cutoff(MILLISECOND, MILLISECOND) == 0;
    assert Noted(one[0..], 1, []) == one;
  }

  /** A second recall in the watermark's own millisecond never is. */
  lemma SecondRecallIsLost(m: Memory, now: Instant)
    requires m.policy == PINNED && !m.archived && m.ttl == 0 && m.lastRecalledAt == MILLISECOND
    ensures VisitMemory(BUILTINS, m, [FIRST_RECALL, FIRST_RECALL], now, MILLISECOND).memory == Some(m)
  {
    CountIsZero([FIRST_RECALL, FIRST_RECALL], MILLISECOND);
    PinnedIsQuiet(m, now);
  }

  /** The millisecond is needed: for every shorter window there is a run that records two
      recalls and counts one. */
  lemma ShorterWindowsLoseRecalls(window: nat, m: Memory)
    requires 0 < window < MILLISECOND
    requires m.policy == PINNED && !m.archived && m.ttl == 0 && m.lastRecalledAt == 0
    ensures var t := MILLISECOND;
            var first := VisitMemory(BUILTINS, m, Recorded([], t, window), t, t);
            && first.memory.Some?
            && var two := Recorded(first.events, t + window, window);
               var second := VisitMemory(BUILTINS, first.memory.value, two, t + window, t);
               |two| == 2 && second.memory.Some? && second.memory.value.accessCount == m.accessCount + 1
  {
    var one: Stream := [FIRST_RECALL];
    assert Recorded([], MILLISECOND, window) == one;
    FirstRecallIsFolded(m);
    assert one[..0] == [] && NewestRecall(one) == Some(1);
    assert Millis(MILLISECOND + window) == 1;
    assert Recorded(one, MILLISECOND + window, window) == [FIRST_RECALL, FIRST_RECALL];
    SecondRecallIsLost(VisitMemory(BUILTINS, m, one, MILLISECOND, MILLISECOND).memory.value, MILLISECOND + window);
  }
}
