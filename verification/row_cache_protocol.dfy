/** The row cache under snapshot isolation, as interleaved micro-steps.

    Writers enter the gate, place their mark, may become visible, move the tenant's
    generation, take their own mark back and leave the gate. Readers take the
    generation, then a snapshot, and then look rows up or offer them to the cache,
    one shared-memory access at a time while they hold the shard's mutex. The clear
    that turning the cache off performs empties one shard per step, so readers of
    the other shards run in between. */
module RowCacheProtocol {
  import opened Prelude
  import opened AttrValue
  import opened RowCacheShard
  import opened RowCacheGate

  const SHARDS := 16

  type View = map<RowKey, Row>
  type Gens = map<Tenant, nat>

  /** `Clearing`: entered the gate, tripped it, and is emptying the shards.
      `ToMark`: entered, told to record a mark. `Staged`: beginWrite has returned,
      the batch may be applied. `Bumped`: the generation has moved. `Unmarked`: the
      mark is off, the gate has not been told. */
  datatype Phase = Clearing | ToMark | Staged | Bumped | Unmarked

  datatype Writer = Writer(key: RowKey, phase: Phase)

  type Writers = map<nat, Writer>

  datatype Purpose = Lookup | Offer

  /** How far a reader holding a shard's mutex has read. */
  datatype Point = Locked | SawOn | SawUnmarked | SawGen

  datatype Call = Idle | Busy(key: RowKey, purpose: Purpose, at: Point)

  datatype Reader = Reader(tenant: Tenant, gen: nat, snap: Option<View>, call: Call)

  type Readers = map<nat, Reader>

  datatype Clear = Clear(writer: nat, next: nat)

  /** The sixteen shards, and which one a row belongs to. */
  datatype Shards = Shards(of: RowKey -> nat, at: seq<Shard>) {
    ghost predicate Ok() {
      |at| == SHARDS && forall k :: 0 <= of(k) < SHARDS
    }

    function For(k: RowKey): Shard
      requires Ok()
    {
      at[of(k)]
    }

    function With(k: RowKey, sh: Shard): (r: Shards)
      requires Ok()
      ensures r.Ok()
    {
      Shards(of, at[of(k) := sh])
    }

    function Emptied(i: nat): (r: Shards)
      requires Ok() && i < SHARDS
      ensures r.Ok()
    {
      Shards(of, at[i := EmptyShard(at[i].capacity)])
    }
  }

  /** `holder[i]` is the reader inside shard i's mutex; `clear` is set while the
      gate's mutex is held by a clear. Writers are named by their sequence number. */
  datatype State = State(
    store: View,
    gens: Gens,
    shards: Shards,
    holder: map<nat, nat>,
    gate: Gate,
    clear: Option<Clear>,
    nextSeq: nat,
    writers: Writers,
    readers: Readers)

  datatype Step =
    | BeginWrite(key: RowKey)
    | ClearShard
    | ClearDone
    | Mark(w: nat)
    | Apply(ws: set<nat>, rows: map<RowKey, Option<Row>>)
    | Bump(w: nat)
    | Unmark(w: nat)
    | LeaveGate(w: nat)
    | Open(r: nat, tenant: Tenant)
    | TakeSnapshot(r: nat)
    | Acquire(r: nat, key: RowKey, purpose: Purpose)
    | CheckOff(r: nat)
    | CheckMarks(r: nat)
    | CheckGen(r: nat)
    | Finish(r: nat)

  // --- state readers -----------------------------------------------------------

  function Gen(gens: Gens, t: Tenant): nat {
    if t in gens then gens[t] else 0
  }

  predicate WriterAt(ws: Writers, w: nat, p: Phase) {
    w in ws && ws[w].phase == p
  }

  predicate ReaderAt(rs: Readers, r: nat, p: Point) {
    r in rs && rs[r].call.Busy? && rs[r].call.at == p
  }

  function Phased(ws: Writers, w: nat, p: Phase): Writers
    requires w in ws
  {
    ws[w := ws[w].(phase := p)]
  }

  /** One reader's call, and the mutexes held, move on. */
  function Moved(s: State, r: nat, holder: map<nat, nat>, call: Call): State
    requires r in s.readers
  {
    s.(holder := holder, readers := s.readers[r := s.readers[r].(call := call)])
  }

  function Release(s: State, r: nat): State
    requires r in s.readers && s.readers[r].call.Busy?
  {
    Moved(s, r, s.holder - {s.shards.of(s.readers[r].call.key)}, Idle)
  }

  function At(s: State, r: nat, p: Point): State
    requires r in s.readers && s.readers[r].call.Busy?
  {
    Moved(s, r, s.holder, s.readers[r].call.(at := p))
  }

  // --- the step relation ---------------------------------------------------------

  ghost predicate Enabled(s: State, step: Step) {
    s.shards.Ok() &&
    match step
    case BeginWrite(_) => s.clear.None?
    case ClearShard => s.clear.Some? && s.clear.value.next < SHARDS && s.clear.value.next !in s.holder
    case ClearDone =>
      s.clear.Some? && s.clear.value.next == SHARDS && WriterAt(s.writers, s.clear.value.writer, Clearing)
    case Mark(w) => WriterAt(s.writers, w, ToMark) && s.shards.of(s.writers[w].key) !in s.holder
    case Apply(ws, rows) =>
      && (forall w :: w in ws ==> WriterAt(s.writers, w, Staged))
      && (forall k :: k in rows ==> exists w :: w in ws && s.writers[w].key == k)
    case Bump(w) => WriterAt(s.writers, w, Staged)
    case Unmark(w) => WriterAt(s.writers, w, Bumped) && s.shards.of(s.writers[w].key) !in s.holder
    case LeaveGate(w) => WriterAt(s.writers, w, Unmarked) && s.clear.None?
    case Open(r, _) => r !in s.readers
    case TakeSnapshot(r) => r in s.readers && s.readers[r].snap.None?
    case Acquire(r, k, purpose) =>
      && r in s.readers && s.readers[r].call.Idle? && s.readers[r].snap.Some?
      && k.tenant == s.readers[r].tenant && s.shards.of(k) !in s.holder
      && (purpose.Offer? ==> k in s.readers[r].snap.value)
    case CheckOff(r) => ReaderAt(s.readers, r, Locked)
    case CheckMarks(r) => ReaderAt(s.readers, r, SawOn)
    case CheckGen(r) => ReaderAt(s.readers, r, SawUnmarked)
    case Finish(r) => CanFinish(s, r)
  }

  ghost predicate CanFinish(s: State, r: nat) {
    && ReaderAt(s.readers, r, SawGen) && s.readers[r].snap.Some?
    && (s.readers[r].call.purpose.Offer? ==> s.readers[r].call.key in s.readers[r].snap.value)
  }

  /** The rows a batch makes visible together. */
  function Written(store: View, rows: map<RowKey, Option<Row>>): View {
    map k | k in store.Keys + rows.Keys && (k in rows ==> rows[k].Some?) ::
      if k in rows then rows[k].value else store[k]
  }

  /** The row a step serves from the cache, if it serves one. */
  function Served(s: State, step: Step): Option<Row>
    requires s.shards.Ok()
  {
    if step.Finish? && ReaderAt(s.readers, step.r, SawGen) && s.readers[step.r].call.purpose.Lookup? then
      var rd := s.readers[step.r];
      var entries := s.shards.For(rd.call.key).entries;
      if rd.call.key in entries && entries[rd.call.key].gen == rd.gen
      then Some(entries[rd.call.key].row) else None
    else None
  }

  ghost function Do(s: State, step: Step): State
    requires Enabled(s, step)
  {
    match step
    case BeginWrite(k) => DoBegin(s, k)
    case ClearShard =>
      var i := s.clear.value.next;
      s.(shards := s.shards.Emptied(i), clear := Some(s.clear.value.(next := i + 1)))
    case ClearDone => s.(clear := None, writers := Phased(s.writers, s.clear.value.writer, Staged))
    case Mark(w) =>
      var k := s.writers[w].key;
      s.(shards := s.shards.With(k, MarkRow(s.shards.For(k), k, w)), writers := Phased(s.writers, w, Staged))
    case Apply(_, rows) => s.(store := Written(s.store, rows))
    case Bump(w) =>
      var t := s.writers[w].key.tenant;
      s.(gens := s.gens[t := Gen(s.gens, t) + 1], writers := Phased(s.writers, w, Bumped))
    case Unmark(w) =>
      var k := s.writers[w].key;
      s.(shards := s.shards.With(k, FinishRow(s.shards.For(k), k, w)), writers := Phased(s.writers, w, Unmarked))
    case LeaveGate(w) => DoLeave(s, w)
    case Open(r, t) => s.(readers := s.readers[r := Reader(t, Gen(s.gens, t), None, Idle)])
    case TakeSnapshot(r) => s.(readers := s.readers[r := s.readers[r].(snap := Some(s.store))])
    case Acquire(r, k, purpose) =>
      Moved(s, r, s.holder[s.shards.of(k) := r], Busy(k, purpose, Locked))
    case CheckOff(r) => if s.gate.disabled then Release(s, r) else At(s, r, SawOn)
    case CheckMarks(r) =>
      var k := s.readers[r].call.key;
      if Marks(s.shards.For(k), k) != [] then Release(s, r) else At(s, r, SawUnmarked)
    case CheckGen(r) =>
      var rd := s.readers[r];
      if Gen(s.gens, rd.tenant) != rd.gen then Release(s, r) else At(s, r, SawGen)
    case Finish(r) => DoFinish(s, r)
  }

  function DoBegin(s: State, k: RowKey): State {
    var e := Enter(s.gate);
    var w := s.nextSeq;
    var phase := if e.record then ToMark else if e.tripped then Clearing else Staged;
    s.(gate := e.gate, nextSeq := w + 1, writers := s.writers[w := Writer(k, phase)],
       clear := if e.tripped then Some(Clear(w, 0)) else s.clear)
  }

  /** The last step of a write. The underflow branch empties the shards as well; it
      is not reachable while every write is given back once. */
  function DoLeave(s: State, w: nat): State {
    var l := Leave(s.gate);
    var left := s.(gate := l.gate, writers := s.writers - {w});
    if l.event.Underflowed? then
      var at := s.shards.at;
      left.(shards := Shards(s.shards.of, seq(|at|, i requires 0 <= i < |at| => EmptyShard(at[i].capacity))))
    else left
  }

  function DoFinish(s: State, r: nat): State
    requires s.shards.Ok() && CanFinish(s, r)
  {
    Release(s.(shards := Used(s.shards, s.readers[r])), r)
  }

  /** What a lookup or an offer that passed every check does to its shard. */
  function Used(shards: Shards, rd: Reader): (r: Shards)
    requires shards.Ok() && rd.call.Busy? && rd.snap.Some?
    requires rd.call.purpose.Offer? ==> rd.call.key in rd.snap.value
    ensures r.Ok()
  {
    var k := rd.call.key;
    var sh := shards.For(k);
    if rd.call.purpose.Offer? then shards.With(k, StoreRow(sh, k, Entry(rd.gen, rd.snap.value[k])))
    else if k in sh.entries && sh.entries[k].gen == rd.gen then shards.With(k, Touch(sh, k))
    else shards
  }

  ghost predicate Init(s: State) {
    && s.shards.Ok()
    && (forall i :: 0 <= i < SHARDS ==> s.shards.at[i].entries == map[] && s.shards.at[i].staged == map[])
    && s.gens == map[] && s.holder == map[] && s.gate == OPEN_GATE && s.clear.None?
    && s.writers == map[] && s.readers == map[]
  }

  // --- the invariant ---------------------------------------------------------------

  /** Shard i still holds what it held when the cache was last on. */
  predicate Live(gate: Gate, clear: Option<Clear>, i: nat) {
    !gate.disabled || (clear.Some? && clear.value.next <= i)
  }

  /** Some write to `k` may have become visible and has not moved the generation. */
  ghost predicate InWindow(ws: Writers, k: RowKey) {
    exists w :: w in ws && ws[w].phase.Staged? && ws[w].key == k
  }

  predicate Agree(a: View, b: View, k: RowKey) {
    if k in a then k in b && a[k] == b[k] else k !in b
  }

  ghost predicate MutexesHeld(of: RowKey -> nat, holder: map<nat, nat>, rs: Readers) {
    && (forall i :: i in holder ==>
          && holder[i] in rs
          && rs[holder[i]].call.Busy?
          && of(rs[holder[i]].call.key) == i)
    && (forall r :: r in rs && rs[r].call.Busy? ==>
          && of(rs[r].call.key) in holder
          && holder[of(rs[r].call.key)] == r)
  }

  /** The gate counts exactly the writes in flight. */
  ghost predicate GateCounts(gate: Gate, clear: Option<Clear>, nextSeq: nat, ws: Writers) {
    && !gate.latched
    && gate.outstanding == |ws|
    && (forall w :: w in ws ==> w < nextSeq)
    && (clear.Some? ==> gate.disabled && clear.value.next <= SHARDS && WriterAt(ws, clear.value.writer, Clearing))
    && (forall w :: w in ws && ws[w].phase.Clearing? ==> clear.Some? && clear.value.writer == w)
  }

  ghost predicate InOwnShard(shards: Shards)
    requires shards.Ok()
  {
    forall i, k :: 0 <= i < SHARDS && k in shards.at[i].entries ==> shards.of(k) == i
  }

  ghost predicate ClearedIsEmpty(shards: Shards, gate: Gate, clear: Option<Clear>)
    requires shards.Ok()
  {
    forall i :: 0 <= i < SHARDS && !Live(gate, clear, i) ==> shards.at[i].entries == map[]
  }

  /** A write past beginWrite and not yet unmarked has its own mark in its shard. */
  ghost predicate WritesAreMarked(shards: Shards, gate: Gate, clear: Option<Clear>, ws: Writers)
    requires shards.Ok()
  {
    forall w :: w in ws && (ws[w].phase.Staged? || ws[w].phase.Bumped?) && Live(gate, clear, shards.of(ws[w].key)) ==>
      w in Marks(shards.at[shards.of(ws[w].key)], ws[w].key)
  }

  ghost predicate MarkedRowsHaveNoEntry(shards: Shards)
    requires shards.Ok()
  {
    forall i, k :: 0 <= i < SHARDS && k in shards.at[i].entries ==> Marks(shards.at[i], k) == []
  }

  /** An entry of the current generation is the row the store holds. */
  ghost predicate EntriesAreCurrent(shards: Shards, gens: Gens, store: View)
    requires shards.Ok()
  {
    forall i, k :: 0 <= i < SHARDS && k in shards.at[i].entries ==>
      EntryIsCurrent(shards.at[i].entries[k], k, gens, store)
  }

  predicate EntryIsCurrent(e: Entry, k: RowKey, gens: Gens, store: View) {
    && e.gen <= Gen(gens, k.tenant)
    && (e.gen == Gen(gens, k.tenant) ==> k in store && store[k] == e.row)
  }

  /** A reader of the current generation differs from the store only inside a
      write's window. */
  ghost predicate SnapshotsAreCurrent(rs: Readers, gens: Gens, store: View, ws: Writers) {
    forall r :: r in rs ==>
      && rs[r].gen <= Gen(gens, rs[r].tenant)
      && (rs[r].snap.Some? && rs[r].gen == Gen(gens, rs[r].tenant) ==>
            AgreeOutsideWindows(rs[r].tenant, rs[r].snap.value, store, ws))
  }

  ghost predicate AgreeOutsideWindows(t: Tenant, snap: View, store: View, ws: Writers) {
    forall k: RowKey :: k.tenant == t && !InWindow(ws, k) ==> Agree(snap, store, k)
  }

  predicate Passed(at: Point, p: Point) {
    match p
    case Locked => true
    case SawOn => !at.Locked?
    case SawUnmarked => at.SawUnmarked? || at.SawGen?
    case SawGen => at.SawGen?
  }

  /** What a reader inside a shard's mutex has seen stays true until it lets go. */
  ghost predicate CallsAreSound(rs: Readers, shards: Shards, gate: Gate, clear: Option<Clear>)
    requires shards.Ok()
  {
    forall r :: r in rs && rs[r].call.Busy? ==>
      CallIsSound(rs[r], shards.at[shards.of(rs[r].call.key)], Live(gate, clear, shards.of(rs[r].call.key)))
  }

  predicate CallIsSound(rd: Reader, sh: Shard, live: bool)
    requires rd.call.Busy?
  {
    var k := rd.call.key;
    && rd.snap.Some? && k.tenant == rd.tenant
    && (rd.call.purpose.Offer? ==> k in rd.snap.value)
    && (Passed(rd.call.at, SawOn) ==> live)
    && (Passed(rd.call.at, SawUnmarked) ==> Marks(sh, k) == [])
    && (Passed(rd.call.at, SawGen) && k in sh.entries && sh.entries[k].gen == rd.gen ==>
          k in rd.snap.value && sh.entries[k].row == rd.snap.value[k])
  }

  ghost predicate Inv(s: State) {
    && s.shards.Ok()
    && MutexesHeld(s.shards.of, s.holder, s.readers)
    && GateCounts(s.gate, s.clear, s.nextSeq, s.writers)
    && InOwnShard(s.shards)
    && ClearedIsEmpty(s.shards, s.gate, s.clear)
    && WritesAreMarked(s.shards, s.gate, s.clear, s.writers)
    && MarkedRowsHaveNoEntry(s.shards)
    && EntriesAreCurrent(s.shards, s.gens, s.store)
    && SnapshotsAreCurrent(s.readers, s.gens, s.store, s.writers)
    && CallsAreSound(s.readers, s.shards, s.gate, s.clear)
  }

  // --- how one shard's change reaches the invariant ---------------------------------------

  /** `b` holds no entry `a` does not hold, and the marks of the rows it kept. */
  predicate Shrinks(a: Shard, b: Shard) {
    forall k :: k in b.entries ==> k in a.entries && b.entries[k] == a.entries[k] && Marks(b, k) == Marks(a, k)
  }

  lemma ShardOperations(sh: Shard, k: RowKey, w: nat)
    ensures Shrinks(sh, MarkRow(sh, k, w)) && Shrinks(sh, FinishRow(sh, k, w))
    ensures Shrinks(sh, Touch(sh, k)) && Shrinks(sh, EmptyShard(sh.capacity))
    ensures Marks(MarkRow(sh, k, w), k) == Marks(sh, k) + [w]
    ensures forall x :: x != k ==> Marks(MarkRow(sh, k, w), x) == Marks(sh, x) == Marks(FinishRow(sh, k, w), x)
    ensures forall v :: v in Marks(sh, k) && v != w ==> v in Marks(FinishRow(sh, k, w), k)
    ensures Marks(Touch(sh, k), k) == Marks(sh, k)
  {
    forall v | v in Marks(sh, k) && v != w && w in Marks(sh, k)
      ensures v in WithoutMark(Marks(sh, k), w)
    {
      OtherMarksSurvive(Marks(sh, k), w, v);
    }
  }

  ghost predicate EntriesOk(shards: Shards, gate: Gate, clear: Option<Clear>, gens: Gens, store: View)
    requires shards.Ok()
  {
    && InOwnShard(shards)
    && ClearedIsEmpty(shards, gate, clear)
    && MarkedRowsHaveNoEntry(shards)
    && EntriesAreCurrent(shards, gens, store)
  }

  lemma ShrunkShard(shards: Shards, i: nat, sh: Shard, gate: Gate, clear: Option<Clear>, gens: Gens, store: View)
    requires shards.Ok() && i < SHARDS && Shrinks(shards.at[i], sh)
    requires EntriesOk(shards, gate, clear, gens, store)
    ensures EntriesOk(Shards(shards.of, shards.at[i := sh]), gate, clear, gens, store)
  {
    assert shards.at[i].entries == map[] ==> sh.entries == map[];
  }

  /** A change to a shard nobody is inside disturbs no reader. */
  lemma CallsUndisturbed(s: State, i: nat, sh: Shard)
    requires Inv(s) && i < SHARDS && i !in s.holder
    ensures CallsAreSound(s.readers, Shards(s.shards.of, s.shards.at[i := sh]), s.gate, s.clear)
  {
  }

  // --- every step keeps it ------------------------------------------------------------

  lemma InitEstablishes(s: State)
    requires Init(s)
    ensures Inv(s)
  {
  }

  /** Snapshots stay current when the writers in their windows do. */
  lemma WindowsOnlyGrow(s: State, ws: Writers)
    requires SnapshotsAreCurrent(s.readers, s.gens, s.store, s.writers)
    requires forall w :: w in s.writers && s.writers[w].phase.Staged? ==>
               w in ws && ws[w].phase.Staged? && ws[w].key == s.writers[w].key
    ensures SnapshotsAreCurrent(s.readers, s.gens, s.store, ws)
  {
    assert forall k :: InWindow(s.writers, k) ==> InWindow(ws, k);
  }

  lemma BeginCounts(gate: Gate, nextSeq: nat, ws: Writers, next: Writers)
    requires GateCounts(gate, None, nextSeq, ws)
    requires nextSeq in next && next == ws[nextSeq := next[nextSeq]]
    ensures var e := Enter(gate);
            var clear := if e.tripped then Some(Clear(nextSeq, 0)) else None;
            && (next[nextSeq].phase == (if e.record then ToMark else if e.tripped then Clearing else Staged) ==>
                  GateCounts(e.gate, clear, nextSeq + 1, next))
            && (forall i :: Live(e.gate, clear, i) <==> Live(gate, None, i))
  {
    assert next.Keys == ws.Keys + {nextSeq};
  }

  lemma BeginKeeps(s: State, k: RowKey)
    requires Inv(s) && Enabled(s, BeginWrite(k))
    ensures Inv(Do(s, BeginWrite(k)))
  {
    var t := DoBegin(s, k);
    BeginCounts(s.gate, s.nextSeq, s.writers, t.writers);
    WindowsOnlyGrow(s, t.writers);
    forall i | 0 <= i < SHARDS && !Live(t.gate, t.clear, i)
      ensures t.shards.at[i].entries == map[]
    {
      assert !Live(s.gate, s.clear, i);
    }
  }

  /** Emptying the shard the clearing has come to leaves only what it has yet to reach. */
  lemma ClearedEntries(shards: Shards, gate: Gate, clear: Clear, gens: Gens, store: View)
    requires shards.Ok() && clear.next < SHARDS && gate.disabled
    requires EntriesOk(shards, gate, Some(clear), gens, store)
    ensures EntriesOk(shards.Emptied(clear.next), gate, Some(clear.(next := clear.next + 1)), gens, store)
  {
    var i := clear.next;
    var after := shards.Emptied(i);
    forall j | 0 <= j < SHARDS && j != i
      ensures after.at[j] == shards.at[j]
    {
    }
    assert after.at[i].entries == map[];
  }

  lemma ClearedMarks(shards: Shards, gate: Gate, clear: Clear, ws: Writers)
    requires shards.Ok() && clear.next < SHARDS && gate.disabled && WritesAreMarked(shards, gate, Some(clear), ws)
    ensures WritesAreMarked(shards.Emptied(clear.next), gate, Some(clear.(next := clear.next + 1)), ws)
  {
  }

  lemma ClearedCalls(rs: Readers, holder: map<nat, nat>, shards: Shards, gate: Gate, clear: Clear)
    requires shards.Ok() && clear.next < SHARDS && gate.disabled && clear.next !in holder
    requires MutexesHeld(shards.of, holder, rs) && CallsAreSound(rs, shards, gate, Some(clear))
    ensures CallsAreSound(rs, shards.Emptied(clear.next), gate, Some(clear.(next := clear.next + 1)))
  {
  }

  lemma ClearShardKeeps(s: State)
    requires Inv(s) && Enabled(s, ClearShard)
    ensures Inv(Do(s, ClearShard))
  {
    ClearedEntries(s.shards, s.gate, s.clear.value, s.gens, s.store);
    ClearedMarks(s.shards, s.gate, s.clear.value, s.writers);
    ClearedCalls(s.readers, s.holder, s.shards, s.gate, s.clear.value);
  }

  lemma ClearDoneKeeps(s: State)
    requires Inv(s) && Enabled(s, ClearDone)
    ensures Inv(Do(s, ClearDone))
  {
    var t := Do(s, ClearDone);
    assert t.writers.Keys == s.writers.Keys;
    WindowsOnlyGrow(s, t.writers);
  }

  lemma MarkKeeps(s: State, w: nat)
    requires Inv(s) && Enabled(s, Mark(w))
    ensures Inv(Do(s, Mark(w)))
  {
    var t := Do(s, Mark(w));
    var k := s.writers[w].key;
    var i := s.shards.of(k);
    assert t.writers.Keys == s.writers.Keys;
    ShardOperations(s.shards.at[i], k, w);
    ShrunkShard(s.shards, i, t.shards.at[i], s.gate, s.clear, s.gens, s.store);
    CallsUndisturbed(s, i, t.shards.at[i]);
    WindowsOnlyGrow(s, t.writers);
    MarkPlacesItsMark(s.shards, s.gate, s.clear, s.writers, w);
  }

  lemma MarkPlacesItsMark(shards: Shards, gate: Gate, clear: Option<Clear>, ws: Writers, w: nat)
    requires shards.Ok() && WritesAreMarked(shards, gate, clear, ws) && w in ws
    ensures var k := ws[w].key;
            WritesAreMarked(shards.With(k, MarkRow(shards.For(k), k, w)), gate, clear, Phased(ws, w, Staged))
  {
    ShardOperations(shards.For(ws[w].key), ws[w].key, w);
  }

  /** A batch that becomes visible changes only rows inside its own writers' windows. */
  lemma ApplyStaysInWindows(s: State, ws: set<nat>, rows: map<RowKey, Option<Row>>)
    requires Enabled(s, Apply(ws, rows))
    ensures forall k :: !InWindow(s.writers, k) ==> Agree(s.store, Written(s.store, rows), k)
  {
    forall k | k in rows
      ensures InWindow(s.writers, k)
    {
      var w :| w in ws && s.writers[w].key == k;
      assert WriterAt(s.writers, w, Staged);
    }
    assert forall k :: k !in rows ==> Agree(s.store, Written(s.store, rows), k);
  }

  lemma ApplyKeepsEntries(s: State, ws: set<nat>, rows: map<RowKey, Option<Row>>)
    requires Inv(s) && Enabled(s, Apply(ws, rows))
    ensures EntriesAreCurrent(s.shards, s.gens, Written(s.store, rows))
  {
    ApplyStaysInWindows(s, ws, rows);
    forall i, k | 0 <= i < SHARDS && k in s.shards.at[i].entries
      ensures EntryIsCurrent(s.shards.at[i].entries[k], k, s.gens, Written(s.store, rows))
    {
      EntryOutsideWindows(s, k);
    }
  }

  lemma AgreementSurvives(t: Tenant, snap: View, store: View, next: View, ws: Writers)
    requires AgreeOutsideWindows(t, snap, store, ws)
    requires forall k :: !InWindow(ws, k) ==> Agree(store, next, k)
    ensures AgreeOutsideWindows(t, snap, next, ws)
  {
  }

  lemma ApplyKeeps(s: State, ws: set<nat>, rows: map<RowKey, Option<Row>>)
    requires Inv(s) && Enabled(s, Apply(ws, rows))
    ensures Inv(Do(s, Apply(ws, rows)))
  {
    var store := Written(s.store, rows);
    ApplyStaysInWindows(s, ws, rows);
    ApplyKeepsEntries(s, ws, rows);
    forall r | r in s.readers && s.readers[r].snap.Some? && s.readers[r].gen == Gen(s.gens, s.readers[r].tenant)
      ensures AgreeOutsideWindows(s.readers[r].tenant, s.readers[r].snap.value, store, s.writers)
    {
      AgreementSurvives(s.readers[r].tenant, s.readers[r].snap.value, s.store, store, s.writers);
    }
  }

  /** No entry exists for a row inside a write's window. */
  lemma EntryOutsideWindows(s: State, k: RowKey)
    requires Inv(s) && k in s.shards.For(k).entries
    ensures !InWindow(s.writers, k)
  {
    assert Live(s.gate, s.clear, s.shards.of(k));
  }

  lemma BumpKeeps(s: State, w: nat)
    requires Inv(s) && Enabled(s, Bump(w))
    ensures Inv(Do(s, Bump(w)))
  {
    var t := Do(s, Bump(w));
    assert t.writers.Keys == s.writers.Keys;
    assert forall n :: Gen(s.gens, n) <= Gen(t.gens, n);
    BumpRetires(s, w);
  }

  /** Moving the generation leaves every reader of that tenant behind, and closes no
      other tenant's window. */
  lemma BumpRetires(s: State, w: nat)
    requires SnapshotsAreCurrent(s.readers, s.gens, s.store, s.writers) && Enabled(s, Bump(w))
    ensures var t := Do(s, Bump(w)); SnapshotsAreCurrent(t.readers, t.gens, t.store, t.writers)
  {
    var ws := Phased(s.writers, w, Bumped);
    forall x: RowKey | x.tenant != s.writers[w].key.tenant && InWindow(s.writers, x)
      ensures InWindow(ws, x)
    {
      var v :| v in s.writers && s.writers[v].phase.Staged? && s.writers[v].key == x;
      assert v in ws && ws[v].phase.Staged? && ws[v].key == x;
    }
  }

  lemma UnmarkKeeps(s: State, w: nat)
    requires Inv(s) && Enabled(s, Unmark(w))
    ensures Inv(Do(s, Unmark(w)))
  {
    var t := Do(s, Unmark(w));
    var k := s.writers[w].key;
    var i := s.shards.of(k);
    assert t.writers.Keys == s.writers.Keys;
    ShardOperations(s.shards.at[i], k, w);
    ShrunkShard(s.shards, i, t.shards.at[i], s.gate, s.clear, s.gens, s.store);
    CallsUndisturbed(s, i, t.shards.at[i]);
    WindowsOnlyGrow(s, t.writers);
    UnmarkTakesOnlyItsOwn(s.shards, s.gate, s.clear, s.writers, w);
  }

  /** A writer that finishes takes its own mark back and leaves every other writer's. */
  lemma UnmarkTakesOnlyItsOwn(shards: Shards, gate: Gate, clear: Option<Clear>, ws: Writers, w: nat)
    requires shards.Ok() && WritesAreMarked(shards, gate, clear, ws) && w in ws
    ensures var k := ws[w].key;
            WritesAreMarked(shards.With(k, FinishRow(shards.For(k), k, w)), gate, clear, Phased(ws, w, Unmarked))
  {
    ShardOperations(shards.For(ws[w].key), ws[w].key, w);
  }

  lemma LeaveKeeps(s: State, w: nat)
    requires Inv(s) && Enabled(s, LeaveGate(w))
    ensures Inv(Do(s, LeaveGate(w)))
  {
    var t := DoLeave(s, w);
    assert s.writers.Keys == t.writers.Keys + {w};
    WindowsOnlyGrow(s, t.writers);
  }

  // Reader steps change one reader and the mutex it holds.

  lemma ReaderMoves(s: State, r: nat, holder: map<nat, nat>, call: Call)
    requires Inv(s) && r in s.readers
    requires MutexesHeld(s.shards.of, holder, s.readers[r := s.readers[r].(call := call)])
    requires call.Busy? ==>
               CallIsSound(s.readers[r].(call := call), s.shards.For(call.key),
                           Live(s.gate, s.clear, s.shards.of(call.key)))
    ensures Inv(Moved(s, r, holder, call))
  {
  }

  lemma MutexReleased(of: RowKey -> nat, holder: map<nat, nat>, rs: Readers, r: nat)
    requires MutexesHeld(of, holder, rs) && r in rs && rs[r].call.Busy?
    ensures MutexesHeld(of, holder - {of(rs[r].call.key)}, rs[r := rs[r].(call := Idle)])
  {
  }

  lemma MutexKept(of: RowKey -> nat, holder: map<nat, nat>, rs: Readers, r: nat, p: Point)
    requires MutexesHeld(of, holder, rs) && r in rs && rs[r].call.Busy?
    ensures MutexesHeld(of, holder, rs[r := rs[r].(call := rs[r].call.(at := p))])
  {
  }

  lemma MutexTaken(of: RowKey -> nat, holder: map<nat, nat>, rs: Readers, r: nat, call: Call)
    requires MutexesHeld(of, holder, rs) && r in rs && rs[r].call.Idle?
    requires call.Busy? && of(call.key) !in holder
    ensures MutexesHeld(of, holder[of(call.key) := r], rs[r := rs[r].(call := call)])
  {
  }

  lemma ReleaseKeeps(s: State, r: nat)
    requires Inv(s) && r in s.readers && s.readers[r].call.Busy?
    ensures Inv(Release(s, r))
  {
    var holder := s.holder - {s.shards.of(s.readers[r].call.key)};
    MutexReleased(s.shards.of, s.holder, s.readers, r);
    ReaderMoves(s, r, holder, Idle);
  }

  lemma MoveOnKeeps(s: State, r: nat, p: Point)
    requires Inv(s) && r in s.readers && s.readers[r].call.Busy?
    requires var rd := s.readers[r];
             CallIsSound(rd.(call := rd.call.(at := p)), s.shards.For(rd.call.key),
                         Live(s.gate, s.clear, s.shards.of(rd.call.key)))
    ensures Inv(At(s, r, p))
  {
    MutexKept(s.shards.of, s.holder, s.readers, r, p);
    ReaderMoves(s, r, s.holder, s.readers[r].call.(at := p));
  }

  lemma OpenKeeps(s: State, r: nat, n: Tenant)
    requires Inv(s) && Enabled(s, Open(r, n))
    ensures Inv(Do(s, Open(r, n)))
  {
  }

  lemma SnapshotTaken(rs: Readers, r: nat, gens: Gens, store: View, ws: Writers)
    requires r in rs && SnapshotsAreCurrent(rs, gens, store, ws)
    ensures SnapshotsAreCurrent(rs[r := rs[r].(snap := Some(store))], gens, store, ws)
  {
    var after := rs[r := rs[r].(snap := Some(store))];
    assert AgreeOutsideWindows(rs[r].tenant, store, store, ws);
    forall x | x in after && x != r
      ensures after[x] == rs[x] && x in rs
    {
    }
  }

  /** A reader with no snapshot yet is inside no shard. */
  lemma SnapshotDisturbsNoCall(rs: Readers, r: nat, store: View, holder: map<nat, nat>, shards: Shards, gate: Gate, clear: Option<Clear>)
    requires shards.Ok() && r in rs && rs[r].snap.None?
    requires MutexesHeld(shards.of, holder, rs) && CallsAreSound(rs, shards, gate, clear)
    ensures var after := rs[r := rs[r].(snap := Some(store))];
            MutexesHeld(shards.of, holder, after) && CallsAreSound(after, shards, gate, clear)
  {
    assert !rs[r].call.Busy?;
  }

  lemma TakeSnapshotKeeps(s: State, r: nat)
    requires Inv(s) && Enabled(s, TakeSnapshot(r))
    ensures Inv(Do(s, TakeSnapshot(r)))
  {
    SnapshotTaken(s.readers, r, s.gens, s.store, s.writers);
    SnapshotDisturbsNoCall(s.readers, r, s.store, s.holder, s.shards, s.gate, s.clear);
  }

  lemma AcquireKeeps(s: State, r: nat, k: RowKey, purpose: Purpose)
    requires Inv(s) && Enabled(s, Acquire(r, k, purpose))
    ensures Inv(Do(s, Acquire(r, k, purpose)))
  {
    var call := Busy(k, purpose, Locked);
    MutexTaken(s.shards.of, s.holder, s.readers, r, call);
    ReaderMoves(s, r, s.holder[s.shards.of(k) := r], call);
  }

  lemma CheckOffKeeps(s: State, r: nat)
    requires Inv(s) && Enabled(s, CheckOff(r))
    ensures Inv(Do(s, CheckOff(r)))
  {
    if s.gate.disabled {
      ReleaseKeeps(s, r);
    } else {
      MoveOnKeeps(s, r, SawOn);
    }
  }

  lemma CheckMarksKeeps(s: State, r: nat)
    requires Inv(s) && Enabled(s, CheckMarks(r))
    ensures Inv(Do(s, CheckMarks(r)))
  {
    var k := s.readers[r].call.key;
    if Marks(s.shards.For(k), k) != [] {
      ReleaseKeeps(s, r);
    } else {
      MoveOnKeeps(s, r, SawUnmarked);
    }
  }

  /** The generation check is where an entry is known to be the reader's own row. */
  lemma CheckGenKeeps(s: State, r: nat)
    requires Inv(s) && Enabled(s, CheckGen(r))
    ensures Inv(Do(s, CheckGen(r)))
  {
    var rd := s.readers[r];
    if Gen(s.gens, rd.tenant) != rd.gen {
      ReleaseKeeps(s, r);
    } else {
      UnmarkedRowAgrees(s, r);
      MoveOnKeeps(s, r, SawGen);
    }
  }

  /** A reader that found no mark and still holds the current generation reads, in
      its own snapshot, the row the store holds now. */
  lemma UnmarkedRowAgrees(s: State, r: nat)
    requires Inv(s) && r in s.readers && s.readers[r].call.Busy?
    requires Passed(s.readers[r].call.at, SawUnmarked)
    requires s.readers[r].gen == Gen(s.gens, s.readers[r].tenant)
    ensures Agree(s.readers[r].snap.value, s.store, s.readers[r].call.key)
  {
    var k := s.readers[r].call.key;
    assert Marks(s.shards.For(k), k) == [];
    assert Live(s.gate, s.clear, s.shards.of(k));
    assert !InWindow(s.writers, k);
  }

  lemma FinishKeeps(s: State, r: nat)
    requires Inv(s) && Enabled(s, Finish(r))
    ensures Inv(Do(s, Finish(r)))
  {
    var used := s.(shards := Used(s.shards, s.readers[r]));
    UseKeeps(s, r);
    ReleaseKeeps(used, r);
  }

  /** What an offer stores is the reader's own row, which is current if its
      generation still is. */
  lemma OfferIsCurrent(s: State, r: nat)
    requires Inv(s) && Enabled(s, Finish(r)) && s.readers[r].call.purpose.Offer?
    ensures var rd := s.readers[r]; var k := rd.call.key;
            && EntryIsCurrent(Entry(rd.gen, rd.snap.value[k]), k, s.gens, s.store)
            && Live(s.gate, s.clear, s.shards.of(k)) && Marks(s.shards.For(k), k) == []
  {
    var rd := s.readers[r];
    if rd.gen == Gen(s.gens, rd.tenant) {
      UnmarkedRowAgrees(s, r);
    }
  }

  lemma StoredShard(shards: Shards, k: RowKey, e: Entry, gate: Gate, clear: Option<Clear>, gens: Gens, store: View)
    requires shards.Ok() && EntriesOk(shards, gate, clear, gens, store)
    requires EntryIsCurrent(e, k, gens, store)
    requires Live(gate, clear, shards.of(k)) && Marks(shards.For(k), k) == []
    ensures EntriesOk(shards.With(k, StoreRow(shards.For(k), k, e)), gate, clear, gens, store)
  {
    StoreRowEntries(shards.For(k), k, e);
  }

  lemma UseKeepsCalls(s: State, r: nat)
    requires s.shards.Ok() && MutexesHeld(s.shards.of, s.holder, s.readers)
    requires CallsAreSound(s.readers, s.shards, s.gate, s.clear) && Enabled(s, Finish(r))
    ensures CallsAreSound(s.readers, Used(s.shards, s.readers[r]), s.gate, s.clear)
  {
    var rd := s.readers[r];
    var k := rd.call.key;
    if rd.call.purpose.Offer? {
      StoreRowEntries(s.shards.For(k), k, Entry(rd.gen, rd.snap.value[k]));
    }
    assert forall x :: x in s.readers && s.readers[x].call.Busy? && x != r ==>
        s.shards.of(s.readers[x].call.key) != s.shards.of(k);
  }

  lemma UseKeepsMarks(shards: Shards, rd: Reader, gate: Gate, clear: Option<Clear>, ws: Writers)
    requires shards.Ok() && WritesAreMarked(shards, gate, clear, ws)
    requires rd.call.Busy? && rd.snap.Some? && (rd.call.purpose.Offer? ==> rd.call.key in rd.snap.value)
    ensures WritesAreMarked(Used(shards, rd), gate, clear, ws)
  {
    var i := shards.of(rd.call.key);
    assert forall x :: Marks(Used(shards, rd).at[i], x) == Marks(shards.at[i], x);
  }

  /** An offer that passed every check is kept: the cache then holds the reader's row. */
  lemma OfferIsKept(s: State, r: nat)
    requires Enabled(s, Finish(r)) && s.readers[r].call.purpose.Offer? && s.shards.For(s.readers[r].call.key).capacity > 0
    ensures var rd := s.readers[r]; var after := Do(s, Finish(r)).shards;
            && after.Ok() && rd.call.key in after.For(rd.call.key).entries
            && after.For(rd.call.key).entries[rd.call.key] == Entry(rd.gen, rd.snap.value[rd.call.key])
  {
    var rd := s.readers[r];
    StoreRowEntries(s.shards.For(rd.call.key), rd.call.key, Entry(rd.gen, rd.snap.value[rd.call.key]));
  }

  lemma UseKeepsEntries(s: State, r: nat)
    requires Inv(s) && Enabled(s, Finish(r))
    ensures EntriesOk(Used(s.shards, s.readers[r]), s.gate, s.clear, s.gens, s.store)
  {
    var rd := s.readers[r];
    var k := rd.call.key;
    var i := s.shards.of(k);
    if rd.call.purpose.Offer? {
      OfferIsCurrent(s, r);
      StoredShard(s.shards, k, Entry(rd.gen, rd.snap.value[k]), s.gate, s.clear, s.gens, s.store);
    } else {
      ShardOperations(s.shards.at[i], k, 0);
      ShrunkShard(s.shards, i, Touch(s.shards.at[i], k), s.gate, s.clear, s.gens, s.store);
    }
  }

  lemma UseKeeps(s: State, r: nat)
    requires Inv(s) && Enabled(s, Finish(r))
    ensures Inv(s.(shards := Used(s.shards, s.readers[r])))
  {
    UseKeepsEntries(s, r);
    UseKeepsCalls(s, r);
    UseKeepsMarks(s.shards, s.readers[r], s.gate, s.clear, s.writers);
  }

  lemma StepKeeps(s: State, step: Step)
    requires Inv(s) && Enabled(s, step)
    ensures Inv(Do(s, step))
  {
    match step
    case BeginWrite(k) => BeginKeeps(s, k);
    case ClearShard => ClearShardKeeps(s);
    case ClearDone => ClearDoneKeeps(s);
    case Mark(w) => MarkKeeps(s, w);
    case Apply(ws, rows) => ApplyKeeps(s, ws, rows);
    case Bump(w) => BumpKeeps(s, w);
    case Unmark(w) => UnmarkKeeps(s, w);
    case LeaveGate(w) => LeaveKeeps(s, w);
    case Open(r, n) => OpenKeeps(s, r, n);
    case TakeSnapshot(r) => TakeSnapshotKeeps(s, r);
    case Acquire(r, k, purpose) => AcquireKeeps(s, r, k, purpose);
    case CheckOff(r) => CheckOffKeeps(s, r);
    case CheckMarks(r) => CheckMarksKeeps(s, r);
    case CheckGen(r) => CheckGenKeeps(s, r);
    case Finish(r) => FinishKeeps(s, r);
  }

  // --- whole runs -------------------------------------------------------------------

  /** `states` is a run: it starts from an empty cache over any store, and each
      state follows from the one before by the step taken there. */
  ghost predicate Run(states: seq<State>, steps: seq<Step>) {
    && |states| == |steps| + 1
    && Init(states[0])
    && forall i :: 0 <= i < |steps| ==> Enabled(states[i], steps[i]) && states[i + 1] == Do(states[i], steps[i])
  }

  lemma {:induction false} RunKeeps(states: seq<State>, steps: seq<Step>, n: nat)
    requires Run(states, steps) && n <= |steps|
    ensures Inv(states[n])
  {
    if n == 0 {
      InitEstablishes(states[0]);
    } else {
      RunKeeps(states, steps, n - 1);
      StepKeeps(states[n - 1], steps[n - 1]);
    }
  }

  /** In every run, a row the cache serves is the row in the reader's own snapshot. */
  lemma ServedRowIsTheSnapshotsRow(states: seq<State>, steps: seq<Step>, n: nat)
    requires Run(states, steps) && n < |steps|
    requires states[n].shards.Ok() && Served(states[n], steps[n]).Some?
    ensures var rd := states[n].readers[steps[n].r];
            && rd.snap.Some? && rd.call.key.tenant == rd.tenant
            && rd.call.key in rd.snap.value
            && Served(states[n], steps[n]).value == rd.snap.value[rd.call.key]
  {
    RunKeeps(states, steps, n);
  }

  /** In every run, while the cache is on each write past beginWrite and not yet
      unmarked has its own mark in its row's shard. */
  lemma EveryOpenWriteIsMarked(states: seq<State>, steps: seq<Step>, n: nat, w: nat)
    requires Run(states, steps) && n <= |steps|
    requires !states[n].gate.disabled
    requires w in states[n].writers && (states[n].writers[w].phase.Staged? || states[n].writers[w].phase.Bumped?)
    ensures states[n].shards.Ok()
    ensures w in Marks(states[n].shards.For(states[n].writers[w].key), states[n].writers[w].key)
  {
    RunKeeps(states, steps, n);
  }

  ghost predicate NoEntries(shards: Shards) {
    shards.Ok() && forall i :: 0 <= i < SHARDS ==> shards.at[i].entries == map[]
  }

  lemma OnlyLeavingTurnsOn(s: State, step: Step)
    requires Enabled(s, step) && !step.LeaveGate?
    ensures s.gate.disabled ==> Do(s, step).gate.disabled
  {
  }

  /** The only step that turns the cache on is the last write leaving the gate. */
  lemma OnlyTheLastWriteRecovers(s: State, step: Step)
    requires Inv(s) && Enabled(s, step)
    requires s.gate.disabled && !Do(s, step).gate.disabled
    ensures step.LeaveGate? && s.clear.None? && s.writers.Keys == {step.w}
  {
    if !step.LeaveGate? {
      OnlyLeavingTurnsOn(s, step);
    } else {
      LoneKey(s.writers, step.w);
    }
  }

  lemma LoneKey(ws: Writers, w: nat)
    requires w in ws && |ws| == 1
    ensures ws.Keys == {w}
  {
    assert |ws.Keys - {w}| == 0;
  }

  /** In every run, the step that turns the cache back on leaves no write in flight and no
      entry in any shard; the last write out always does; and no run ever latches the gate. */
  lemma RecoveryIsQuiet(states: seq<State>, steps: seq<Step>, n: nat)
    requires Run(states, steps) && n < |steps|
    ensures !states[n].gate.latched
    ensures states[n].gate.disabled && !states[n + 1].gate.disabled ==>
              states[n + 1].writers == map[] && NoEntries(states[n + 1].shards)
    ensures steps[n].LeaveGate? && states[n].writers.Keys == {steps[n].w} ==> !states[n + 1].gate.disabled
  {
    RunKeeps(states, steps, n);
    if steps[n].LeaveGate? && states[n].writers.Keys == {steps[n].w} {
      assert |states[n].writers| == |states[n].writers.Keys| == 1;
    }
    var s, t := states[n], states[n + 1];
    if s.gate.disabled && !t.gate.disabled {
      OnlyTheLastWriteRecovers(s, steps[n]);
      assert t.writers == map[];
      assert forall i :: 0 <= i < SHARDS ==> !Live(s.gate, s.clear, i);
    }
  }
}
