/** The slot index is kept exact: Stage withdraws the entries of the row it replaces
    and writes those of the new one, and commits only over the row it had read. */
module AttrIndex {
  import opened Prelude
  import opened AttrValue

  /** One index entry: in this slot's order, this record is at this value. */
  datatype Entry = Entry(slot: Slot, value: Value, rid: Id)

  type Rows = map<Id, Row>

  function RowOf(rows: Rows, rid: Id): Option<Row> {
    if rid in rows then Some(rows[rid]) else None
  }

  predicate Holds(row: Option<Row>, slot: Slot) {
    row.Some? && slot in row.value
  }

  /** Whether a row, or the lack of one, calls for an entry. */
  predicate Calls(indexed: seq<Slot>, row: Option<Row>, e: Entry) {
    e.slot in indexed && Holds(row, e.slot) && row.value[e.slot] == e.value
  }

  /** The index is exact: an entry for every indexed value of every row, and no other. */
  ghost predicate Exact(indexed: seq<Slot>, rows: Rows, entries: set<Entry>) {
    forall e: Entry :: e in entries <==> Calls(indexed, RowOf(rows, e.rid), e)
  }

  // --- one transaction ------------------------------------------------------------------

  /** What a transaction has staged: rows and entries written, and for each row the
      value it first read, which the commit will insist on. */
  datatype Staged = Staged(rows: map<Id, Option<Row>>, entries: map<Entry, bool>, expected: map<Id, Option<Row>>)

  const NOTHING := Staged(map[], map[], map[])

  /** The entries a slot's change withdraws, and those it writes. */
  function Withdrawn(indexed: seq<Slot>, was: Option<Row>, row: Option<Row>, rid: Id): map<Entry, bool> {
    map s | s in indexed && Holds(was, s) && !(Holds(row, s) && row.value[s] == was.value[s]) ::
      Entry(s, was.value[s], rid) := false
  }

  function Written(indexed: seq<Slot>, row: Option<Row>, rid: Id): map<Entry, bool> {
    map s | s in indexed && Holds(row, s) :: Entry(s, row.value[s], rid) := true
  }

  lemma EntryChanges(indexed: seq<Slot>, was: Option<Row>, row: Option<Row>, rid: Id, e: Entry)
    ensures e in Withdrawn(indexed, was, row, rid) <==> e.rid == rid && Calls(indexed, was, e) && !Calls(indexed, row, e)
    ensures e in Written(indexed, row, rid) <==> e.rid == rid && Calls(indexed, row, e)
  {
  }

  /** A transaction reads its own write before what is stored. */
  function Current(t: Staged, store: Rows, rid: Id): Option<Row> {
    if rid in t.rows then t.rows[rid] else RowOf(store, rid)
  }

  function StageRow(indexed: seq<Slot>, t: Staged, store: Rows, rid: Id, row: Option<Row>): Staged {
    var was := Current(t, store, rid);
    Staged(
      t.rows[rid := row],
      t.entries + Withdrawn(indexed, was, row, rid) + Written(indexed, row, rid),
      if rid in t.rows || rid in t.expected then t.expected else t.expected[rid := was])
  }

  /** For each record, the staged entry writes turn exactly the entries of the row first
      read into exactly the entries of the row staged. The store does not appear: what
      others commit meanwhile cannot break this. */
  ghost predicate Consistent(indexed: seq<Slot>, t: Staged) {
    && t.rows.Keys == t.expected.Keys
    && (forall e | e in t.entries :: e.rid in t.rows)
    && (forall e: Entry | e.rid in t.rows :: Turns(indexed, t, e))
  }

  ghost predicate Turns(indexed: seq<Slot>, t: Staged, e: Entry)
    requires e.rid in t.rows && e.rid in t.expected
  {
    (if e in t.entries then t.entries[e] else Calls(indexed, t.expected[e.rid], e)) == Calls(indexed, t.rows[e.rid], e)
  }

  lemma StagingIsConsistent(indexed: seq<Slot>, t: Staged, store: Rows, rid: Id, row: Option<Row>)
    requires Consistent(indexed, t)
    ensures Consistent(indexed, StageRow(indexed, t, store, rid, row))
  {
    var after := StageRow(indexed, t, store, rid, row);
    forall e: Entry | e.rid in after.rows
      ensures Turns(indexed, after, e)
    {
      if e.rid in t.rows {
        assert Turns(indexed, t, e);
      }
      EntryChanges(indexed, Current(t, store, rid), row, rid, e);
    }
  }

  predicate MayCommit(t: Staged, rows: Rows) {
    forall r | r in t.expected :: t.expected[r] == RowOf(rows, r)
  }

  function CommittedRows(t: Staged, rows: Rows): Rows {
    (rows - t.rows.Keys) + map r | r in t.rows && t.rows[r].Some? :: t.rows[r].value
  }

  function CommittedEntries(t: Staged, entries: set<Entry>): set<Entry> {
    (entries - t.entries.Keys) + set e | e in t.entries && t.entries[e]
  }

  /** A commit whose rows are still as it read them keeps the index exact. */
  lemma CommittingIsExact(indexed: seq<Slot>, t: Staged, rows: Rows, entries: set<Entry>)
    requires Consistent(indexed, t) && Exact(indexed, rows, entries) && MayCommit(t, rows)
    ensures Exact(indexed, CommittedRows(t, rows), CommittedEntries(t, entries))
  {
    forall e: Entry
      ensures e in CommittedEntries(t, entries) <==> Calls(indexed, RowOf(CommittedRows(t, rows), e.rid), e)
    {
      assert RowOf(CommittedRows(t, rows), e.rid) == if e.rid in t.rows then t.rows[e.rid] else RowOf(rows, e.rid);
      if e.rid in t.rows {
        assert Turns(indexed, t, e);
      }
    }
  }

  // --- every interleaving of transactions -------------------------------------------------

  datatype State = State(rows: Rows, entries: set<Entry>, open: map<nat, Staged>)

  /** A transaction stages a record's new row, or drops it; and ends by committing,
      or by being discarded. */
  datatype Step =
    | Begin(tx: nat)
    | Stage(tx: nat, rid: Id, row: Option<Row>)
    | Commit(tx: nat)
    | Discard(tx: nat)

  function Do(indexed: seq<Slot>, s: State, step: Step): State {
    match step
    case Begin(x) => if x in s.open then s else s.(open := s.open[x := NOTHING])
    case Stage(x, rid, row) =>
      if x in s.open then s.(open := s.open[x := StageRow(indexed, s.open[x], s.rows, rid, row)]) else s
    case Commit(x) =>
      if x in s.open && MayCommit(s.open[x], s.rows)
      then State(CommittedRows(s.open[x], s.rows), CommittedEntries(s.open[x], s.entries), s.open - {x})
      else s.(open := s.open - {x})
    case Discard(x) => s.(open := s.open - {x})
  }

  function Run(indexed: seq<Slot>, s: State, steps: seq<Step>): State
    decreases |steps|
  {
    if steps == [] then s else Run(indexed, Do(indexed, s, steps[0]), steps[1..])
  }

  ghost predicate Inv(indexed: seq<Slot>, s: State) {
    Exact(indexed, s.rows, s.entries) && forall x | x in s.open :: Consistent(indexed, s.open[x])
  }

  lemma StepKeeps(indexed: seq<Slot>, s: State, step: Step)
    requires Inv(indexed, s)
    ensures Inv(indexed, Do(indexed, s, step))
  {
    if step.Stage? && step.tx in s.open {
      StagingIsConsistent(indexed, s.open[step.tx], s.rows, step.rid, step.row);
    } else if step.Commit? && step.tx in s.open && MayCommit(s.open[step.tx], s.rows) {
      CommittingIsExact(indexed, s.open[step.tx], s.rows, s.entries);
    }
  }

  /** Whatever transactions stage and however their steps interleave, the index stays
      exact: no stale entry is left behind and none is missing. */
  lemma {:induction false} IndexStaysExact(indexed: seq<Slot>, s: State, steps: seq<Step>)
    requires Inv(indexed, s)
    ensures Inv(indexed, Run(indexed, s, steps))
    decreases |steps|
  {
    if steps != [] {
      StepKeeps(indexed, s, steps[0]);
      IndexStaysExact(indexed, Do(indexed, s, steps[0]), steps[1..]);
    }
  }

  // --- which row a record has -----------------------------------------------------------------

  /** The row the last staging of a record by a transaction gave it, if one did. */
  function LastGiven(steps: seq<Step>, x: nat, rid: Id): Option<Option<Row>> {
    if steps == [] then None
    else
      var later := LastGiven(steps[1..], x, rid);
      if later.Some? then later
      else if steps[0].Stage? && steps[0].tx == x && steps[0].rid == rid then Some(steps[0].row)
      else None
  }

  /** The row a record had in the store when a transaction first staged it. */
  function FirstRead(indexed: seq<Slot>, s: State, steps: seq<Step>, x: nat, rid: Id): Option<Option<Row>>
    decreases |steps|
  {
    if steps == [] then None
    else if steps[0].Stage? && steps[0].tx == x && steps[0].rid == rid then Some(if rid in s.rows then Some(s.rows[rid]) else None)
    else FirstRead(indexed, Do(indexed, s, steps[0]), steps[1..], x, rid)
  }

  /** A transaction goes on for as long as these steps do. */
  predicate Lasts(steps: seq<Step>, x: nat) {
    forall i | 0 <= i < |steps| :: !((steps[i].Commit? || steps[i].Discard?) && steps[i].tx == x)
  }

  /** A staged row is the last given, and what is expected of the store what was first read. */
  lemma {:induction false} StagedIsGiven(indexed: seq<Slot>, s: State, steps: seq<Step>, x: nat, rid: Id)
    requires x in s.open && Lasts(steps, x) && s.open[x].rows.Keys == s.open[x].expected.Keys
    ensures var after := Run(indexed, s, steps);
            && x in after.open && after.open[x].rows.Keys == after.open[x].expected.Keys
            && var given, read := LastGiven(steps, x, rid), FirstRead(indexed, s, steps, x, rid);
               && (given.Some? ==> rid in after.open[x].rows && after.open[x].rows[rid] == given.value)
               && (given.None? ==> SameAt(s.open[x].rows, after.open[x].rows, rid))
               && (rid !in s.open[x].rows && read.Some? ==> rid in after.open[x].expected && after.open[x].expected[rid] == read.value)
               && (rid in s.open[x].rows || read.None? ==> SameAt(s.open[x].expected, after.open[x].expected, rid))
               && (read.Some? <==> given.Some?)
    decreases |steps|
  {
    if steps != [] {
      var next := Do(indexed, s, steps[0]);
      assert Lasts(steps[1..], x);
      StagedIsGiven(indexed, next, steps[1..], x, rid);
    }
  }

  predicate SameAt<T(==)>(a: map<Id, T>, b: map<Id, T>, rid: Id) {
    if rid in a then rid in b && a[rid] == b[rid] else rid !in b
  }

  /** Over every run from a transaction's beginning to its commit, among whatever others do:
      it goes through exactly when each record it staged has the row it had at its first
      staging, and then each record has the row its last staging gave, or none if that
      dropped it, and every other record the row it had; refused, it changes no row. */
  lemma CommitGivesTheLastRows(indexed: seq<Slot>, s: State, steps: seq<Step>, x: nat)
    requires x !in s.open && Lasts(steps, x)
    ensures var before := Run(indexed, Do(indexed, s, Begin(x)), steps);
            var after := Do(indexed, before, Commit(x));
            var through := forall rid: Id :: Undisturbed(indexed, Do(indexed, s, Begin(x)), steps, x, before.rows, rid);
            && (through ==> forall rid: Id :: GivenOrKept(LastGiven(steps, x, rid), before.rows, after.rows, rid))
            && (!through ==> after.rows == before.rows && after.entries == before.entries)
  {
    var begun := Do(indexed, s, Begin(x));
    var before := Run(indexed, begun, steps);
    forall rid: Id
      ensures x in before.open
      ensures Undisturbed(indexed, begun, steps, x, before.rows, rid) <==>
              (rid in before.open[x].expected ==> before.open[x].expected[rid] == RowOf(before.rows, rid))
      ensures GivenOrKept(LastGiven(steps, x, rid), before.rows, CommittedRows(before.open[x], before.rows), rid)
    {
      StagedIsGiven(indexed, begun, steps, x, rid);
    }
    StagedIsGiven(indexed, begun, steps, x, ZERO_ID);
  }

  /** If the record was staged at all, the store has the row it had then. */
  predicate Undisturbed(indexed: seq<Slot>, s: State, steps: seq<Step>, x: nat, rows: Rows, rid: Id) {
    var read := FirstRead(indexed, s, steps, x, rid);
    read.Some? ==> if rid in rows then read.value == Some(rows[rid]) else read.value == None
  }

  predicate GivenOrKept(given: Option<Option<Row>>, before: Rows, after: Rows, rid: Id) {
    match given
    case None => SameAt(before, after, rid)
    case Some(None) => rid !in after
    case Some(Some(row)) => rid in after && after[rid] == row
  }

  /** Nothing but a commit changes a row. */
  lemma OnlyCommitsChangeRows(indexed: seq<Slot>, s: State, step: Step)
    ensures !step.Commit? ==> Do(indexed, s, step).rows == s.rows && Do(indexed, s, step).entries == s.entries
  {
  }

  // --- the maintainer -----------------------------------------------------------------------

  class Store {
    var rows: Rows
    var entries: set<Entry>

    constructor ()
      ensures rows == map[] && entries == {}
    {
      rows := map[];
      entries := {};
    }
  }

  class Tx {
    const store: Store
    var staged: Staged

    constructor (store: Store)
      ensures this.store == store && staged == NOTHING
    {
      this.store := store;
      staged := NOTHING;
    }

    /** All of the transaction, if every row it read is still as it was; else nothing. */
    method Commit(ghost indexed: seq<Slot>) returns (ok: bool)
      requires Consistent(indexed, staged) && Exact(indexed, store.rows, store.entries)
      modifies store
      ensures Exact(indexed, store.rows, store.entries)
      ensures ok <==> forall r | r in staged.expected :: staged.expected[r] == if r in old(store.rows) then Some(old(store.rows)[r]) else None
      ensures !ok ==> store.rows == old(store.rows) && store.entries == old(store.entries)
      ensures ok ==> forall r: Id ::
                GivenOrKept(if r in staged.rows then Some(staged.rows[r]) else None, old(store.rows), store.rows, r)
    {
      ok := forall r | r in staged.expected :: staged.expected[r] == RowOf(store.rows, r);
      if ok {
        CommittingIsExact(indexed, staged, store.rows, store.entries);
        store.rows, store.entries := CommittedRows(staged, store.rows), CommittedEntries(staged, store.entries);
      }
    }
  }

  class Indexer {
    const indexed: seq<Slot>

    constructor (indexed: seq<Slot>)
      ensures this.indexed == indexed
    {
      this.indexed := indexed;
    }

    /** Reads the row and makes what it read a condition of the commit, unless the
        transaction has written the row itself. */
    method CurrentRow(tx: Tx, rid: Id) returns (row: Option<Row>)
      modifies tx
      ensures row == Current(old(tx.staged), tx.store.rows, rid)
      ensures tx.staged == old(tx.staged).(expected :=
                if rid in old(tx.staged.rows) || rid in old(tx.staged.expected) then old(tx.staged.expected)
                else old(tx.staged.expected)[rid := row])
    {
      if rid in tx.staged.rows {
        return tx.staged.rows[rid];
      }
      row := RowOf(tx.store.rows, rid);
      if rid !in tx.staged.expected {
        tx.staged := tx.staged.(expected := tx.staged.expected[rid := row]);
      }
    }

    /** Brings a record's row and entries into line with what it now projects to; no
        row at all drops both. */
    method Stage(tx: Tx, rid: Id, row: Option<Row>)
      modifies tx
      ensures tx.staged == StageRow(indexed, old(tx.staged), tx.store.rows, rid, row)
      ensures tx.staged.rows == old(tx.staged.rows)[rid := row]
      ensures rid !in old(tx.staged.rows) && rid !in old(tx.staged.expected) ==>
                tx.staged.expected == old(tx.staged.expected)[rid := if rid in tx.store.rows then Some(tx.store.rows[rid]) else None]
      ensures rid in old(tx.staged.rows) || rid in old(tx.staged.expected) ==> tx.staged.expected == old(tx.staged.expected)
      ensures Consistent(indexed, old(tx.staged)) ==> Consistent(indexed, tx.staged)
    {
      if Consistent(indexed, tx.staged) {
        StagingIsConsistent(indexed, tx.staged, tx.store.rows, rid, row);
      }
      var was := CurrentRow(tx, rid);
      tx.staged := tx.staged.(rows := tx.staged.rows[rid := row]);
      StageEntries(tx, rid, was, row);
    }

    /** Slot by slot, takes out what only the old row had and puts in what only the new has. */
    method StageEntries(tx: Tx, rid: Id, was: Option<Row>, row: Option<Row>)
      modifies tx
      ensures tx.staged == old(tx.staged).(entries :=
                old(tx.staged.entries) + Withdrawn(indexed, was, row, rid) + Written(indexed, row, rid))
    {
      var entries := tx.staged.entries;
      ghost var before := entries;
      var i := 0;
      while i < |indexed|
        invariant 0 <= i <= |indexed| && tx.staged == old(tx.staged)
        invariant AllReconciled(indexed[..i], was, row, rid, before, entries)
      {
        var slot := indexed[i];
        SlotReconciles(indexed[..i], slot, was, row, rid, before, entries);
        var hadOld, hasNew := Holds(was, slot), Holds(row, slot);
        if hadOld && (!hasNew || was.value[slot] != row.value[slot]) {
          entries := entries[Entry(slot, was.value[slot], rid) := false];
        }
        if hasNew {
          entries := entries[Entry(slot, row.value[slot], rid) := true];
        }
        assert indexed[..i + 1] == indexed[..i] + [slot];
        i := i + 1;
      }
      assert indexed[..i] == indexed;
      ReconciledEntries(indexed, was, row, rid, before, entries);
      tx.staged := tx.staged.(entries := entries);
    }
  }

  ghost predicate AllReconciled(slots: seq<Slot>, was: Option<Row>, row: Option<Row>, rid: Id,
                                before: map<Entry, bool>, after: map<Entry, bool>) {
    forall e: Entry :: Reconciled(slots, was, row, rid, before, after, e)
  }

  /** One slot's two writes. */
  function SlotWrites(slot: Slot, was: Option<Row>, row: Option<Row>, rid: Id, entries: map<Entry, bool>): map<Entry, bool> {
    var withdrawn :=
      if Holds(was, slot) && (!Holds(row, slot) || was.value[slot] != row.value[slot])
      then entries[Entry(slot, was.value[slot], rid) := false] else entries;
    if Holds(row, slot) then withdrawn[Entry(slot, row.value[slot], rid) := true] else withdrawn
  }

  lemma SlotReconciles(slots: seq<Slot>, slot: Slot, was: Option<Row>, row: Option<Row>, rid: Id,
                       before: map<Entry, bool>, sofar: map<Entry, bool>)
    requires AllReconciled(slots, was, row, rid, before, sofar)
    ensures AllReconciled(slots + [slot], was, row, rid, before, SlotWrites(slot, was, row, rid, sofar))
  {
    forall e: Entry
      ensures Reconciled(slots + [slot], was, row, rid, before, SlotWrites(slot, was, row, rid, sofar), e)
    {
      assert Reconciled(slots, was, row, rid, before, sofar, e);
    }
  }

  lemma ReconciledEntries(indexed: seq<Slot>, was: Option<Row>, row: Option<Row>, rid: Id,
                          before: map<Entry, bool>, after: map<Entry, bool>)
    requires AllReconciled(indexed, was, row, rid, before, after)
    ensures after == before + Withdrawn(indexed, was, row, rid) + Written(indexed, row, rid)
  {
    var result := before + Withdrawn(indexed, was, row, rid) + Written(indexed, row, rid);
    forall e: Entry
      ensures (e in after <==> e in result) && (e in after ==> after[e] == result[e])
    {
      assert Reconciled(indexed, was, row, rid, before, after, e);
      EntryChanges(indexed, was, row, rid, e);
    }
  }

  /** One entry's staged write, once the given slots have been gone through. */
  predicate Reconciled(slots: seq<Slot>, was: Option<Row>, row: Option<Row>, rid: Id,
                       before: map<Entry, bool>, after: map<Entry, bool>, e: Entry) {
    if e.rid == rid && Calls(slots, row, e) then e in after && after[e]
    else if e.rid == rid && Calls(slots, was, e) then e in after && !after[e]
    else if e in before then e in after && after[e] == before[e]
    else e !in after
  }
}
