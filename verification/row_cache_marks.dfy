/** The staging marks, exactly: every mark in a shard belongs to a write of that row that
    has begun and not yet given it back, and each such write has one. With nothing in
    flight nothing is quiesced. */
module RowCacheMarks {
  import opened RowCacheShard
  import opened RowCacheGate
  import opened RowCacheProtocol

  predicate Open(ws: Writers, w: nat, k: RowKey) {
    w in ws && ws[w].key == k && (ws[w].phase.Staged? || ws[w].phase.Bumped?)
  }

  predicate Once(marks: seq<nat>) {
    forall i, j | 0 <= i < j < |marks| :: marks[i] != marks[j]
  }

  /** A row's marks are open writes of it, one each. */
  predicate Owned(marks: seq<nat>, k: RowKey, ws: Writers) {
    Once(marks) && forall w | w in marks :: Open(ws, w, k)
  }

  /** A row is listed as marked only in its own shard, and only with a mark. */
  ghost predicate ShardMarks(sh: Shard, of: RowKey -> nat, i: nat, ws: Writers) {
    forall k | k in sh.staged :: of(k) == i && sh.staged[k] != [] && Owned(sh.staged[k], k, ws)
  }

  ghost predicate MarksBelong(shards: Shards, ws: Writers)
    requires shards.Ok()
  {
    forall i | 0 <= i < SHARDS :: ShardMarks(shards.at[i], shards.of, i, ws)
  }

  // --- one shard ------------------------------------------------------------------------------

  lemma MarkedAgain(sh: Shard, k: RowKey, w: nat, ws: Writers)
    requires Owned(Marks(sh, k), k, ws) && WriterAt(ws, w, ToMark) && ws[w].key == k
    ensures var after := MarkRow(sh, k, w);
            && after.staged == sh.staged[k := Marks(sh, k) + [w]]
            && Owned(after.staged[k], k, Phased(ws, w, Staged))
  {
    assert w !in Marks(sh, k);
  }

  lemma {:induction false} OnceCounts(marks: seq<nat>, w: nat)
    requires Once(marks)
    ensures multiset(marks)[w] == if w in marks then 1 else 0
  {
    if marks != [] {
      var init, last := marks[..|marks| - 1], marks[|marks| - 1];
      OnceCounts(init, w);
      assert marks == init + [last];
      assert last !in init;
    }
  }

  lemma {:induction false} CountsOnce(marks: seq<nat>)
    requires forall w :: multiset(marks)[w] <= 1
    ensures Once(marks)
  {
    forall i, j | 0 <= i < j < |marks|
      ensures marks[i] != marks[j]
    {
      assert marks == marks[..i] + [marks[i]] + marks[i + 1..j] + [marks[j]] + marks[j + 1..];
      assert marks[i] == marks[j] ==> multiset(marks)[marks[i]] >= 2;
    }
  }

  /** Giving a mark back takes it off for good, and leaves the others. */
  lemma GivenBack(marks: seq<nat>, w: nat)
    requires Once(marks) && w in marks
    ensures Once(WithoutMark(marks, w)) && forall v :: v in WithoutMark(marks, w) <==> v in marks && v != w
  {
    var left := WithoutMark(marks, w);
    WithoutMarkIsOneLess(marks, w);
    forall v
      ensures multiset(left)[v] == if v in marks && v != w then 1 else 0
      ensures v in left <==> v in marks && v != w
    {
      OnceCounts(marks, v);
      assert v in left <==> v in multiset(left);
    }
    CountsOnce(left);
  }

  lemma FinishedRow(sh: Shard, k: RowKey, w: nat, ws: Writers)
    requires Owned(Marks(sh, k), k, ws) && Open(ws, w, k)
    ensures var after := FinishRow(sh, k, w);
            && (forall x | x != k :: x in after.staged <==> x in sh.staged)
            && (forall x | x != k && x in sh.staged :: after.staged[x] == sh.staged[x])
            && Owned(Marks(after, k), k, Phased(ws, w, Unmarked))
            && (k in after.staged ==> after.staged[k] != [] || (k in sh.staged && sh.staged[k] == []))
  {
    if w in Marks(sh, k) {
      GivenBack(Marks(sh, k), w);
    }
  }

  // --- every step keeps it -----------------------------------------------------------------------

  lemma OwnersMove(marks: seq<nat>, k: RowKey, ws: Writers, next: Writers)
    requires Owned(marks, k, ws) && forall w | Open(ws, w, k) :: Open(next, w, k)
    ensures Owned(marks, k, next)
  {
    forall w | w in marks
      ensures Open(next, w, k)
    {
      assert Open(ws, w, k);
    }
  }

  lemma WritersMove(shards: Shards, ws: Writers, next: Writers)
    requires shards.Ok() && MarksBelong(shards, ws)
    requires forall w, k | Open(ws, w, k) :: Open(next, w, k)
    ensures MarksBelong(shards, next)
  {
    forall i | 0 <= i < SHARDS
      ensures ShardMarks(shards.at[i], shards.of, i, next)
    {
      assert ShardMarks(shards.at[i], shards.of, i, ws);
      forall k | k in shards.at[i].staged
        ensures Owned(shards.at[i].staged[k], k, next)
      {
        OwnersMove(shards.at[i].staged[k], k, ws, next);
      }
    }
  }

  /** A change to one shard is judged by that shard. */
  lemma ShardReplaced(shards: Shards, i: nat, sh: Shard, ws: Writers)
    requires shards.Ok() && i < SHARDS && ShardMarks(sh, shards.of, i, ws)
    requires forall j | 0 <= j < SHARDS && j != i :: ShardMarks(shards.at[j], shards.of, j, ws)
    ensures Shards(shards.of, shards.at[i := sh]).Ok() && MarksBelong(Shards(shards.of, shards.at[i := sh]), ws)
  {
    var after := Shards(shards.of, shards.at[i := sh]);
    forall j | 0 <= j < SHARDS
      ensures ShardMarks(after.at[j], after.of, j, ws)
    {
      assert j != i ==> after.at[j] == shards.at[j];
    }
  }

  lemma MarkKeepsMarks(shards: Shards, ws: Writers, w: nat)
    requires shards.Ok() && MarksBelong(shards, ws) && WriterAt(ws, w, ToMark)
    ensures var k := ws[w].key; MarksBelong(shards.With(k, MarkRow(shards.For(k), k, w)), Phased(ws, w, Staged))
  {
    var k := ws[w].key;
    var i, next := shards.of(k), Phased(ws, w, Staged);
    assert ShardMarks(shards.at[i], shards.of, i, ws);
    MarkedAgain(shards.at[i], k, w, ws);
    WritersMove(shards, ws, next);
    assert ShardMarks(shards.at[i], shards.of, i, next);
    ShardReplaced(shards, i, MarkRow(shards.at[i], k, w), next);
  }

  /** Other rows' marks are not this write's. */
  lemma OthersKeepOwners(sh: Shard, of: RowKey -> nat, i: nat, ws: Writers, w: nat)
    requires ShardMarks(sh, of, i, ws) && w in ws
    ensures forall k | k in sh.staged && k != ws[w].key :: Owned(sh.staged[k], k, Phased(ws, w, Unmarked))
  {
    forall k | k in sh.staged && k != ws[w].key
      ensures Owned(sh.staged[k], k, Phased(ws, w, Unmarked))
    {
      OwnersMove(sh.staged[k], k, ws, Phased(ws, w, Unmarked));
    }
  }

  lemma UnmarkKeepsMarks(shards: Shards, ws: Writers, w: nat)
    requires shards.Ok() && MarksBelong(shards, ws) && WriterAt(ws, w, Bumped)
    ensures var k := ws[w].key; MarksBelong(shards.With(k, FinishRow(shards.For(k), k, w)), Phased(ws, w, Unmarked))
  {
    var k := ws[w].key;
    var i, next := shards.of(k), Phased(ws, w, Unmarked);
    forall j | 0 <= j < SHARDS
      ensures j != i ==> ShardMarks(shards.at[j], shards.of, j, next)
      ensures forall x | x in shards.at[j].staged && x != k :: Owned(shards.at[j].staged[x], x, next)
    {
      assert ShardMarks(shards.at[j], shards.of, j, ws);
      OthersKeepOwners(shards.at[j], shards.of, j, ws, w);
    }
    assert ShardMarks(shards.at[i], shards.of, i, ws);
    FinishedRow(shards.at[i], k, w, ws);
    ShardReplaced(shards, i, FinishRow(shards.at[i], k, w), next);
  }

  lemma StagedAlike(shards: Shards, after: Shards, ws: Writers)
    requires shards.Ok() && after.Ok() && after.of == shards.of && MarksBelong(shards, ws)
    requires forall i | 0 <= i < SHARDS :: after.at[i].staged == shards.at[i].staged || after.at[i].staged == map[]
    ensures MarksBelong(after, ws)
  {
    forall i | 0 <= i < SHARDS
      ensures ShardMarks(after.at[i], after.of, i, ws)
    {
      assert ShardMarks(shards.at[i], shards.of, i, ws);
    }
  }

  lemma FinishKeepsMarks(shards: Shards, rd: Reader, ws: Writers)
    requires shards.Ok() && MarksBelong(shards, ws)
    requires rd.call.Busy? && rd.snap.Some? && (rd.call.purpose.Offer? ==> rd.call.key in rd.snap.value)
    ensures MarksBelong(Used(shards, rd), ws)
  {
    assert forall i | 0 <= i < SHARDS :: Used(shards, rd).at[i].staged == shards.at[i].staged;
    StagedAlike(shards, Used(shards, rd), ws);
  }

  lemma LeaveKeepsMarks(s: State, w: nat)
    requires s.shards.Ok() && MarksBelong(s.shards, s.writers) && WriterAt(s.writers, w, Unmarked)
    ensures DoLeave(s, w).shards.Ok() && MarksBelong(DoLeave(s, w).shards, DoLeave(s, w).writers)
  {
    WritersMove(s.shards, s.writers, s.writers - {w});
    StagedAlike(s.shards, DoLeave(s, w).shards, s.writers - {w});
  }

  lemma BeginKeepsMarks(s: State, k: RowKey)
    requires s.shards.Ok() && MarksBelong(s.shards, s.writers) && s.nextSeq !in s.writers
    ensures MarksBelong(s.shards, DoBegin(s, k).writers)
  {
    WritersMove(s.shards, s.writers, DoBegin(s, k).writers);
  }

  lemma PhaseKeepsMarks(shards: Shards, ws: Writers, w: nat, p: Phase)
    requires shards.Ok() && MarksBelong(shards, ws) && w in ws && (p.Staged? || p.Bumped?)
    ensures MarksBelong(shards, Phased(ws, w, p))
  {
    WritersMove(shards, ws, Phased(ws, w, p));
  }

  /** Beginning, clearing, marking, moving the generation, unmarking, leaving and reading all
      keep each mark with its write. */
  lemma StepKeepsMarks(s: State, step: Step)
    requires s.nextSeq !in s.writers && Enabled(s, step) && MarksBelong(s.shards, s.writers)
    ensures Do(s, step).shards.Ok() && MarksBelong(Do(s, step).shards, Do(s, step).writers)
  {
    match step
    case BeginWrite(k) => BeginKeepsMarks(s, k);
    case ClearShard => StagedAlike(s.shards, s.shards.Emptied(s.clear.value.next), s.writers);
    case ClearDone => PhaseKeepsMarks(s.shards, s.writers, s.clear.value.writer, Staged);
    case Mark(w) => MarkKeepsMarks(s.shards, s.writers, w);
    case Bump(w) => PhaseKeepsMarks(s.shards, s.writers, w, Bumped);
    case Unmark(w) => UnmarkKeepsMarks(s.shards, s.writers, w);
    case LeaveGate(w) => LeaveKeepsMarks(s, w);
    case Finish(r) => FinishKeepsMarks(s.shards, s.readers[r], s.writers);
    case _ =>
  }

  lemma {:induction false} RunKeepsMarks(states: seq<State>, steps: seq<Step>, n: nat)
    requires Run(states, steps) && n <= |steps|
    ensures Inv(states[n]) && MarksBelong(states[n].shards, states[n].writers)
  {
    RunKeeps(states, steps, n);
    if n > 0 {
      RunKeepsMarks(states, steps, n - 1);
      StepKeepsMarks(states[n - 1], steps[n - 1]);
    }
  }

  /** In every run, a row's marks are, one each, open writes of that row; and while the
      cache is on, all of them. */
  lemma MarksAreTheOpenWrites(states: seq<State>, steps: seq<Step>, n: nat, k: RowKey)
    requires Run(states, steps) && n <= |steps|
    ensures states[n].shards.Ok()
    ensures var marks := Marks(states[n].shards.For(k), k);
            && Once(marks) && (forall w | w in marks :: Open(states[n].writers, w, k))
            && (!states[n].gate.disabled ==> forall w | Open(states[n].writers, w, k) :: w in marks)
  {
    RunKeepsMarks(states, steps, n);
    var shards := states[n].shards;
    assert ShardMarks(shards.at[shards.of(k)], shards.of, shards.of(k), states[n].writers);
  }

  lemma MarkedRowsAreOpen(sh: Shard, of: RowKey -> nat, i: nat, ws: Writers)
    requires ShardMarks(sh, of, i, ws)
    ensures forall k | k in sh.staged :: exists w :: Open(ws, w, k)
  {
    forall k | k in sh.staged
      ensures exists w :: Open(ws, w, k)
    {
      assert Open(ws, sh.staged[k][0], k);
    }
  }

  /** In every run, with no write in flight no row is marked. */
  lemma NothingInFlightNothingMarked(states: seq<State>, steps: seq<Step>, n: nat, i: nat)
    requires Run(states, steps) && n <= |steps| && i < SHARDS && states[n].writers == map[]
    ensures states[n].shards.Ok() && states[n].shards.at[i].staged == map[]
  {
    RunKeepsMarks(states, steps, n);
    var shards := states[n].shards;
    assert ShardMarks(shards.at[i], shards.of, i, states[n].writers);
    MarkedRowsAreOpen(shards.at[i], shards.of, i, states[n].writers);
  }
}
