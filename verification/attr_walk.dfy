/** The walk itself: an iterator over a key range, one bounded page of a selection,
    and the pages of a whole selection. */
module AttrWalk {
  import opened Prelude
  import opened AttrValue
  import opened ByteOrder
  import opened ValueOrder
  import opened AttrPredicate
  import opened AttrSelect
  import AttrIndex

  /** A cursor over the keys of a frozen state that lie in a range. */
  class Iterator {
    const window: seq<Bytes>
    var pos: int

    ghost predicate Valid()
      reads this
    {
      Sorted(window) && -1 <= pos <= |window|
    }

    predicate At()
      reads this
    {
      0 <= pos < |window|
    }

    constructor (keys: seq<Bytes>, lower: Bytes, upper: Option<Bytes>)
      requires Sorted(keys)
      ensures Valid()
      ensures forall k :: k in window <==> k in keys && InRange(k, lower, upper)
    {
      var kept: seq<Bytes> := [];
      var i := 0;
      while i < |keys|
        invariant 0 <= i <= |keys| && Sorted(kept)
        invariant forall k :: k in kept <==> k in keys[..i] && InRange(k, lower, upper)
      {
        assert keys[..i + 1] == keys[..i] + [keys[i]];
        if InRange(keys[i], lower, upper) {
          forall j | 0 <= j < |kept|
            ensures Lt(kept[j], keys[i])
          {
            assert kept[j] in keys[..i];
          }
          kept := kept + [keys[i]];
        }
        i := i + 1;
      }
      assert keys[..i] == keys;
      window := kept;
      pos := -1;
    }

    method First() returns (ok: bool)
      requires Valid()
      modifies this
      ensures Valid() && pos == 0 && ok == At()
    {
      pos := 0;
      ok := At();
    }

    method Last() returns (ok: bool)
      requires Valid()
      modifies this
      ensures Valid() && pos == |window| - 1 && ok == At()
    {
      pos := |window| - 1;
      ok := At();
    }

    /** Goes to the least key that is not before the one asked for. */
    method SeekGE(key: Bytes) returns (ok: bool)
      requires Valid()
      modifies this
      ensures Valid() && ok == At() && pos >= 0
      ensures forall i | 0 <= i < |window| :: Lt(window[i], key) <==> i < pos
    {
      pos := 0;
      while pos < |window| && Lt(window[pos], key)
        invariant 0 <= pos <= |window| && Sorted(window)
        invariant forall i | 0 <= i < pos :: Lt(window[i], key)
      {
        pos := pos + 1;
      }
      ok := At();
      forall i | pos <= i < |window|
        ensures !Lt(window[i], key)
      {
        if Lt(window[i], key) && pos < i {
          Transitive(window[pos], window[i], key);
        }
      }
    }

    /** One step in the direction of the walk. */
    method Advance(desc: bool) returns (ok: bool)
      requires Valid() && At()
      modifies this
      ensures Valid() && pos == (if desc then old(pos) - 1 else old(pos) + 1) && ok == At()
    {
      pos := if desc then pos - 1 else pos + 1;
      ok := At();
    }

    /** Where a walk begins: at the near end for its direction, or just past where it left off. */
    method Seek(sel: Select) returns (ok: bool)
      requires Valid()
      modifies this
      ensures Valid() && ok == At() && (!ok ==> pos == if sel.desc then -1 else |window|)
      ensures forall i | 0 <= i < |window| :: Beyond(sel, window[i]) <==> !Passed(sel.desc, i, pos)
    {
      if sel.after.None? {
        if sel.desc {
          ok := Last();
        } else {
          ok := First();
        }
        return;
      }
      var at := EntryKey(Prefix(sel), sel.after.value);
      if sel.desc {
        ok := SeekGE(at);
        if ok {
          ok := Advance(true);
        } else {
          ok := Last();
        }
      } else {
        ok := SeekGE(at + [0]);
        forall i | 0 <= i < |window|
          ensures Beyond(sel, window[i]) <==> !Passed(sel.desc, i, pos)
        {
          SuccessorIsNext(at, window[i]);
          Total(window[i], at + [0]);
          if Lt(window[i], at + [0]) && Le(at + [0], window[i]) {
            Irreflexive(at + [0]);
            Asymmetric(window[i], at + [0]);
          }
        }
      }
    }
  }

  /** The walk has gone past an index of the window. */
  predicate Passed(desc: bool, i: int, pos: int) {
    if desc then i > pos else i < pos
  }

  /** A page is exact: in order, and holding precisely the hits strictly after the
      resume point and, unless the walk is over, up to where it stopped. It moves on,
      so that resuming from its end makes progress. */
  ghost predicate PageIs(snap: Snapshot, sel: Select, page: Page) {
    && InOrder(sel, page.positions)
    && |page.ids| == |page.positions| <= sel.limit
    && (forall i | 0 <= i < |page.ids| :: page.ids[i] == page.positions[i].id)
    && (forall p: Position :: p in page.positions <==>
          Hit(snap, sel, p) && Beyond(sel, EntryKey(Prefix(sel), p)) && (page.exhausted || Covered(sel, page.next, p)))
    && (!page.exhausted ==>
          && page.next.Some? && EntryKey(Prefix(sel), page.next.value) in snap.keys
          && Beyond(sel, EntryKey(Prefix(sel), page.next.value)))
    && (page.truncated ==> !page.exhausted && page.examined == if sel.effort <= 0 then sel.limit else sel.effort)
    && page.examined <= (if sel.effort <= 0 then sel.limit else sel.effort)
    && (page.exhausted <==> !page.truncated && |page.positions| < sel.limit)
  }

  function Effort(sel: Select): int {
    if sel.effort <= 0 then sel.limit else sel.effort
  }

  /** At or before the last candidate examined. */
  predicate Covered(sel: Select, next: Option<Position>, p: Position) {
    next.Some? && !Ahead(sel.desc, EntryKey(Prefix(sel), next.value), EntryKey(Prefix(sel), p))
  }

  // --- the state of a walk -------------------------------------------------------------------

  /** Between candidates: what is passed was not wanted or has been examined, what is
      not lies ahead; and the page holds exactly the hits examined. */
  ghost predicate Walking(snap: Snapshot, sel: Select, window: seq<Bytes>, pos: int, found: seq<Position>, next: Option<Position>) {
    && InOrder(sel, found)
    && (forall p: Position :: p in found <==> Hit(snap, sel, p) && Beyond(sel, EntryKey(Prefix(sel), p)) && Covered(sel, next, p))
    && (next.Some? ==>
          && EntryKey(Prefix(sel), next.value) in snap.keys && Beyond(sel, EntryKey(Prefix(sel), next.value)))
    && (forall i | 0 <= i < |window| && Passed(sel.desc, i, pos) && Beyond(sel, window[i]) ::
          next.Some? && !Ahead(sel.desc, EntryKey(Prefix(sel), next.value), window[i]))
    && (forall i | 0 <= i < |window| && !Passed(sel.desc, i, pos) ::
          Beyond(sel, window[i]) && (next.Some? ==> Ahead(sel.desc, EntryKey(Prefix(sel), next.value), window[i])))
  }

  /** Every hit is a key of the window. */
  ghost predicate Encloses(snap: Snapshot, sel: Select, window: seq<Bytes>) {
    && (forall p: Position :: Hit(snap, sel, p) ==> EntryKey(Prefix(sel), p) in window)
    && (forall k | k in window :: k in snap.keys && Prefix(sel) <= k)
  }

  lemma AheadOrders(desc: bool, a: Bytes, b: Bytes, c: Bytes)
    ensures Ahead(desc, a, b) || a == b || Ahead(desc, b, a)
    ensures Ahead(desc, a, b) ==> a != b && !Ahead(desc, b, a)
    ensures Ahead(desc, a, b) && Ahead(desc, b, c) ==> Ahead(desc, a, c)
  {
    Total(a, b);
    if Lt(a, b) {
      Asymmetric(a, b);
    }
    if Lt(b, a) {
      Asymmetric(b, a);
    }
    if Lt(a, b) && Lt(b, c) {
      Transitive(a, b, c);
    }
    if Lt(c, b) && Lt(b, a) {
      Transitive(c, b, a);
    }
  }

  /** Examining the current candidate covers it and no other hit. */
  lemma NextCovers(snap: Snapshot, sel: Select, window: seq<Bytes>, pos: int, found: seq<Position>, next: Option<Position>, at: Position, p: Position)
    requires Sorted(window) && Encloses(snap, sel, window) && Walking(snap, sel, window, pos, found, next)
    requires 0 <= pos < |window| && window[pos] == EntryKey(Prefix(sel), at)
    requires Hit(snap, sel, p) && Beyond(sel, EntryKey(Prefix(sel), p))
    ensures Covered(sel, Some(at), p) <==> Covered(sel, next, p) || p == at
  {
    var key := EntryKey(Prefix(sel), p);
    assert key in window;
    var j :| 0 <= j < |window| && window[j] == key;
    AheadOrders(sel.desc, window[pos], window[j], window[j]);
    if j == pos {
      SameEntry(Prefix(sel), p, at);
    } else if Passed(sel.desc, j, pos) {
      assert Ahead(sel.desc, window[j], window[pos]);
    } else {
      assert Ahead(sel.desc, window[pos], window[j]);
    }
  }

  lemma SameEntry(prefix: Bytes, p: Position, q: Position)
    requires EntryKey(prefix, p) == EntryKey(prefix, q)
    ensures p == q
  {
    var key := EntryKey(prefix, p);
    assert prefix <= key;
    EntriesParse(prefix, key, p);
    EntriesParse(prefix, key, q);
  }

  lemma StepAdds(snap: Snapshot, sel: Select, window: seq<Bytes>, pos: int, found: seq<Position>, next: Option<Position>, at: Position, now: seq<Position>)
    requires Sorted(window) && Encloses(snap, sel, window) && Walking(snap, sel, window, pos, found, next)
    requires 0 <= pos < |window| && window[pos] == EntryKey(Prefix(sel), at)
    requires now == if Settles(snap, sel, at) then found + [at] else found
    ensures forall p: Position :: p in now <==> Hit(snap, sel, p) && Beyond(sel, EntryKey(Prefix(sel), p)) && Covered(sel, Some(at), p)
  {
    assert window[pos] in window;
    assert Hit(snap, sel, at) <==> Settles(snap, sel, at);
    assert !Passed(sel.desc, pos, pos) && Beyond(sel, window[pos]);
    forall p: Position
      ensures p in now <==> Hit(snap, sel, p) && Beyond(sel, EntryKey(Prefix(sel), p)) && Covered(sel, Some(at), p)
    {
      if Hit(snap, sel, p) && Beyond(sel, EntryKey(Prefix(sel), p)) {
        NextCovers(snap, sel, window, pos, found, next, at, p);
      }
    }
  }

  lemma StepOrders(snap: Snapshot, sel: Select, window: seq<Bytes>, pos: int, found: seq<Position>, next: Option<Position>, at: Position)
    requires Walking(snap, sel, window, pos, found, next)
    requires 0 <= pos < |window| && window[pos] == EntryKey(Prefix(sel), at)
    ensures InOrder(sel, found + [at])
  {
    assert !Passed(sel.desc, pos, pos);
    forall i | 0 <= i < |found|
      ensures Ahead(sel.desc, EntryKey(Prefix(sel), found[i]), window[pos])
    {
      assert found[i] in found && Covered(sel, next, found[i]);
      var key, last := EntryKey(Prefix(sel), found[i]), EntryKey(Prefix(sel), next.value);
      AheadOrders(sel.desc, last, key, key);
      AheadOrders(sel.desc, key, last, window[pos]);
    }
  }

  lemma WindowOrder(desc: bool, window: seq<Bytes>, pos: int, i: int)
    requires Sorted(window) && 0 <= pos < |window| && 0 <= i < |window|
    ensures Passed(desc, i, pos) ==> !Ahead(desc, window[pos], window[i])
    ensures i != pos && !Passed(desc, i, pos) ==> Ahead(desc, window[pos], window[i])
    ensures !Ahead(desc, window[pos], window[pos])
  {
    AheadOrders(desc, window[i], window[pos], window[pos]);
    Irreflexive(window[pos]);
  }

  lemma StepOver(snap: Snapshot, sel: Select, window: seq<Bytes>, pos: int, found: seq<Position>, next: Option<Position>, at: Position, now: seq<Position>)
    requires Sorted(window) && Encloses(snap, sel, window) && Walking(snap, sel, window, pos, found, next)
    requires 0 <= pos < |window| && window[pos] == EntryKey(Prefix(sel), at)
    requires now == if Settles(snap, sel, at) then found + [at] else found
    ensures Walking(snap, sel, window, if sel.desc then pos - 1 else pos + 1, now, Some(at))
  {
    StepAdds(snap, sel, window, pos, found, next, at, now);
    StepOrders(snap, sel, window, pos, found, next, at);
    assert window[pos] in window && !Passed(sel.desc, pos, pos);
    forall i | 0 <= i < |window|
      ensures Passed(sel.desc, i, pos) ==> !Ahead(sel.desc, window[pos], window[i])
      ensures i != pos && !Passed(sel.desc, i, pos) ==> Ahead(sel.desc, window[pos], window[i])
    {
      WindowOrder(sel.desc, window, pos, i);
    }
    WindowOrder(sel.desc, window, pos, pos);
  }

  /** When the iterator has run out, every hit still wanted has been found. */
  lemma NothingLeft(snap: Snapshot, sel: Select, window: seq<Bytes>, pos: int, found: seq<Position>, next: Option<Position>)
    requires Encloses(snap, sel, window) && Walking(snap, sel, window, pos, found, next)
    requires -1 <= pos <= |window| && !(0 <= pos < |window|)
    requires forall i | 0 <= i < |window| :: Passed(sel.desc, i, pos)
    ensures forall p: Position :: p in found <==> Hit(snap, sel, p) && Beyond(sel, EntryKey(Prefix(sel), p))
  {
    forall p: Position | Hit(snap, sel, p) && Beyond(sel, EntryKey(Prefix(sel), p))
      ensures p in found
    {
      var key := EntryKey(Prefix(sel), p);
      assert key in window;
      var j :| 0 <= j < |window| && window[j] == key;
    }
  }

  // --- one page --------------------------------------------------------------------------------

  /** Gathers up to a page of matching records in order. It fails only on a request it
      cannot serve, or on meeting an index key shorter than an id. */
  method Run(snap: Snapshot, sel: Select, ghost types: map<Slot, SlotType>) returns (r: Result<Page>)
    requires Sorted(snap.keys) && TypedQuery(snap, sel, types)
    ensures r.Ok? ==> PageIs(snap, sel, r.value)
    ensures r.Err? ==>
              || sel.tenant == [] || sel.limit <= 0
              || exists k | k in snap.keys :: Prefix(sel) <= k && |k| < |Prefix(sel)| + ID_LEN
    ensures sel.tenant == [] || sel.limit <= 0 ==> r == Err(Invalid)
  {
    if sel.tenant == [] || sel.limit <= 0 {
      return Err(Invalid);
    }
    var effort := if sel.effort <= 0 then sel.limit else sel.effort;
    var prefix, rangeEnd := PrefixRange(Prefix(sel));
    var range := Narrow(prefix, rangeEnd, sel.preds, sel.slot);
    forall p: Position | Settles(snap, sel, p)
      ensures range.Some? && InRange(EntryKey(prefix, p), range.value.0, range.value.1)
    {
      NarrowNeverDrops(snap, sel, p, types);
    }
    if range.None? {
      return Ok(Page([], [], 0, None, true, false));
    }
    var it := new Iterator(snap.keys, range.value.0, range.value.1);
    NarrowStaysInside(sel);
    assert Encloses(snap, sel, it.window);
    r := Walk(it, snap, sel, effort);
  }

  lemma NarrowStaysInside(sel: Select)
    ensures var range := RangeOf(Prefix(sel), SpanEnd(Prefix(sel)), BoundsOfAll(sel.preds, sel.slot));
            range.Some? ==> forall k | InRange(k, range.value.0, range.value.1) :: Prefix(sel) <= k
  {
    var prefix, b := Prefix(sel), BoundsOfAll(sel.preds, sel.slot);
    var range := RangeOf(prefix, SpanEnd(prefix), b);
    PrefixHasEnd(sel);
    if range.Some? {
      forall k | InRange(k, range.value.0, range.value.1)
        ensures prefix <= k
      {
        LowerIsInside(prefix, b.lo);
        LeTransitive(prefix, range.value.0, k);
        UpperIsInside(prefix, b.hi, k);
      }
    }
  }

  lemma LowerIsInside(prefix: Bytes, b: Bound)
    requires SpanEnd(prefix).Some?
    ensures LowerOf(prefix, b).Some? ==> Le(prefix, LowerOf(prefix, b).value)
  {
    if b.at.Some? {
      var at := prefix + OrderBytes(b.at.value);
      PrefixIsLeast(prefix, OrderBytes(b.at.value));
      SpanEndOfLonger(prefix, OrderBytes(b.at.value));
      PrefixBounds(at, at);
      LeTransitive(prefix, at, SpanEnd(at).value);
    }
  }

  lemma UpperIsInside(prefix: Bytes, b: Bound, k: Bytes)
    requires SpanEnd(prefix).Some? && Le(prefix, k)
    requires var upper := UpperOf(prefix, SpanEnd(prefix), b); upper.Some? ==> Lt(k, upper.value)
    ensures prefix <= k
  {
    PrefixBounds(prefix, k);
    if b.at.Some? {
      var at := prefix + OrderBytes(b.at.value);
      SpanEndOfLonger(prefix, OrderBytes(b.at.value));
      PrefixBounds(at, k);
      PrefixBounds(prefix, at);
      Total(k, at);
      if Lt(k, at) {
        Transitive(k, at, SpanEnd(prefix).value);
      }
    }
  }

  /** The hits examined so far make a page, whichever of the three ends the walk met. */
  lemma StoppedPage(snap: Snapshot, sel: Select, window: seq<Bytes>, pos: int, page: Page)
    requires Encloses(snap, sel, window) && Walking(snap, sel, window, pos, page.positions, page.next)
    requires -1 <= pos <= |window| && page.examined <= Effort(sel)
    requires |page.ids| == |page.positions| <= sel.limit
    requires forall i | 0 <= i < |page.ids| :: page.ids[i] == page.positions[i].id
    requires page.exhausted <==> !page.truncated && |page.positions| < sel.limit
    requires page.truncated ==> page.examined == Effort(sel)
    requires page.exhausted ==> !(0 <= pos < |window|) && forall i | 0 <= i < |window| :: Passed(sel.desc, i, pos)
    requires !page.exhausted ==> page.next.Some?
    ensures PageIs(snap, sel, page)
  {
    if page.exhausted {
      NothingLeft(snap, sel, window, pos, page.positions, page.next);
    }
  }

  predicate SameIds(ids: seq<Id>, positions: seq<Position>) {
    |ids| == |positions| && forall i | 0 <= i < |ids| :: ids[i] == positions[i].id
  }

  /** One candidate: its row decides whether it joins the page. */
  method Examine(it: Iterator, snap: Snapshot, sel: Select, positions: seq<Position>, ids: seq<Id>, next: Option<Position>)
    returns (at: Result<Position>, found: seq<Position>, foundIds: seq<Id>)
    requires it.Valid() && it.At() && Encloses(snap, sel, it.window) && SameIds(ids, positions)
    requires Walking(snap, sel, it.window, it.pos, positions, next)
    ensures at.Err? ==> exists k | k in snap.keys :: Prefix(sel) <= k && |k| < |Prefix(sel)| + ID_LEN
    ensures at.Ok? ==>
              && Walking(snap, sel, it.window, if sel.desc then it.pos - 1 else it.pos + 1, found, Some(at.value))
              && SameIds(foundIds, found) && |positions| <= |found| <= |positions| + 1
  {
    found, foundIds := positions, ids;
    var key := it.window[it.pos];
    assert key in it.window;
    at := ParseEntry(key, Prefix(sel));
    if at.Err? {
      return;
    }
    EntriesParse(Prefix(sel), key, at.value);
    if Settles(snap, sel, at.value) {
      foundIds, found := ids + [at.value.id], positions + [at.value];
    }
    StepOver(snap, sel, it.window, it.pos, positions, next, at.value, found);
  }

  /** The loop over candidates. */
  method Walk(it: Iterator, snap: Snapshot, sel: Select, effort: int) returns (r: Result<Page>)
    requires it.Valid() && Encloses(snap, sel, it.window)
    requires sel.limit >= 1 && effort == Effort(sel)
    modifies it
    ensures r.Ok? ==> PageIs(snap, sel, r.value)
    ensures r.Err? ==> exists k | k in snap.keys :: Prefix(sel) <= k && |k| < |Prefix(sel)| + ID_LEN
  {
    var positions: seq<Position>, ids: seq<Id> := [], [];
    var examined: nat, next: Option<Position>, truncated := 0, None, false;
    var ok := it.Seek(sel);
    while ok
      invariant it.Valid() && ok == it.At() && SameIds(ids, positions) && |positions| < sel.limit
      invariant Walking(snap, sel, it.window, it.pos, positions, next)
      invariant examined <= effort && (examined > 0 <==> next.Some?)
      invariant !ok ==> it.pos == if sel.desc then -1 else |it.window|
      decreases if sel.desc then it.pos + 1 else |it.window| - it.pos
    {
      if examined >= effort {
        truncated := true;
        break;
      }
      var at;
      at, positions, ids := Examine(it, snap, sel, positions, ids, next);
      if at.Err? {
        return Err(at.error);
      }
      examined, next := examined + 1, Some(at.value);
      if |ids| == sel.limit {
        r := Ok(Page(ids, positions, examined, next, false, false));
        StoppedPage(snap, sel, it.window, if sel.desc then it.pos - 1 else it.pos + 1, r.value);
        return;
      }
      ok := it.Advance(sel.desc);
    }
    r := Ok(Page(ids, positions, examined, next, !truncated && |ids| < sel.limit, truncated));
    StoppedPage(snap, sel, it.window, it.pos, r.value);
  }

  // --- a whole selection -----------------------------------------------------------------------

  /** The index entries of the slot are exactly those its rows call for. */
  ghost predicate ExactIndex(snap: Snapshot, sel: Select) {
    && (forall k | k in snap.keys && Prefix(sel) <= k :: |k| >= |Prefix(sel)| + ID_LEN)
    && (forall p: Position :: EntryKey(Prefix(sel), p) in snap.keys <==>
          p.id in snap.rows && sel.slot in snap.rows[p.id] && OrderBytes(snap.rows[p.id][sel.slot]) == p.value)
  }

  /** The snapshot's keys of a slot are the keys of that slot's index entries. */
  ghost predicate Stores(snap: Snapshot, sel: Select, entries: set<AttrIndex.Entry>) {
    forall k :: k in snap.keys && Prefix(sel) <= k <==>
      exists e | e in entries :: e.slot == sel.slot && k == EntryKey(Prefix(sel), Position(OrderBytes(e.value), e.rid))
  }

  /** What the writers keep is what the walk needs: where entries are exactly what the
      rows call for and the store holds their keys, the walk's index is exact. */
  lemma MaintainedIndexIsExact(snap: Snapshot, sel: Select, indexed: seq<Slot>, entries: set<AttrIndex.Entry>)
    requires AttrIndex.Exact(indexed, snap.rows, entries) && sel.slot in indexed && Stores(snap, sel, entries)
    ensures ExactIndex(snap, sel)
  {
    var prefix := Prefix(sel);
    forall k | k in snap.keys && prefix <= k
      ensures |k| >= |prefix| + ID_LEN
    {
      var e :| e in entries && e.slot == sel.slot && k == EntryKey(prefix, Position(OrderBytes(e.value), e.rid));
    }
    forall p: Position
      ensures EntryKey(prefix, p) in snap.keys <==>
              p.id in snap.rows && sel.slot in snap.rows[p.id] && OrderBytes(snap.rows[p.id][sel.slot]) == p.value
    {
      EntryIsStored(snap, sel, indexed, entries, p);
    }
  }

  lemma EntryIsStored(snap: Snapshot, sel: Select, indexed: seq<Slot>, entries: set<AttrIndex.Entry>, p: Position)
    requires AttrIndex.Exact(indexed, snap.rows, entries) && sel.slot in indexed && Stores(snap, sel, entries)
    ensures EntryKey(Prefix(sel), p) in snap.keys <==>
            p.id in snap.rows && sel.slot in snap.rows[p.id] && OrderBytes(snap.rows[p.id][sel.slot]) == p.value
  {
    var key := EntryKey(Prefix(sel), p);
    assert Prefix(sel) <= key;
    if key in snap.keys {
      var e :| e in entries && e.slot == sel.slot && key == EntryKey(Prefix(sel), Position(OrderBytes(e.value), e.rid));
      SameEntry(Prefix(sel), p, Position(OrderBytes(e.value), e.rid));
      assert AttrIndex.Calls(indexed, AttrIndex.RowOf(snap.rows, e.rid), e);
    }
    if p.id in snap.rows && sel.slot in snap.rows[p.id] && OrderBytes(snap.rows[p.id][sel.slot]) == p.value {
      var e := AttrIndex.Entry(sel.slot, snap.rows[p.id][sel.slot], p.id);
      assert AttrIndex.Calls(indexed, AttrIndex.RowOf(snap.rows, e.rid), e);
      assert e in entries && key == EntryKey(Prefix(sel), Position(OrderBytes(e.value), e.rid));
    }
  }

  /** The keys a walk from a position could still visit. */
  function Remaining(keys: seq<Bytes>, sel: Select): set<Bytes> {
    set k | k in keys && Beyond(sel, k)
  }

  /** Resuming strictly after a page's end, page after page, until a page says the walk
      is over: this ends, and gives every record that satisfies the predicates once, in
      order, whatever the direction, the limit and the effort. */
  method Chain(snap: Snapshot, sel: Select, ghost types: map<Slot, SlotType>) returns (out: seq<Position>)
    requires Sorted(snap.keys) && TypedQuery(snap, sel, types) && ExactIndex(snap, sel)
    requires sel.tenant != [] && sel.limit >= 1
    ensures IsAnswer(snap, sel, out)
  {
    out := [];
    var cur := sel;
    while true
      invariant cur == sel.(after := cur.after) && InOrder(sel, out)
      invariant cur.after == sel.after || (cur.after.Some? && Beyond(sel, EntryKey(Prefix(sel), cur.after.value)))
      invariant forall p: Position :: p in out <==>
                  Hit(snap, sel, p) && Beyond(sel, EntryKey(Prefix(sel), p)) && !Beyond(cur, EntryKey(Prefix(sel), p))
      decreases |Remaining(snap.keys, cur)|
    {
      assert Prefix(cur) == Prefix(sel);
      assert forall p: Position :: Hit(snap, cur, p) == Hit(snap, sel, p);
      var r := Run(snap, cur, types);
      var page := r.value;
      Joined(snap, sel, cur, out, page);
      out := out + page.positions;
      if page.exhausted {
        break;
      }
      FewerRemain(snap.keys, cur, page.next.value);
      cur := cur.(after := page.next);
    }
  }

  /** One record's value comes before another's in the direction asked for, records of
      one value in the order of their ids. */
  predicate InValueOrder(snap: Snapshot, sel: Select, a: Id, b: Id) {
    && a in snap.rows && sel.slot in snap.rows[a] && b in snap.rows && sel.slot in snap.rows[b]
    && var v, w := snap.rows[a][sel.slot], snap.rows[b][sel.slot];
       SameType(v, w) && if sel.desc then Less(w, v) || (v == w && Lt(b, a)) else Less(v, w) || (v == w && Lt(a, b))
  }

  /** Index keys sort as their values do. */
  lemma KeyOrderIsValueOrder(snap: Snapshot, sel: Select, p: Position, q: Position, types: map<Slot, SlotType>)
    requires TypedQuery(snap, sel, types) && Settles(snap, sel, p) && Settles(snap, sel, q)
    ensures Ahead(sel.desc, EntryKey(Prefix(sel), p), EntryKey(Prefix(sel), q)) <==> InValueOrder(snap, sel, p.id, q.id)
  {
    var prefix, v, w := Prefix(sel), snap.rows[p.id][sel.slot], snap.rows[q.id][sel.slot];
    assert IsOf(types, sel.slot, v) && IsOf(types, sel.slot, w);
    assert EntryKey(prefix, p) == prefix + (p.value + p.id) && EntryKey(prefix, q) == prefix + (q.value + q.id);
    CommonPrefix(prefix, p.value + p.id, q.value + q.id);
    CommonPrefix(prefix, q.value + q.id, p.value + p.id);
    EncodingOrders(v, w, p.id, q.id);
    EncodingOrders(w, v, q.id, p.id);
  }

  /** So a selection from the start is the sorted filter of all rows: each record that
      carries the slot and satisfies the predicates, exactly once, in value order. */
  lemma AnswerIsTheFilter(snap: Snapshot, sel: Select, out: seq<Position>, types: map<Slot, SlotType>)
    requires TypedQuery(snap, sel, types) && ExactIndex(snap, sel) && sel.after.None? && IsAnswer(snap, sel, out)
    ensures forall rid: Id ::
              (exists i | 0 <= i < |out| :: out[i].id == rid) <==>
              rid in snap.rows && sel.slot in snap.rows[rid] && SaysAll(sel.preds, snap.rows[rid])
    ensures forall i, j | 0 <= i < j < |out| :: out[i].id != out[j].id
    ensures forall i | 0 <= i < |out| :: Hit(snap, sel, out[i])
    ensures forall i, j | 0 <= i < j < |out| :: InValueOrder(snap, sel, out[i].id, out[j].id)
  {
    forall rid: Id | rid in snap.rows
      ensures Match(snap.rows[rid], sel.preds) <==> SaysAll(sel.preds, snap.rows[rid])
    {
      MatchIsWhatTheySay(sel.preds, snap.rows[rid], types);
    }
    forall i | 0 <= i < |out|
      ensures Hit(snap, sel, out[i])
    {
      assert out[i] in out;
    }
    forall i, j | 0 <= i < j < |out|
      ensures InValueOrder(snap, sel, out[i].id, out[j].id)
    {
      KeyOrderIsValueOrder(snap, sel, out[i], out[j], types);
    }
    forall rid: Id | rid in snap.rows && sel.slot in snap.rows[rid] && Match(snap.rows[rid], sel.preds)
      ensures exists i | 0 <= i < |out| :: out[i].id == rid
    {
      var p := Position(OrderBytes(snap.rows[rid][sel.slot]), rid);
      assert EntryKey(Prefix(sel), p) in snap.keys;
      assert p in out;
    }
    forall i, j | 0 <= i < j < |out|
      ensures out[i].id != out[j].id
    {
      if out[i].id == out[j].id {
        assert out[i] == out[j];
        AheadOrders(sel.desc, EntryKey(Prefix(sel), out[i]), EntryKey(Prefix(sel), out[j]), []);
      }
    }
  }

  /** What chained pages list of one selection. */
  ghost predicate IsAnswer(snap: Snapshot, sel: Select, out: seq<Position>) {
    InOrder(sel, out) && forall p: Position :: p in out <==> Hit(snap, sel, p) && Beyond(sel, EntryKey(Prefix(sel), p))
  }

  /** One more predicate and its negation share out what there was without either: nothing is
      in both answers, and nothing is lost between them. */
  lemma NegationSharesOut(snap: Snapshot, sel: Select, p: Pred, all: seq<Position>, with: seq<Position>, without: seq<Position>)
    requires IsAnswer(snap, sel, all)
    requires IsAnswer(snap, sel.(preds := sel.preds + [p]), with)
    requires IsAnswer(snap, sel.(preds := sel.preds + [Not(p)]), without)
    ensures forall x: Position :: x in all <==> x in with || x in without
    ensures forall x: Position | x in with :: x !in without
  {
    var yes, no := sel.(preds := sel.preds + [p]), sel.(preds := sel.preds + [Not(p)]);
    assert Prefix(yes) == Prefix(sel) == Prefix(no);
    forall x: Position
      ensures Hit(snap, yes, x) <==> Hit(snap, sel, x) && Eval(p, snap.rows[x.id])
      ensures Hit(snap, no, x) <==> Hit(snap, sel, x) && !Eval(p, snap.rows[x.id])
    {
      if x.id in snap.rows {
        MatchOneMore(snap.rows[x.id], sel.preds, p);
        MatchOneMore(snap.rows[x.id], sel.preds, Not(p));
      }
    }
  }

  lemma MatchOneMore(row: Row, preds: seq<Pred>, p: Pred)
    ensures Match(row, preds + [p]) <==> Match(row, preds) && Eval(p, row)
  {
    assert p in preds + [p];
    assert forall q | q in preds :: q in preds + [p];
  }

  /** A page follows what came before it, and adds exactly what it covers. */
  lemma Joined(snap: Snapshot, sel: Select, cur: Select, out: seq<Position>, page: Page)
    requires cur == sel.(after := cur.after) && InOrder(sel, out) && PageIs(snap, cur, page)
    requires cur.after == sel.after || (cur.after.Some? && Beyond(sel, EntryKey(Prefix(sel), cur.after.value)))
    requires forall p: Position :: p in out <==>
               Hit(snap, sel, p) && Beyond(sel, EntryKey(Prefix(sel), p)) && !Beyond(cur, EntryKey(Prefix(sel), p))
    ensures InOrder(sel, out + page.positions)
    ensures page.exhausted ==>
              forall p: Position :: p in out + page.positions <==> Hit(snap, sel, p) && Beyond(sel, EntryKey(Prefix(sel), p))
    ensures !page.exhausted ==>
              && Beyond(sel, EntryKey(Prefix(sel), page.next.value))
              && forall p: Position :: p in out + page.positions <==>
                   Hit(snap, sel, p) && Beyond(sel, EntryKey(Prefix(sel), p)) && !Beyond(cur.(after := page.next), EntryKey(Prefix(sel), p))
  {
    assert Prefix(cur) == Prefix(sel);
    forall p: Position
      ensures var key := EntryKey(Prefix(sel), p);
              && (Beyond(cur, key) ==> Beyond(sel, key))
              && (!page.exhausted && !Beyond(cur, key) ==> !Beyond(cur.(after := page.next), key))
    {
      var key := EntryKey(Prefix(sel), p);
      if cur.after != sel.after && sel.after.Some? {
        AheadOrders(sel.desc, EntryKey(Prefix(sel), sel.after.value), EntryKey(Prefix(sel), cur.after.value), key);
      }
      if cur.after.Some? && !page.exhausted {
        AheadOrders(sel.desc, EntryKey(Prefix(sel), cur.after.value), EntryKey(Prefix(sel), page.next.value), key);
      }
    }
    forall i, j | 0 <= i < |out| && 0 <= j < |page.positions|
      ensures Ahead(sel.desc, EntryKey(Prefix(sel), out[i]), EntryKey(Prefix(sel), page.positions[j]))
    {
      assert out[i] in out && page.positions[j] in page.positions;
      var at := EntryKey(Prefix(sel), cur.after.value);
      AheadOrders(sel.desc, at, EntryKey(Prefix(sel), out[i]), at);
      AheadOrders(sel.desc, EntryKey(Prefix(sel), out[i]), at, EntryKey(Prefix(sel), page.positions[j]));
    }
  }

  lemma FewerRemain(keys: seq<Bytes>, cur: Select, next: Position)
    requires EntryKey(Prefix(cur), next) in keys && Beyond(cur, EntryKey(Prefix(cur), next))
    ensures |Remaining(keys, cur.(after := Some(next)))| < |Remaining(keys, cur)|
  {
    var later := cur.(after := Some(next));
    var at := EntryKey(Prefix(cur), next);
    assert Prefix(later) == Prefix(cur);
    Irreflexive(at);
    forall k | k in Remaining(keys, later)
      ensures k in Remaining(keys, cur)
    {
      if cur.after.Some? {
        AheadOrders(cur.desc, EntryKey(Prefix(cur), cur.after.value), at, k);
      }
    }
    assert at in Remaining(keys, cur) && at !in Remaining(keys, later);
    SubsetSize(Remaining(keys, later), Remaining(keys, cur));
  }
}
