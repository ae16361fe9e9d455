/** Ordered selection over one slot's index: the index proposes records, and their rows
    settle which of them match.
    One page is what it says it is, and pages chained give the whole sorted filter. */
module AttrSelect {
  import opened Prelude
  import opened AttrValue
  import opened ByteOrder
  import opened ValueOrder
  import opened AttrPredicate
  import Keys

  const SPACE_ATTR_INDEX: byte := 0x07

  const DEFAULT_NS: Bytes := [100, 101, 102, 97, 117, 108, 116]

  /** One frozen state of the store: all its keys in order, and the rows they decode to. */
  datatype Snapshot = Snapshot(keys: seq<Bytes>, rows: map<Id, Row>)

  /** A resume point: an encoded value and the record that had it. */
  datatype Position = Position(value: Bytes, id: Id)

  datatype Select = Select(
    tenant: Bytes, ns: Bytes, slot: Slot, desc: bool, preds: seq<Pred>,
    after: Option<Position>, limit: int, effort: int)

  datatype Page = Page(
    ids: seq<Id>, positions: seq<Position>, examined: nat, next: Option<Position>,
    exhausted: bool, truncated: bool)

  /** What every key of the slot's index begins with. */
  function Prefix(sel: Select): Bytes {
    SpanOfWords();
    Keys.ScopePrefix(sel.tenant, if sel.ns == [] then DEFAULT_NS else sel.ns) + [SPACE_ATTR_INDEX] + BigEndian(sel.slot, 2)
  }

  lemma SlotFollows(space: Bytes, a: Slot, b: Slot, k: Bytes)
    requires a < 0x1_0000 && b < 0x1_0000 && space + BigEndian(a, 2) <= k && space + BigEndian(b, 2) <= k
    ensures a == b
  {
    SpanOfWords();
    assert k[|space|..|space| + 2] == BigEndian(a, 2) && k[|space|..|space| + 2] == BigEndian(b, 2);
    BigEndianDecodes(a, 2);
    BigEndianDecodes(b, 2);
  }

  /** No key is in the index of two slots, of two namespaces or of two tenants; an empty
      namespace is the one called default. */
  lemma PrefixesApart(a: Select, b: Select, k: Bytes)
    requires Keys.Sized(a.tenant) && Keys.Sized(a.ns) && Keys.Sized(b.tenant) && Keys.Sized(b.ns)
    requires Prefix(a) <= k && Prefix(b) <= k
    ensures a.tenant == b.tenant && a.slot == b.slot
    ensures (if a.ns == [] then [100, 101, 102, 97, 117, 108, 116] else a.ns) == if b.ns == [] then [100, 101, 102, 97, 117, 108, 116] else b.ns
  {
    SpanOfWords();
    var nsA, nsB := if a.ns == [] then DEFAULT_NS else a.ns, if b.ns == [] then DEFAULT_NS else b.ns;
    var pa, pb := Keys.SpacePrefix(a.tenant, nsA, SPACE_ATTR_INDEX), Keys.SpacePrefix(b.tenant, nsB, SPACE_ATTR_INDEX);
    assert pa <= Prefix(a) && pb <= Prefix(b);
    Keys.NamesItsSpace(k, a.tenant, nsA, SPACE_ATTR_INDEX);
    Keys.NamesItsSpace(k, b.tenant, nsB, SPACE_ATTR_INDEX);
    assert a.tenant == b.tenant && nsA == nsB;
    assert Prefix(a) == pa + BigEndian(a.slot, 2) && Prefix(b) == pa + BigEndian(b.slot, 2);
    SlotFollows(pa, a.slot, b.slot, k);
  }

  function EntryKey(prefix: Bytes, p: Position): Bytes {
    prefix + p.value + p.id
  }

  /** An index key ends in an id of known width, with the value between it and the prefix. */
  function ParseEntry(key: Bytes, prefix: Bytes): Result<Position> {
    if |key| < |prefix| + ID_LEN then Err(Corruption)
    else Ok(Position(key[|prefix|..|key| - ID_LEN], key[|key| - ID_LEN..]))
  }

  lemma EntriesParse(prefix: Bytes, key: Bytes, p: Position)
    requires prefix <= key
    ensures ParseEntry(key, prefix) == Ok(p) <==> key == EntryKey(prefix, p)
  {
    if |key| >= |prefix| + ID_LEN {
      assert key == prefix + key[|prefix|..|key| - ID_LEN] + key[|key| - ID_LEN..];
    }
    if key == EntryKey(prefix, p) {
      assert key[|prefix|..|key| - ID_LEN] == p.value && key[|key| - ID_LEN..] == p.id;
    }
  }

  /** The candidate's row still has the entry's value, and satisfies every predicate. */
  predicate Settles(snap: Snapshot, sel: Select, p: Position) {
    && p.id in snap.rows && sel.slot in snap.rows[p.id]
    && OrderBytes(snap.rows[p.id][sel.slot]) == p.value
    && Match(snap.rows[p.id], sel.preds)
  }

  /** An index entry whose record belongs in the answer. */
  predicate Hit(snap: Snapshot, sel: Select, p: Position) {
    EntryKey(Prefix(sel), p) in snap.keys && Settles(snap, sel, p)
  }

  /** The order a walk goes in. */
  predicate Ahead(desc: bool, a: Bytes, b: Bytes) {
    if desc then Lt(b, a) else Lt(a, b)
  }

  /** Strictly after the position a walk resumes from. */
  predicate Beyond(sel: Select, key: Bytes) {
    sel.after.Some? ==> Ahead(sel.desc, EntryKey(Prefix(sel), sel.after.value), key)
  }

  predicate InOrder(sel: Select, ps: seq<Position>) {
    forall i, j | 0 <= i < j < |ps| :: Ahead(sel.desc, EntryKey(Prefix(sel), ps[i]), EntryKey(Prefix(sel), ps[j]))
  }

  predicate TypedQuery(snap: Snapshot, sel: Select, types: map<Slot, SlotType>) {
    && (forall p | p in sel.preds :: Typed(p, types))
    && (forall rid | rid in snap.rows :: TypedRow(snap.rows[rid], types))
  }

  // --- narrowing ---------------------------------------------------------------------------

  /** The first key a lower bound lets in: the value's own, or the one past its span. */
  function LowerOf(prefix: Bytes, b: Bound): Option<Bytes> {
    if b.at.None? then Some(prefix)
    else if b.incl then Some(prefix + OrderBytes(b.at.value))
    else SpanEnd(prefix + OrderBytes(b.at.value))
  }

  /** The first key an upper bound keeps out. */
  function UpperOf(prefix: Bytes, rangeEnd: Option<Bytes>, b: Bound): Option<Bytes> {
    if b.at.None? then rangeEnd
    else if b.incl then SpanEnd(prefix + OrderBytes(b.at.value))
    else Some(prefix + OrderBytes(b.at.value))
  }

  /** Bounds as a key range inside the slot's own; none when they contradict. */
  function RangeOf(prefix: Bytes, rangeEnd: Option<Bytes>, b: Bounds): Option<(Bytes, Option<Bytes>)> {
    var lower, upper := LowerOf(prefix, b.lo), UpperOf(prefix, rangeEnd, b.hi);
    if lower.None? then None
    else if upper.Some? && !Lt(lower.value, upper.value) then None
    else Some((lower.value, upper))
  }

  method Narrow(prefix: Bytes, rangeEnd: Option<Bytes>, preds: seq<Pred>, slot: Slot)
    returns (range: Option<(Bytes, Option<Bytes>)>)
    ensures range == RangeOf(prefix, rangeEnd, BoundsOfAll(preds, slot))
  {
    var b := EVERYTHING;
    var i := 0;
    while i < |preds|
      invariant 0 <= i <= |preds| && b == BoundsOfAll(preds[..i], slot)
    {
      b := Tighten(b, BoundsOf(preds[i], slot));
      assert preds[..i + 1][..i] == preds[..i];
      i := i + 1;
    }
    assert preds[..i] == preds;
    range := RangeOf(prefix, rangeEnd, b);
  }

  lemma WhatFollows(prefix: Bytes, a: Bytes, b: Bytes, rest: Bytes) returns (x: Bytes)
    requires prefix + a <= prefix + b + rest
    ensures b + rest == a + x
  {
    var key := prefix + b + rest;
    x := key[|prefix + a|..];
    assert key == prefix + a + x;
    assert key[|prefix|..] == a + x && key[|prefix|..] == b + rest;
  }

  /** An entry of one value is outside the span of every other. */
  lemma OutsideTheSpan(prefix: Bytes, a: Value, v: Value, rid: Id)
    requires SameType(a, v) && Normal(a) && Normal(v) && a != v
    ensures !(prefix + OrderBytes(a) <= prefix + OrderBytes(v) + rid)
  {
    if prefix + OrderBytes(a) <= prefix + OrderBytes(v) + rid {
      var x := WhatFollows(prefix, OrderBytes(a), OrderBytes(v), rid);
      EncodingIsInjective(v, a, rid, x);
    }
  }

  /** Above an excluded value there are only keys past the whole span of that value. */
  lemma PastTheSpan(prefix: Bytes, a: Value, v: Value, rid: Id)
    requires SameType(a, v) && Normal(a) && Normal(v) && Less(a, v)
    requires SpanEnd(prefix + OrderBytes(a)).Some?
    ensures Le(SpanEnd(prefix + OrderBytes(a)).value, prefix + OrderBytes(v) + rid)
  {
    var at, key := prefix + OrderBytes(a), prefix + OrderBytes(v) + rid;
    LessIsStrict(a, v);
    BelowAllOf(prefix, a, v, rid);
    PrefixBounds(at, key);
    OutsideTheSpan(prefix, a, v, rid);
    Total(key, SpanEnd(at).value);
  }

  /** A smaller value's key bytes lie below every entry of a larger one. */
  lemma BelowAllOf(prefix: Bytes, a: Value, v: Value, rid: Id)
    requires SameType(a, v) && Normal(a) && Normal(v) && Less(a, v)
    ensures Lt(prefix + OrderBytes(a), prefix + OrderBytes(v) + rid)
  {
    EncodingOrders(a, v, [], rid);
    assert OrderBytes(a) + [] == OrderBytes(a);
    CommonPrefix(prefix, OrderBytes(a), OrderBytes(v) + rid);
    assert prefix + OrderBytes(v) + rid == prefix + (OrderBytes(v) + rid);
  }

  /** Every entry of a smaller value lies below a larger value's key bytes. */
  lemma AboveAllOf(prefix: Bytes, a: Value, v: Value, rid: Id)
    requires SameType(v, a) && Normal(a) && Normal(v) && Less(v, a)
    ensures Lt(prefix + OrderBytes(v) + rid, prefix + OrderBytes(a))
  {
    EncodingOrders(v, a, rid, []);
    assert OrderBytes(a) + [] == OrderBytes(a);
    CommonPrefix(prefix, OrderBytes(v) + rid, OrderBytes(a));
    assert prefix + OrderBytes(v) + rid == prefix + (OrderBytes(v) + rid);
  }

  lemma LowerIsBelow(prefix: Bytes, b: Bound, v: Value, rid: Id)
    requires Normal(v) && Above(v, b) && SpanEnd(prefix).Some?
    ensures LowerOf(prefix, b).Some? && Le(LowerOf(prefix, b).value, prefix + OrderBytes(v) + rid)
  {
    if b.at.None? {
      assert prefix + OrderBytes(v) + rid == prefix + (OrderBytes(v) + rid);
      PrefixIsLeast(prefix, OrderBytes(v) + rid);
    } else {
      SpanEndOfLonger(prefix, OrderBytes(b.at.value));
      LessIsStrict(b.at.value, v);
      if v == b.at.value {
        PrefixIsLeast(prefix + OrderBytes(v), rid);
      } else {
        BelowAllOf(prefix, b.at.value, v, rid);
        PastTheSpan(prefix, b.at.value, v, rid);
      }
    }
  }

  lemma UpperIsAbove(prefix: Bytes, b: Bound, v: Value, rid: Id)
    requires Normal(v) && Below(v, b) && SpanEnd(prefix).Some?
    ensures var upper := UpperOf(prefix, SpanEnd(prefix), b);
            upper.Some? && Lt(prefix + OrderBytes(v) + rid, upper.value)
  {
    var key := prefix + OrderBytes(v) + rid;
    if b.at.None? {
      assert prefix <= key;
      PrefixBounds(prefix, key);
    } else {
      var at := prefix + OrderBytes(b.at.value);
      SpanEndOfLonger(prefix, OrderBytes(b.at.value));
      LessIsStrict(v, b.at.value);
      if v == b.at.value {
        assert at <= key;
        PrefixBounds(at, key);
      } else {
        AboveAllOf(prefix, b.at.value, v, rid);
        PrefixBounds(at, at);
        Transitive(key, at, SpanEnd(at).value);
      }
    }
  }

  lemma SpanEndOfLonger(prefix: Bytes, x: Bytes)
    requires SpanEnd(prefix).Some?
    ensures SpanEnd(prefix + x).Some?
  {
    SpanEndExists(prefix);
    SpanEndExists(prefix + x);
    var i :| 0 <= i < |prefix| && prefix[i] != 255;
    assert (prefix + x)[i] != 255;
  }

  lemma PrefixHasEnd(sel: Select)
    ensures SpanEnd(Prefix(sel)).Some?
  {
    SpanOfWords();
    var scope := Keys.ScopePrefix(sel.tenant, if sel.ns == [] then DEFAULT_NS else sel.ns);
    SpanEndExists(Prefix(sel));
    assert Prefix(sel)[|scope|] == SPACE_ATTR_INDEX;
  }

  /** Narrowing never drops an entry of the answer; where it finds a contradiction,
      there is none to drop. */
  lemma NarrowNeverDrops(snap: Snapshot, sel: Select, p: Position, types: map<Slot, SlotType>)
    requires TypedQuery(snap, sel, types) && Settles(snap, sel, p)
    ensures var range := RangeOf(Prefix(sel), SpanEnd(Prefix(sel)), BoundsOfAll(sel.preds, sel.slot));
            range.Some? && InRange(EntryKey(Prefix(sel), p), range.value.0, range.value.1)
  {
    var prefix, row := Prefix(sel), snap.rows[p.id];
    var v, b := row[sel.slot], BoundsOfAll(sel.preds, sel.slot);
    MatchIsWhatTheySay(sel.preds, row, types);
    AllBoundsAreSound(sel.preds, sel.slot, row, types);
    PrefixHasEnd(sel);
    LowerIsBelow(prefix, b.lo, v, p.id);
    UpperIsAbove(prefix, b.hi, v, p.id);
    LeTransitive(LowerOf(prefix, b.lo).value, EntryKey(prefix, p), UpperOf(prefix, SpanEnd(prefix), b.hi).value);
  }
}
