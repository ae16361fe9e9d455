/** Predicates on an attribute row, and the walk bounds they imply on one slot. */
module AttrPredicate {
  import opened Prelude
  import opened AttrValue
  import opened ByteOrder
  import opened ValueOrder

  datatype Pred =
    | Eq(slot: Slot, value: Value)
    | Range(slot: Slot, lo: Option<Value>, hi: Option<Value>, loIncl: bool, hiIncl: bool)
    | And(preds: seq<Pred>)
    | Not(pred: Pred)

  function TypeNumber(t: SlotType): nat {
    match t
    case SlotBool => 1
    case SlotU8 => 2
    case SlotU32 => 3
    case SlotU64 => 4
    case SlotF32 => 5
    case SlotString => 6
  }

  /** Below, at or above: within a type by value, across types by the type's number. */
  function Compare(a: Value, b: Value): int {
    if TypeOf(a) != TypeOf(b) then (if TypeNumber(TypeOf(a)) < TypeNumber(TypeOf(b)) then -1 else 1)
    else if Less(a, b) then -1
    else if Less(b, a) then 1
    else 0
  }

  predicate Eval(p: Pred, row: Row) {
    match p
    case Eq(slot, value) => slot in row && row[slot] == value
    case Range(slot, lo, hi, loIncl, hiIncl) =>
      && slot in row
      && (lo.Some? ==> var c := Compare(row[slot], lo.value); !(c < 0 || (c == 0 && !loIncl)))
      && (hi.Some? ==> var c := Compare(row[slot], hi.value); !(c > 0 || (c == 0 && !hiIncl)))
    case And(preds) => forall q | q in preds :: Eval(q, row)
    case Not(q) => !Eval(q, row)
  }

  predicate Match(row: Row, preds: seq<Pred>) {
    forall p | p in preds :: Eval(p, row)
  }

  /** A predicate's values have its slots' types, as the constructors make them. */
  predicate Typed(p: Pred, types: map<Slot, SlotType>) {
    match p
    case Eq(slot, value) => IsOf(types, slot, value)
    case Range(slot, lo, hi, _, _) =>
      (lo.Some? ==> IsOf(types, slot, lo.value)) && (hi.Some? ==> IsOf(types, slot, hi.value))
    case And(preds) => forall q | q in preds :: Typed(q, types)
    case Not(q) => Typed(q, types)
  }

  predicate IsOf(types: map<Slot, SlotType>, slot: Slot, v: Value) {
    slot in types && TypeOf(v) == types[slot] && Normal(v)
  }

  predicate TypedRow(row: Row, types: map<Slot, SlotType>) {
    forall slot | slot in row :: IsOf(types, slot, row[slot])
  }

  // --- what a predicate means ---------------------------------------------------------------

  /** A value lies between two ends, each of them in exactly when it is included. */
  predicate Between(v: Value, lo: Option<Value>, hi: Option<Value>, loIncl: bool, hiIncl: bool) {
    && (lo.Some? ==> SameType(lo.value, v) && (Less(lo.value, v) || (loIncl && v == lo.value)))
    && (hi.Some? ==> SameType(v, hi.value) && (Less(v, hi.value) || (hiIncl && v == hi.value)))
  }

  /** What a predicate says of a row, by the order of values alone. */
  predicate Says(p: Pred, row: Row) {
    match p
    case Eq(slot, value) => slot in row && row[slot] == value
    case Range(slot, lo, hi, loIncl, hiIncl) => slot in row && Between(row[slot], lo, hi, loIncl, hiIncl)
    case And(preds) => forall q | q in preds :: Says(q, row)
    case Not(q) => !Says(q, row)
  }

  predicate SaysAll(preds: seq<Pred>, row: Row) {
    forall p | p in preds :: Says(p, row)
  }

  /** Evaluating a predicate on a row of its types gives what it says. */
  lemma {:induction false} EvalIsWhatItSays(p: Pred, row: Row, types: map<Slot, SlotType>)
    requires Typed(p, types) && TypedRow(row, types)
    ensures Eval(p, row) <==> Says(p, row)
  {
    match p
    case Eq(_, _) =>
    case Range(slot, lo, hi, _, _) =>
      if slot in row {
        if lo.Some? {
          CompareMeans(row[slot], lo.value);
        }
        if hi.Some? {
          CompareMeans(row[slot], hi.value);
        }
      }
    case And(preds) =>
      forall q | q in preds
        ensures Eval(q, row) <==> Says(q, row)
      {
        EvalIsWhatItSays(q, row, types);
      }
    case Not(q) => EvalIsWhatItSays(q, row, types);
  }

  lemma MatchIsWhatTheySay(preds: seq<Pred>, row: Row, types: map<Slot, SlotType>)
    requires TypedRow(row, types) && forall p | p in preds :: Typed(p, types)
    ensures Match(row, preds) <==> SaysAll(preds, row)
  {
    forall p | p in preds
      ensures Eval(p, row) <==> Says(p, row)
    {
      EvalIsWhatItSays(p, row, types);
    }
  }

  // --- bounds -----------------------------------------------------------------------------

  /** One end of a walk: the value it stops at and whether that value is included.
      No value is no bound. The encoding of the value is what the walk compares. */
  datatype Bound = Bound(at: Option<Value>, incl: bool)

  const UNBOUNDED := Bound(None, true)

  datatype Bounds = Bounds(lo: Bound, hi: Bound)

  const EVERYTHING := Bounds(UNBOUNDED, UNBOUNDED)

  function TightenLow(cur: Bound, next: Bound): Bound {
    if next.at.None? then cur
    else if cur.at.None? then next
    else if Lt(OrderBytes(cur.at.value), OrderBytes(next.at.value)) then next
    else if OrderBytes(cur.at.value) == OrderBytes(next.at.value) then Bound(cur.at, cur.incl && next.incl)
    else cur
  }

  function TightenHigh(cur: Bound, next: Bound): Bound {
    if next.at.None? then cur
    else if cur.at.None? then next
    else if Lt(OrderBytes(next.at.value), OrderBytes(cur.at.value)) then next
    else if OrderBytes(cur.at.value) == OrderBytes(next.at.value) then Bound(cur.at, cur.incl && next.incl)
    else cur
  }

  function Tighten(cur: Bounds, next: Bounds): Bounds {
    Bounds(TightenLow(cur.lo, next.lo), TightenHigh(cur.hi, next.hi))
  }

  /** The bounds a predicate implies on a slot; what it cannot bound, it leaves open. */
  function BoundsOf(p: Pred, slot: Slot): Bounds
    decreases p, 0
  {
    match p
    case Eq(s, value) => if s != slot then EVERYTHING else Bounds(Bound(Some(value), true), Bound(Some(value), true))
    case Range(s, lo, hi, loIncl, hiIncl) =>
      if s != slot then EVERYTHING
      else Bounds(if lo.Some? then Bound(lo, loIncl) else UNBOUNDED, if hi.Some? then Bound(hi, hiIncl) else UNBOUNDED)
    case And(preds) => BoundsOfAll(preds, slot)
    case Not(_) => EVERYTHING
  }

  /** Folds the bounds of predicates from the first to the last. */
  function BoundsOfAll(ps: seq<Pred>, slot: Slot): Bounds
    decreases ps, 1
  {
    if ps == [] then EVERYTHING
    else
      var n := |ps| - 1;
      assert ps[n] in ps;
      Tighten(BoundsOfAll(ps[..n], slot), BoundsOf(ps[n], slot))
  }

  // --- bounds are sound -------------------------------------------------------------------------

  /** A value is on the inner side of a bound. */
  predicate Above(v: Value, b: Bound) {
    b.at.Some? ==> SameType(v, b.at.value) && Normal(b.at.value) && (Less(b.at.value, v) || (v == b.at.value && b.incl))
  }

  predicate Below(v: Value, b: Bound) {
    b.at.Some? ==> SameType(v, b.at.value) && Normal(b.at.value) && (Less(v, b.at.value) || (v == b.at.value && b.incl))
  }

  predicate Within(v: Value, b: Bounds) {
    Above(v, b.lo) && Below(v, b.hi)
  }

  lemma LessIsStrict(a: Value, b: Value)
    requires SameType(a, b) && Normal(a) && Normal(b)
    ensures Less(a, b) <==> Lt(OrderBytes(a), OrderBytes(b))
    ensures a == b <==> OrderBytes(a) == OrderBytes(b)
    ensures Less(a, b) ==> !Less(b, a) && a != b
  {
    EncodingOrders(a, b, [], []);
    assert OrderBytes(a) + [] == OrderBytes(a) && OrderBytes(b) + [] == OrderBytes(b);
    Irreflexive(OrderBytes(a));
    if Less(a, b) {
      EncodingOrders(b, a, [], []);
      Asymmetric(OrderBytes(a), OrderBytes(b));
    }
    if OrderBytes(a) == OrderBytes(b) {
      EncodingIsInjective(a, b, [], []);
    }
  }

  /** The bounds are of the value's type. */
  predicate Fit(v: Value, b: Bounds) {
    && (b.lo.at.Some? ==> SameType(v, b.lo.at.value) && Normal(b.lo.at.value))
    && (b.hi.at.Some? ==> SameType(v, b.hi.at.value) && Normal(b.hi.at.value))
  }

  lemma LessChains(a: Value, b: Value, c: Value)
    requires SameType(a, b) && SameType(b, c) && Normal(a) && Normal(b) && Normal(c)
    ensures Less(a, b) && Less(b, c) ==> Less(a, c)
  {
    LessIsStrict(a, b);
    LessIsStrict(b, c);
    LessIsStrict(a, c);
    if Less(a, b) && Less(b, c) {
      Transitive(OrderBytes(a), OrderBytes(b), OrderBytes(c));
    }
  }

  lemma LowTightens(v: Value, cur: Bound, next: Bound)
    requires Normal(v) && Fit(v, Bounds(cur, UNBOUNDED)) && Fit(v, Bounds(next, UNBOUNDED))
    ensures Above(v, TightenLow(cur, next)) <==> Above(v, cur) && Above(v, next)
  {
    if cur.at.Some? && next.at.Some? {
      var a, b := cur.at.value, next.at.value;
      LessIsTotal(a, b);
      LessIsStrict(a, b);
      LessIsStrict(b, a);
      LessChains(a, b, v);
      LessChains(b, a, v);
    }
  }

  lemma HighTightens(v: Value, cur: Bound, next: Bound)
    requires Normal(v) && Fit(v, Bounds(UNBOUNDED, cur)) && Fit(v, Bounds(UNBOUNDED, next))
    ensures Below(v, TightenHigh(cur, next)) <==> Below(v, cur) && Below(v, next)
  {
    if cur.at.Some? && next.at.Some? {
      var a, b := cur.at.value, next.at.value;
      LessIsTotal(a, b);
      LessIsStrict(a, b);
      LessIsStrict(b, a);
      LessChains(v, a, b);
      LessChains(v, b, a);
    }
  }

  /** A value is within the tighter of two bounds exactly when it is within both. */
  lemma TighteningKeeps(v: Value, cur: Bounds, next: Bounds)
    requires Normal(v) && Fit(v, cur) && Fit(v, next)
    ensures Within(v, Tighten(cur, next)) <==> Within(v, cur) && Within(v, next)
    ensures Fit(v, Tighten(cur, next))
  {
    LowTightens(v, cur.lo, next.lo);
    HighTightens(v, cur.hi, next.hi);
  }

  lemma CompareMeans(a: Value, b: Value)
    requires SameType(a, b) && Normal(a) && Normal(b)
    ensures Compare(a, b) < 0 <==> Less(a, b)
    ensures Compare(a, b) > 0 <==> Less(b, a)
    ensures Compare(a, b) == 0 <==> a == b
  {
    LessIsTotal(a, b);
    LessIsStrict(a, b);
    LessIsStrict(b, a);
  }

  /** A predicate that is all about one slot, with nothing negated. */
  predicate BoundsOnly(p: Pred, slot: Slot) {
    match p
    case Eq(s, _) => s == slot
    case Range(s, _, _, _, _) => s == slot
    case And(preds) => forall q | q in preds :: BoundsOnly(q, slot)
    case Not(_) => false
  }

  lemma EqIsAPoint(v: Value, w: Value)
    requires SameType(v, w) && Normal(v) && Normal(w)
    ensures Within(v, Bounds(Bound(Some(w), true), Bound(Some(w), true))) <==> v == w
  {
    LessIsStrict(v, w);
    LessIsStrict(w, v);
  }

  /** A row that satisfies a predicate has its slot's value within the bounds derived; and
      of a predicate all about the slot, with nothing negated, the bounds say all. */
  lemma {:induction false} BoundsAreSound(p: Pred, slot: Slot, row: Row, types: map<Slot, SlotType>)
    requires Typed(p, types) && TypedRow(row, types) && slot in row
    ensures Fit(row[slot], BoundsOf(p, slot))
    ensures Says(p, row) ==> Within(row[slot], BoundsOf(p, slot))
    ensures BoundsOnly(p, slot) ==> (Within(row[slot], BoundsOf(p, slot)) <==> Says(p, row))
    decreases p, 0
  {
    match p
    case Eq(s, value) =>
      if s == slot {
        EqIsAPoint(row[slot], value);
      }
    case Range(s, lo, hi, _, _) =>
    case And(preds) => AllBoundsAreSound(preds, slot, row, types);
    case Not(_) =>
  }

  lemma {:induction false} AllBoundsAreSound(ps: seq<Pred>, slot: Slot, row: Row, types: map<Slot, SlotType>)
    requires forall p | p in ps :: Typed(p, types)
    requires TypedRow(row, types) && slot in row
    ensures Fit(row[slot], BoundsOfAll(ps, slot))
    ensures SaysAll(ps, row) ==> Within(row[slot], BoundsOfAll(ps, slot))
    ensures (forall p | p in ps :: BoundsOnly(p, slot)) ==> (Within(row[slot], BoundsOfAll(ps, slot)) <==> SaysAll(ps, row))
    decreases ps, 1
  {
    if ps != [] {
      var n := |ps| - 1;
      assert ps == ps[..n] + [ps[n]];
      AllBoundsAreSound(ps[..n], slot, row, types);
      BoundsAreSound(ps[n], slot, row, types);
      TighteningKeeps(row[slot], BoundsOfAll(ps[..n], slot), BoundsOf(ps[n], slot));
    }
  }
}
