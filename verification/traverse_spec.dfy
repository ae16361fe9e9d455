/** What a bounded traversal means: followed walks, their strength, and which walk
    is better. Nothing here refers to the search that finds them. */
module TraverseSpec {
  import opened Prelude
  import opened GraphTypes

  /** One record's edges in key order, as a scan of each edge space yields them. */
  datatype Adjacency = Adjacency(outgoing: map<Id, seq<Edge>>, incoming: map<Id, seq<Edge>>) {
    function Scan(node: Id, d: Direction): seq<Edge> {
      var side := if d.In? then incoming else outgoing;
      if node in side then side[node] else []
    }
  }

  /** A traversal request over one snapshot. `held` are the numbers a strength can
      hold and `mul` extends a path's strength by one edge; they stand for the
      program's float32 values and its rounded product. */
  datatype Search = Search(
    graph: Adjacency, start: Id, direction: Direction,
    types: seq<RelType>, minStrength: real, maxDepth: nat,
    held: real -> bool, mul: (real, real) -> real)

  predicate Unit(q: Search, x: real) { q.held(x) && 0.0 <= x <= 1.0 }

  /** Strengths lie in the unit interval; extending a path never strengthens it, and
      of two paths extended by one edge the stronger stays no weaker. */
  ghost predicate Sound(q: Search) {
    && (forall node, d, i :: 0 <= i < |q.graph.Scan(node, d)| ==> Unit(q, q.graph.Scan(node, d)[i].strength))
    && Unit(q, 1.0)
    && (forall a, b :: NeverStrengthens(q, a, b))
    && (forall a, b, c :: KeepsOrder(q, a, b, c))
  }

  predicate NeverStrengthens(q: Search, a: real, b: real) {
    Unit(q, a) && Unit(q, b) ==> Unit(q, q.mul(a, b)) && q.mul(a, b) <= a
  }

  predicate KeepsOrder(q: Search, a: real, b: real, c: real) {
    Unit(q, a) && Unit(q, b) && Unit(q, c) && a <= b ==> q.mul(a, c) <= q.mul(b, c)
  }

  predicate Keeps(round: real -> real, x: real, y: real) { x <= y ==> round(x) <= round(y) }

  predicate Rounds(held: real -> bool, round: real -> real, x: real) {
    held(round(x)) && (held(x) ==> round(x) == x)
  }

  function Product(x: real, y: real): real { x * y }

  /** Rounding a product to a held number, in any way that keeps order and leaves the
      held numbers alone, gives a product the search may use. Not rounding at all is
      the case where every number is held. */
  lemma RoundedProductQualifies(q: Search, round: real -> real, a: real, b: real, c: real)
    requires forall x, y :: q.mul(x, y) == round(Product(x, y))
    requires forall x :: Rounds(q.held, round, x)
    requires forall x, y :: Keeps(round, x, y)
    requires q.held(0.0) && q.held(1.0)
    ensures NeverStrengthens(q, a, b)
    ensures KeepsOrder(q, a, b, c)
  {
    if Unit(q, a) && Unit(q, b) {
      Shrinks(a, b);
      RoundsWithin(q.held, round, Product(a, b), a);
    }
    if Unit(q, a) && Unit(q, b) && Unit(q, c) && a <= b {
      Grows(a, b, c);
      assert Keeps(round, Product(a, c), Product(b, c));
    }
  }

  lemma RoundsWithin(held: real -> bool, round: real -> real, p: real, a: real)
    requires held(0.0) && held(a) && 0.0 <= p <= a
    requires forall x :: Rounds(held, round, x)
    requires forall x, y :: Keeps(round, x, y)
    ensures held(round(p)) && 0.0 <= round(p) <= a
  {
    assert Rounds(held, round, 0.0) && Rounds(held, round, p) && Rounds(held, round, a);
    assert Keeps(round, 0.0, p) && Keeps(round, p, a);
  }

  lemma Shrinks(a: real, b: real)
    requires 0.0 <= a && 0.0 <= b <= 1.0
    ensures 0.0 <= Product(a, b) <= a
  {
    assert a * (1.0 - b) >= 0.0;
  }

  lemma Grows(a: real, b: real, c: real)
    requires a <= b && 0.0 <= c
    ensures Product(a, c) <= Product(b, c)
  {
    assert (b - a) * c >= 0.0;
  }

  /** One hop of a walk, on the rows and the options alone: by an outgoing edge to its target
      unless only incoming ones are wanted, by an incoming edge to its source unless only
      outgoing ones are; the edge strong enough, and of a type listed if any is. */
  predicate Crosses(q: Search, from: Id, e: Edge, to: Id) {
    && e.strength >= q.minStrength && (q.types == [] || e.rel in q.types)
    && (|| (q.direction != In && from in q.graph.outgoing && e in q.graph.outgoing[from] && to == e.to)
        || (q.direction != Out && from in q.graph.incoming && e in q.graph.incoming[from] && to == e.from))
  }

  /** A walk from the anchor, last hop outermost. */
  datatype Walk = Anchor | Hop(before: Walk, edge: Edge, to: Id)

  function End(q: Search, w: Walk): Id {
    if w.Anchor? then q.start else w.to
  }

  function Hops(w: Walk): nat {
    if w.Anchor? then 0 else 1 + Hops(w.before)
  }

  function Strength(q: Search, w: Walk): real {
    if w.Anchor? then 1.0 else q.mul(Strength(q, w.before), w.edge.strength)
  }

  predicate IsWalk(q: Search, w: Walk) {
    w.Anchor? || (IsWalk(q, w.before) && Crosses(q, End(q, w.before), w.edge, w.to))
  }

  predicate Within(q: Search, w: Walk) {
    IsWalk(q, w) && Hops(w) <= q.maxDepth
  }

  /** Stronger first, then fewer hops. */
  predicate Better(strength: real, hops: nat, otherStrength: real, otherHops: nat) {
    strength > otherStrength || (strength == otherStrength && hops < otherHops)
  }

  /** Some walk of exactly these hops and this strength arrives by this edge. */
  ghost predicate Arrives(q: Search, node: Id, hops: nat, strength: real, via: Edge) {
    exists w: Walk {:trigger IsWalk(q, w)} ::
      w.Hop? && IsWalk(q, w) && w.to == node && Hops(w) == hops && Strength(q, w) == strength && w.edge == via
  }

  /** No walk within the bound reaches the node by a better path. */
  ghost predicate NoneBetter(q: Search, node: Id, strength: real, hops: nat) {
    forall w {:trigger Within(q, w)} :: Within(q, w) && End(q, w) == node ==> !Better(Strength(q, w), Hops(w), strength, hops)
  }

  ghost predicate Reachable(q: Search, node: Id) {
    exists w {:trigger Within(q, w)} :: Within(q, w) && End(q, w) == node
  }

  // ---------------------------------------------------------------------------

  lemma {:induction false} StrengthIsUnit(q: Search, w: Walk)
    requires Sound(q) && IsWalk(q, w)
    ensures Unit(q, Strength(q, w))
    ensures w.Hop? ==> Unit(q, w.edge.strength) && Strength(q, w) <= Strength(q, w.before)
  {
    if w.Hop? {
      StrengthIsUnit(q, w.before);
      EdgeIsUnit(q, End(q, w.before), w.edge, w.to);
      assert NeverStrengthens(q, Strength(q, w.before), w.edge.strength);
    }
  }

  lemma EdgeIsUnit(q: Search, from: Id, e: Edge, to: Id)
    requires Sound(q) && Crosses(q, from, e, to)
    ensures Unit(q, e.strength)
  {
    var d := if e in q.graph.Scan(from, Out) then Out else In;
    var i :| 0 <= i < |q.graph.Scan(from, d)| && q.graph.Scan(from, d)[i] == e;
  }

  /** What the walks reach, level by level: a finite set however many cycles the
      graph has. */
  datatype Label = Label(node: Id, hops: nat, strength: real)

  ghost function Neighbours(q: Search, from: Id): set<(Edge, Id)> {
    (set e | e in q.graph.Scan(from, Out) && Crosses(q, from, e, e.to) :: (e, e.to)) +
    (set e | e in q.graph.Scan(from, In) && Crosses(q, from, e, e.from) :: (e, e.from))
  }

  function Across(q: Search, l: Label, n: (Edge, Id)): Label {
    Label(n.1, l.hops + 1, q.mul(l.strength, n.0.strength))
  }

  ghost function Extended(q: Search, level: set<Label>): set<Label> {
    set l, n | l in level && n in Neighbours(q, l.node) :: Across(q, l, n)
  }

  ghost function Level(q: Search, hops: nat): set<Label> {
    if hops == 0 then {Label(q.start, 0, 1.0)} else Extended(q, Level(q, hops - 1))
  }

  ghost function Labels(q: Search, hops: nat): set<Label> {
    set k, l | 0 <= k <= hops && l in Level(q, k) :: l
  }

  lemma NeighboursAreCrossings(q: Search, from: Id, e: Edge, to: Id)
    ensures (e, to) in Neighbours(q, from) <==> Crosses(q, from, e, to)
  {
  }

  lemma {:induction false} WalkIsLabelled(q: Search, w: Walk)
    requires IsWalk(q, w)
    ensures Label(End(q, w), Hops(w), Strength(q, w)) in Level(q, Hops(w))
  {
    if w.Hop? {
      WalkIsLabelled(q, w.before);
      NeighboursAreCrossings(q, End(q, w.before), w.edge, w.to);
    }
  }

  lemma {:induction false} LabelHasWalk(q: Search, l: Label, hops: nat) returns (w: Walk)
    requires l in Level(q, hops)
    ensures IsWalk(q, w) && End(q, w) == l.node && Hops(w) == hops == l.hops && Strength(q, w) == l.strength
    decreases hops
  {
    if hops == 0 {
      w := Anchor;
    } else {
      var p, n := ComesFrom(q, Level(q, hops - 1), l);
      var before := LabelHasWalk(q, p, hops - 1);
      NeighboursAreCrossings(q, p.node, n.0, n.1);
      w := Hop(before, n.0, n.1);
    }
  }

  lemma ComesFrom(q: Search, level: set<Label>, l: Label) returns (p: Label, n: (Edge, Id))
    requires l in Extended(q, level)
    ensures p in level && n in Neighbours(q, p.node) && l == Across(q, p, n)
  {
    p, n :| p in level && n in Neighbours(q, p.node) && l == Across(q, p, n);
  }

  lemma LevelHops(q: Search, l: Label, hops: nat)
    requires l in Level(q, hops)
    ensures l.hops == hops
  {
    var w := LabelHasWalk(q, l, hops);
  }

  lemma LabelsAreLevels(q: Search, l: Label, hops: nat)
    ensures l in Labels(q, hops) <==> l.hops <= hops && l in Level(q, l.hops)
  {
    if l in Labels(q, hops) {
      var k :| 0 <= k <= hops && l in Level(q, k);
      LevelHops(q, l, k);
    }
  }

  /** Every node a walk within the bound reaches, the anchor apart. */
  ghost function Neighbourhood(q: Search): set<Id> {
    set l | l in Labels(q, q.maxDepth) && l.node != q.start :: l.node
  }

  lemma NeighbourhoodIsReachable(q: Search, node: Id)
    ensures node in Neighbourhood(q) <==> node != q.start && Reachable(q, node)
  {
    if node in Neighbourhood(q) {
      var l :| l in Labels(q, q.maxDepth) && l.node == node;
      LabelsAreLevels(q, l, q.maxDepth);
      var w := LabelHasWalk(q, l, l.hops);
      assert Within(q, w) && End(q, w) == node;
    }
    if node != q.start && Reachable(q, node) {
      var w :| Within(q, w) && End(q, w) == node;
      WalkIsLabelled(q, w);
      LabelsAreLevels(q, Label(node, Hops(w), Strength(q, w)), q.maxDepth);
    }
  }

  // --- the graph turned round ------------------------------------------------------------------

  function TurnedEdge(e: Edge): Edge {
    e.(from := e.to, to := e.from)
  }

  function TurnedAll(es: seq<Edge>): (r: seq<Edge>)
    ensures |r| == |es| && forall i | 0 <= i < |es| :: r[i] == TurnedEdge(es[i])
  {
    seq(|es|, i requires 0 <= i < |es| => TurnedEdge(es[i]))
  }

  function TurnedSide(side: map<Id, seq<Edge>>): map<Id, seq<Edge>> {
    map n | n in side :: TurnedAll(side[n])
  }

  /** Every edge the other way about, and the walk with it. */
  function TurnedRound(q: Search): Search {
    q.(graph := Adjacency(TurnedSide(q.graph.incoming), TurnedSide(q.graph.outgoing)),
       direction := if q.direction == Out then In else if q.direction == In then Out else Both)
  }

  function TurnedWalk(w: Walk): Walk {
    if w.Anchor? then w else Hop(TurnedWalk(w.before), TurnedEdge(w.edge), w.to)
  }

  lemma TurnedMember(side: map<Id, seq<Edge>>, n: Id, e: Edge)
    ensures n in TurnedSide(side) && TurnedEdge(e) in TurnedSide(side)[n] <==> n in side && e in side[n]
  {
    if n in side {
      if e in side[n] {
        var i :| 0 <= i < |side[n]| && side[n][i] == e;
        assert TurnedSide(side)[n][i] == TurnedEdge(e);
      }
      if TurnedEdge(e) in TurnedSide(side)[n] {
        var i :| 0 <= i < |side[n]| && TurnedSide(side)[n][i] == TurnedEdge(e);
        assert side[n][i] == TurnedEdge(TurnedEdge(side[n][i])) == e;
      }
    }
  }

  lemma TurnedCrosses(q: Search, from: Id, e: Edge, to: Id)
    ensures Crosses(TurnedRound(q), from, TurnedEdge(e), to) <==> Crosses(q, from, e, to)
  {
    TurnedMember(q.graph.outgoing, from, e);
    TurnedMember(q.graph.incoming, from, e);
  }

  lemma {:induction false} TurnedWalks(q: Search, w: Walk)
    requires IsWalk(q, w)
    ensures var t := TurnedRound(q); var v := TurnedWalk(w);
            IsWalk(t, v) && End(t, v) == End(q, w) && Hops(v) == Hops(w) && Strength(t, v) == Strength(q, w)
  {
    if w.Hop? {
      TurnedWalks(q, w.before);
      TurnedCrosses(q, End(q, w.before), w.edge, w.to);
    }
  }

  lemma TurnedTwice(q: Search)
    ensures TurnedRound(TurnedRound(q)) == q
  {
    var t := TurnedRound(TurnedRound(q));
    forall n | n in q.graph.outgoing
      ensures t.graph.outgoing[n] == q.graph.outgoing[n]
    {
      forall i | 0 <= i < |q.graph.outgoing[n]|
        ensures t.graph.outgoing[n][i] == q.graph.outgoing[n][i]
      {
        assert TurnedEdge(TurnedEdge(q.graph.outgoing[n][i])) == q.graph.outgoing[n][i];
      }
    }
    forall n | n in q.graph.incoming
      ensures t.graph.incoming[n] == q.graph.incoming[n]
    {
      forall i | 0 <= i < |q.graph.incoming[n]|
        ensures t.graph.incoming[n][i] == q.graph.incoming[n][i]
      {
        assert TurnedEdge(TurnedEdge(q.graph.incoming[n][i])) == q.graph.incoming[n][i];
      }
    }
    assert t.graph.outgoing == q.graph.outgoing && t.graph.incoming == q.graph.incoming;
  }

  /** Turning every edge round and following the other way changes nothing that is reached;
      following both ways, it is enough to turn the edges. */
  lemma TurningRoundReachesTheSame(q: Search, node: Id)
    ensures Reachable(TurnedRound(q), node) <==> Reachable(q, node)
    ensures q.direction.Both? ==> TurnedRound(q).direction.Both?
  {
    var t := TurnedRound(q);
    if Reachable(q, node) {
      var w :| Within(q, w) && End(q, w) == node;
      TurnedWalks(q, w);
      assert Within(t, TurnedWalk(w));
    }
    if Reachable(t, node) {
      var w :| Within(t, w) && End(t, w) == node;
      TurnedWalks(t, w);
      TurnedTwice(q);
      assert Within(q, TurnedWalk(w));
    }
  }
}
