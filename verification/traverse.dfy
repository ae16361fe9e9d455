/** The bounded best-first traversal: a frontier ordered by path strength, a table of
    the strongest path to each node at each depth, stale entries and a node budget. */
module Traverse {
  import opened Prelude
  import opened GraphTypes
  import opened TraverseSpec

  const DEFAULT_MAX_DEPTH := 1
  const MAX_TRAVERSAL_DEPTH := 5
  const DEFAULT_MAX_NODES := 200
  const MAX_TRAVERSAL_NODES := 10000

  datatype Entry = Entry(node: Id, depth: nat, strength: real, via: Option<Edge>)

  datatype Reached = Reached(node: Id, depth: nat, strength: real, via: Edge)

  datatype Traversal = Traversal(reached: seq<Reached>, truncated: bool)

  /** For each node and hop count, the strength of the best path of that length found so
      far; -1 stands for none. */
  type Table = map<Id, seq<real>>

  datatype Bounds = Bounds(depth: nat, nodes: nat)

  /** Fills in the options left at zero; an option past its limit is an error. */
  function ResolveBounds(maxDepth: int, maxNodes: int): (r: Result<Bounds>)
    ensures r.Ok? <==> 0 <= maxDepth <= 5 && 0 <= maxNodes <= 10000
    ensures r.Ok? ==> 1 <= r.value.depth <= 5 && 1 <= r.value.nodes <= 10000
    ensures r.Ok? && maxDepth > 0 ==> r.value.depth == maxDepth
    ensures r.Ok? && maxNodes > 0 ==> r.value.nodes == maxNodes
    ensures maxDepth == 0 && r.Ok? ==> r.value.depth == 1
    ensures maxNodes == 0 && r.Ok? ==> r.value.nodes == 200
  {
    if maxDepth < 0 then Err(Invalid)
    else if maxDepth > MAX_TRAVERSAL_DEPTH then Err(Invalid)
    else if maxNodes < 0 then Err(Invalid)
    else if maxNodes > MAX_TRAVERSAL_NODES then Err(Invalid)
    else Ok(Bounds(if maxDepth == 0 then DEFAULT_MAX_DEPTH else maxDepth,
                   if maxNodes == 0 then DEFAULT_MAX_NODES else maxNodes))
  }

  // --- the edges of one node ------------------------------------------------------------

  /** Edges the options let a walk use. */
  predicate Follows(q: Search, e: Edge) {
    e.strength >= q.minStrength && (q.types == [] || e.rel in q.types)
  }

  /** The edges a scan of one node in one direction hands to the search. */
  predicate CrossesIn(q: Search, from: Id, d: Direction, e: Edge, to: Id) {
    d in Each(q.direction) && e in q.graph.Scan(from, d) && Follows(q, e) && to == Far(e, d)
  }

  /** Scanning each direction in turn meets exactly the hops a walk may take. */
  lemma ScansMeetEveryHop(q: Search, from: Id, e: Edge, to: Id)
    ensures Crosses(q, from, e, to) <==> CrossesIn(q, from, Out, e, to) || CrossesIn(q, from, In, e, to)
  {
  }

  predicate Beats(a: Entry, b: Entry) {
    a.strength > b.strength || (a.strength == b.strength && a.depth < b.depth)
  }

  // --- the table ----------------------------------------------------------------

  function RowOf(best: Table, node: Id, maxDepth: nat): seq<real> {
    if node in best then best[node] else seq(maxDepth + 1, _ => -1.0)
  }

  /** Some path recorded for the node is no deeper and at least as strong. */
  predicate Covered(best: Table, node: Id, depth: nat, strength: real) {
    node in best && exists d :: 0 <= d <= depth && d < |best[node]| && best[node][d] >= strength
  }

  /** Some shallower path recorded for the node is strictly stronger. */
  predicate Dominated(row: seq<real>, depth: nat, strength: real) {
    exists d :: 0 <= d < depth && d < |row| && row[d] > strength
  }

  ghost predicate TableOk(q: Search, best: Table) {
    && q.start in best
    && (forall v :: v in best ==> |best[v]| == q.maxDepth + 1)
    && best[q.start][0] >= 1.0
    && (forall v, d :: v in best && 0 <= d <= q.maxDepth && best[v][d] != -1.0 ==> best[v][d] >= 0.0)
  }

  /** Records a path if it strictly beats every recorded path to the node at the same
      depth or a shallower one. */
  method Improves(best: Table, node: Id, depth: nat, strength: real, maxDepth: nat)
    returns (next: Table, ok: bool)
    requires depth <= maxDepth
    requires node in best ==> |best[node]| == maxDepth + 1
    ensures var row := RowOf(best, node, maxDepth);
            && (ok <==> forall d :: 0 <= d <= depth ==> row[d] < strength)
            && next == best[node := if ok then row[depth := strength] else row]
  {
    var row := RowOf(best, node, maxDepth);
    for d := 0 to depth + 1
      invariant forall i :: 0 <= i < d ==> row[i] < strength
    {
      if row[d] >= strength {
        return best[node := row], false;
      }
    }
    return best[node := row[depth := strength]], true;
  }

  /** A heap entry is out of date once a shorter or equal path has beaten its strength. */
  method Stale(row: seq<real>, cur: Entry) returns (stale: bool)
    requires cur.depth < |row|
    ensures stale <==> exists d :: 0 <= d <= cur.depth && row[d] > cur.strength
  {
    for d := 0 to cur.depth + 1
      invariant forall i :: 0 <= i < d ==> row[i] <= cur.strength
    {
      if row[d] > cur.strength {
        return true;
      }
    }
    return false;
  }

  // --- the frontier --------------------------------------------------------------

  lemma {:induction false} SomeEntryIsBest(frontier: seq<Entry>) returns (i: nat)
    requires frontier != []
    ensures i < |frontier| && forall j :: 0 <= j < |frontier| ==> !Beats(frontier[j], frontier[i])
    decreases |frontier|
  {
    if |frontier| == 1 {
      i := 0;
    } else {
      var k := SomeEntryIsBest(frontier[1..]);
      i := if Beats(frontier[0], frontier[k + 1]) then 0 else k + 1;
      assert forall j :: 1 <= j < |frontier| ==> frontier[j] == frontier[1..][j - 1];
    }
  }

  /** Takes some entry no other beats. Which of several equal ones is left open. */
  method Pop(frontier: seq<Entry>) returns (cur: Entry, rest: seq<Entry>)
    requires frontier != []
    ensures multiset(frontier) == multiset(rest) + multiset{cur}
    ensures |rest| == |frontier| - 1
    ensures forall e :: e in frontier <==> e == cur || e in rest
    ensures forall e :: e in frontier ==> !Beats(e, cur)
  {
    ghost var least := SomeEntryIsBest(frontier);
    var i :| 0 <= i < |frontier| && forall j :: 0 <= j < |frontier| ==> !Beats(frontier[j], frontier[i]);
    cur := frontier[i];
    rest := frontier[..i] + frontier[i + 1..];
    assert frontier == frontier[..i] + [cur] + frontier[i + 1..];
  }

  // --- what the search keeps ----------------------------------------------------------

  ghost predicate Justified(q: Search, e: Entry) {
    && e.depth <= q.maxDepth
    && Unit(q, e.strength)
    && (if e.via.None? then e.node == q.start && e.depth == 0 && e.strength == 1.0
        else Arrives(q, e.node, e.depth, e.strength, e.via.value))
  }

  predicate OnTable(best: Table, e: Entry) {
    e.node in best && e.depth < |best[e.node]| && best[e.node][e.depth] >= e.strength
  }

  predicate Queued(frontier: seq<Entry>, v: Id, depth: nat, strength: real) {
    exists e :: e in frontier && e.node == v && e.depth == depth && e.strength == strength
  }

  /** Every recorded path has been expanded, waits on the frontier, or is dominated. */
  ghost predicate Recorded(q: Search, best: Table, frontier: seq<Entry>, expanded: set<Label>) {
    forall v, d :: v in best && 0 <= d <= q.maxDepth && d < |best[v]| && best[v][d] >= 0.0 ==>
      || Label(v, d, best[v][d]) in expanded
      || Queued(frontier, v, d, best[v][d])
      || Dominated(best[v], d, best[v][d])
  }

  ghost predicate FrontierOk(q: Search, best: Table, frontier: seq<Entry>) {
    forall e :: e in frontier ==> Justified(q, e) && OnTable(best, e)
  }

  /** Everything one hop beyond an expanded path is covered by the table. */
  ghost predicate Closed(q: Search, best: Table, expanded: set<Label>) {
    forall l, e, to :: l in expanded && l.hops < q.maxDepth && Crosses(q, l.node, e, to) ==>
      Covered(best, to, l.hops + 1, q.mul(l.strength, e.strength))
  }

  ghost predicate ExpandedOk(q: Search, expanded: set<Label>) {
    forall l :: l in expanded ==> Unit(q, l.strength)
  }

  ghost predicate SearchOk(q: Search, best: Table, frontier: seq<Entry>, expanded: set<Label>) {
    TableOk(q, best) && FrontierOk(q, best, frontier) && Recorded(q, best, frontier, expanded)
  }

  /** An expanded path to the node is no deeper and at least as strong. */
  ghost predicate Met(expanded: set<Label>, v: Id, depth: nat, strength: real) {
    exists l :: l in expanded && l.node == v && l.hops <= depth && l.strength >= strength
  }

  // --- completeness --------------------------------------------------------------------

  /** The strongest recorded path up to a depth, at its shallowest. */
  lemma {:induction false} StrongestUpTo(row: seq<real>, depth: nat) returns (d: nat)
    requires depth < |row|
    ensures d <= depth && !Dominated(row, d, row[d])
    ensures forall i :: 0 <= i <= depth ==> row[i] <= row[d]
    decreases depth
  {
    if depth == 0 {
      d := 0;
    } else {
      d := StrongestUpTo(row, depth - 1);
      if row[depth] > row[d] {
        d := depth;
      }
    }
  }

  /** A covered path better than everything queued has been met by an expanded one. */
  lemma CoveredIsMet(q: Search, best: Table, frontier: seq<Entry>, expanded: set<Label>, v: Id, depth: nat, strength: real)
    requires SearchOk(q, best, frontier, expanded)
    requires Covered(best, v, depth, strength) && depth <= q.maxDepth && strength >= 0.0
    requires forall e :: e in frontier ==> Better(strength, depth, e.strength, e.depth)
    ensures Met(expanded, v, depth, strength)
  {
    var c :| 0 <= c <= depth && c < |best[v]| && best[v][c] >= strength;
    var d := StrongestUpTo(best[v], depth);
    assert best[v][d] >= strength;
    assert !Queued(frontier, v, d, best[v][d]);
    assert Label(v, d, best[v][d]) in expanded;
  }

  /** Every walk better than everything queued has been met by an expanded path. */
  lemma {:induction false} WalkIsMet(q: Search, best: Table, frontier: seq<Entry>, expanded: set<Label>, w: Walk)
    requires Sound(q) && SearchOk(q, best, frontier, expanded) && Closed(q, best, expanded) && ExpandedOk(q, expanded)
    requires Within(q, w)
    requires forall e :: e in frontier ==> Better(Strength(q, w), Hops(w), e.strength, e.depth)
    ensures Met(expanded, End(q, w), Hops(w), Strength(q, w))
    decreases w
  {
    StrengthIsUnit(q, w);
    if w.Hop? {
      StrengthIsUnit(q, w.before);
      WalkIsMet(q, best, frontier, expanded, w.before);
      var l :| l in expanded && l.node == End(q, w.before) && l.hops <= Hops(w.before) && l.strength >= Strength(q, w.before);
      assert Covered(best, w.to, l.hops + 1, q.mul(l.strength, w.edge.strength));
      assert KeepsOrder(q, Strength(q, w.before), l.strength, w.edge.strength);
      CoverageWeakens(best, w.to, l.hops + 1, q.mul(l.strength, w.edge.strength), Hops(w), Strength(q, w));
    } else {
      assert best[q.start][0] >= 1.0;
      assert Covered(best, q.start, 0, 1.0);
    }
    CoveredIsMet(q, best, frontier, expanded, End(q, w), Hops(w), Strength(q, w));
  }

  lemma CoverageWeakens(best: Table, v: Id, depth: nat, strength: real, moreDepth: nat, lessStrength: real)
    requires Covered(best, v, depth, strength) && depth <= moreDepth && lessStrength <= strength
    ensures Covered(best, v, moreDepth, lessStrength)
  {
    var d :| 0 <= d <= depth && d < |best[v]| && best[v][d] >= strength;
    assert 0 <= d <= moreDepth;
  }

  // --- expansion ------------------------------------------------------------------------

  ghost predicate Grew(best: Table, next: Table) {
    forall v :: v in best ==>
      v in next && |next[v]| == |best[v]| && forall d :: 0 <= d < |best[v]| ==> next[v][d] >= best[v][d]
  }

  lemma GrowthComposes(a: Table, b: Table, c: Table)
    requires Grew(a, b) && Grew(b, c)
    ensures Grew(a, c)
  {
  }

  lemma CoverageGrows(best: Table, next: Table, v: Id, depth: nat, strength: real)
    requires Grew(best, next) && Covered(best, v, depth, strength)
    ensures Covered(next, v, depth, strength)
  {
    var d :| 0 <= d <= depth && d < |best[v]| && best[v][d] >= strength;
    assert next[v][d] >= strength;
  }

  lemma ClosedGrows(q: Search, best: Table, next: Table, expanded: set<Label>)
    requires Grew(best, next) && Closed(q, best, expanded)
    ensures Closed(q, next, expanded)
  {
    forall l, e, to | l in expanded && l.hops < q.maxDepth && Crosses(q, l.node, e, to)
      ensures Covered(next, to, l.hops + 1, q.mul(l.strength, e.strength))
    {
      CoverageGrows(best, next, to, l.hops + 1, q.mul(l.strength, e.strength));
    }
  }

  /** The labels the table has not yet caught up with: what bounds the pushes to come. */
  ghost function Pending(labels: set<Label>, best: Table): set<Label> {
    set l | l in labels && !(l.node in best && l.hops < |best[l.node]| && best[l.node][l.hops] >= l.strength)
  }

  ghost function Measure(labels: set<Label>, best: Table, frontier: seq<Entry>): nat {
    2 * |Pending(labels, best)| + |frontier|
  }

  /** A finite set that labels every walk within the bound. */
  ghost predicate Labelling(q: Search, labels: set<Label>) {
    forall w {:trigger Within(q, w)} :: Within(q, w) ==> Label(End(q, w), Hops(w), Strength(q, w)) in labels
  }

  lemma PendingShrinks(labels: set<Label>, best: Table, next: Table, l: Label)
    requires Grew(best, next)
    requires l in Pending(labels, best) && l !in Pending(labels, next)
    ensures |Pending(labels, next)| < |Pending(labels, best)|
  {
    assert Pending(labels, next) < Pending(labels, best);
    SubsetSize(Pending(labels, next), Pending(labels, best));
  }

  /** The table after recording an entry's path. */
  function Recording(best: Table, e: Entry, maxDepth: nat): Table
    requires e.depth < |RowOf(best, e.node, maxDepth)|
  {
    best[e.node := RowOf(best, e.node, maxDepth)[e.depth := e.strength]]
  }

  ghost predicate Improving(q: Search, best: Table, e: Entry) {
    && e.depth <= q.maxDepth
    && |RowOf(best, e.node, q.maxDepth)| == q.maxDepth + 1
    && forall d :: 0 <= d <= e.depth ==> RowOf(best, e.node, q.maxDepth)[d] < e.strength
  }

  lemma RecordingGrows(q: Search, best: Table, frontier: seq<Entry>, e: Entry)
    requires TableOk(q, best) && FrontierOk(q, best, frontier) && Justified(q, e) && Improving(q, best, e)
    ensures var next := Recording(best, e, q.maxDepth);
            Grew(best, next) && TableOk(q, next) && FrontierOk(q, next, frontier + [e])
  {
    var next := Recording(best, e, q.maxDepth);
  }

  lemma QueueGrows(frontier: seq<Entry>, e: Entry, v: Id, d: nat, strength: real)
    requires Queued(frontier, v, d, strength)
    ensures Queued(frontier + [e], v, d, strength)
  {
    var x :| x in frontier && x.node == v && x.depth == d && x.strength == strength;
    assert x in frontier + [e];
  }

  /** A path recorded and queued together leaves every recorded path accounted for. */
  lemma PushKeepsRecord(q: Search, best: Table, frontier: seq<Entry>, expanded: set<Label>, e: Entry, v: Id, d: nat)
    requires TableOk(q, best) && Recorded(q, best, frontier, expanded) && Improving(q, best, e)
    requires var next := Recording(best, e, q.maxDepth); v in next && d <= q.maxDepth && next[v][d] >= 0.0
    ensures var next := Recording(best, e, q.maxDepth);
            || Label(v, d, next[v][d]) in expanded
            || Queued(frontier + [e], v, d, next[v][d])
            || Dominated(next[v], d, next[v][d])
  {
    var next := Recording(best, e, q.maxDepth);
    if v == e.node && d == e.depth {
      assert e in frontier + [e];
    } else {
      assert v in best && next[v][d] == best[v][d];
      if Queued(frontier, v, d, best[v][d]) {
        QueueGrows(frontier, e, v, d, best[v][d]);
      } else if Dominated(best[v], d, best[v][d]) {
        var c :| 0 <= c < d && c < |best[v]| && best[v][c] > best[v][d];
        assert next[v][c] > next[v][d];
      }
    }
  }

  lemma PushKeeps(q: Search, best: Table, frontier: seq<Entry>, expanded: set<Label>, e: Entry)
    requires SearchOk(q, best, frontier, expanded) && Justified(q, e) && Improving(q, best, e)
    ensures var next := Recording(best, e, q.maxDepth);
            Grew(best, next) && SearchOk(q, next, frontier + [e], expanded)
  {
    var next := Recording(best, e, q.maxDepth);
    RecordingGrows(q, best, frontier, e);
    forall v, d | v in next && 0 <= d <= q.maxDepth && d < |next[v]| && next[v][d] >= 0.0
      ensures Label(v, d, next[v][d]) in expanded || Queued(frontier + [e], v, d, next[v][d]) || Dominated(next[v], d, next[v][d])
    {
      PushKeepsRecord(q, best, frontier, expanded, e, v, d);
    }
  }

  lemma NotImprovingIsCovered(q: Search, best: Table, e: Entry)
    requires TableOk(q, best) && e.depth <= q.maxDepth && e.strength >= 0.0 && !Improving(q, best, e)
    ensures best[e.node := RowOf(best, e.node, q.maxDepth)] == best
    ensures Covered(best, e.node, e.depth, e.strength)
  {
    var row := RowOf(best, e.node, q.maxDepth);
    var d :| 0 <= d <= e.depth && row[d] >= e.strength;
    assert e.node in best;
  }

  /** Recording a path uses up the label it carries. */
  lemma RecordingProgresses(q: Search, best: Table, frontier: seq<Entry>, e: Entry, labels: set<Label>)
    requires Improving(q, best, e) && Label(e.node, e.depth, e.strength) in labels
    requires Grew(best, Recording(best, e, q.maxDepth))
    ensures var next := Recording(best, e, q.maxDepth);
            && Covered(next, e.node, e.depth, e.strength)
            && Measure(labels, next, frontier + [e]) < Measure(labels, best, frontier)
  {
    var next := Recording(best, e, q.maxDepth);
    assert next[e.node][e.depth] >= e.strength;
    PendingShrinks(labels, best, next, Label(e.node, e.depth, e.strength));
  }

  lemma EntryHasWalk(q: Search, e: Entry) returns (w: Walk)
    requires Justified(q, e)
    ensures IsWalk(q, w) && End(q, w) == e.node && Hops(w) == e.depth && Strength(q, w) == e.strength
  {
    if e.via.None? {
      w := Anchor;
    } else {
      w :| w.Hop? && IsWalk(q, w) && w.to == e.node && Hops(w) == e.depth &&
           Strength(q, w) == e.strength && w.edge == e.via.value;
    }
  }

  lemma CrossingIsJustified(q: Search, cur: Entry, e: Edge, to: Id, labels: set<Label>)
    requires Sound(q) && Justified(q, cur) && cur.depth < q.maxDepth && Crosses(q, cur.node, e, to)
    requires Labelling(q, labels)
    ensures Justified(q, Entry(to, cur.depth + 1, q.mul(cur.strength, e.strength), Some(e)))
    ensures q.mul(cur.strength, e.strength) <= cur.strength
    ensures Label(to, cur.depth + 1, q.mul(cur.strength, e.strength)) in labels
  {
    EdgeIsUnit(q, cur.node, e, to);
    assert NeverStrengthens(q, cur.strength, e.strength);
    var before := EntryHasWalk(q, cur);
    var w := Hop(before, e, to);
    assert Within(q, w);
  }

  /** Offers the paths one hop beyond an entry, in one direction, to the table. */
  method ExpandIn(q: Search, d: Direction, cur: Entry, best0: Table, frontier0: seq<Entry>, ghost expanded: set<Label>, ghost labels: set<Label>)
    returns (best: Table, frontier: seq<Entry>)
    requires Sound(q) && d in Each(q.direction)
    requires Justified(q, cur) && cur.depth < q.maxDepth && Labelling(q, labels)
    requires SearchOk(q, best0, frontier0, expanded)
    requires forall x :: x in frontier0 ==> !Beats(x, cur)
    ensures SearchOk(q, best, frontier, expanded) && Grew(best0, best)
    ensures forall x :: x in frontier ==> !Beats(x, cur)
    ensures forall e, to :: CrossesIn(q, cur.node, d, e, to) ==>
              Covered(best, to, cur.depth + 1, q.mul(cur.strength, e.strength))
    ensures Measure(labels, best, frontier) <= Measure(labels, best0, frontier0)
  {
    best, frontier := best0, frontier0;
    var edges := q.graph.Scan(cur.node, d);
    for i := 0 to |edges|
      invariant SearchOk(q, best, frontier, expanded) && Grew(best0, best)
      invariant forall x :: x in frontier ==> !Beats(x, cur)
      invariant forall j :: 0 <= j < i && Follows(q, edges[j]) ==>
                  Covered(best, Far(edges[j], d), cur.depth + 1, q.mul(cur.strength, edges[j].strength))
      invariant Measure(labels, best, frontier) <= Measure(labels, best0, frontier0)
    {
      var e := edges[i];
      if Follows(q, e) {
        ghost var before := best;
        best, frontier := Follow(q, d, cur, e, best, frontier, expanded, labels);
        forall j | 0 <= j < i && Follows(q, edges[j])
          ensures Covered(best, Far(edges[j], d), cur.depth + 1, q.mul(cur.strength, edges[j].strength))
        {
          CoverageGrows(before, best, Far(edges[j], d), cur.depth + 1, q.mul(cur.strength, edges[j].strength));
        }
        GrowthComposes(best0, before, best);
      }
    }
  }

  /** Follows one edge: records and queues the path unless a recorded one covers it. */
  method Follow(q: Search, d: Direction, cur: Entry, e: Edge, best0: Table, frontier0: seq<Entry>, ghost expanded: set<Label>, ghost labels: set<Label>)
    returns (best: Table, frontier: seq<Entry>)
    requires Sound(q) && d in Each(q.direction) && CrossesIn(q, cur.node, d, e, Far(e, d))
    requires Justified(q, cur) && cur.depth < q.maxDepth && Labelling(q, labels)
    requires SearchOk(q, best0, frontier0, expanded)
    requires forall x :: x in frontier0 ==> !Beats(x, cur)
    ensures SearchOk(q, best, frontier, expanded) && Grew(best0, best)
    ensures forall x :: x in frontier ==> !Beats(x, cur)
    ensures Covered(best, Far(e, d), cur.depth + 1, q.mul(cur.strength, e.strength))
    ensures Measure(labels, best, frontier) <= Measure(labels, best0, frontier0)
  {
    var next := Far(e, d);
    ScansMeetEveryHop(q, cur.node, e, next);
    CrossingIsJustified(q, cur, e, next, labels);
    var strength := q.mul(cur.strength, e.strength);
    var step := Entry(next, cur.depth + 1, strength, Some(e));
    var ok;
    best, ok := Improves(best0, next, step.depth, strength, q.maxDepth);
    assert ok <==> Improving(q, best0, step);
    if !ok {
      NotImprovingIsCovered(q, best0, step);
      frontier := frontier0;
    } else {
      PushKeeps(q, best0, frontier0, expanded, step);
      RecordingProgresses(q, best0, frontier0, step, labels);
      frontier := frontier0 + [step];
    }
  }

  /** Offers the paths one hop beyond an entry, in every direction asked for. */
  method Expand(q: Search, cur: Entry, best0: Table, frontier0: seq<Entry>, ghost expanded: set<Label>, ghost labels: set<Label>)
    returns (best: Table, frontier: seq<Entry>)
    requires Sound(q)
    requires Justified(q, cur) && cur.depth < q.maxDepth && Labelling(q, labels)
    requires SearchOk(q, best0, frontier0, expanded)
    requires forall x :: x in frontier0 ==> !Beats(x, cur)
    ensures SearchOk(q, best, frontier, expanded) && Grew(best0, best)
    ensures forall x :: x in frontier ==> !Beats(x, cur)
    ensures forall e, to :: Crosses(q, cur.node, e, to) ==> Covered(best, to, cur.depth + 1, q.mul(cur.strength, e.strength))
    ensures Measure(labels, best, frontier) <= Measure(labels, best0, frontier0)
  {
    best, frontier := best0, frontier0;
    var dirs := Each(q.direction);
    for i := 0 to |dirs|
      invariant SearchOk(q, best, frontier, expanded) && Grew(best0, best)
      invariant forall x :: x in frontier ==> !Beats(x, cur)
      invariant forall j, e, to :: 0 <= j < i && CrossesIn(q, cur.node, dirs[j], e, to) ==>
                  Covered(best, to, cur.depth + 1, q.mul(cur.strength, e.strength))
      invariant Measure(labels, best, frontier) <= Measure(labels, best0, frontier0)
    {
      ghost var before := best;
      best, frontier := ExpandIn(q, dirs[i], cur, best, frontier, expanded, labels);
      forall j, e, to | 0 <= j < i && CrossesIn(q, cur.node, dirs[j], e, to)
        ensures Covered(best, to, cur.depth + 1, q.mul(cur.strength, e.strength))
      {
        CoverageGrows(before, best, to, cur.depth + 1, q.mul(cur.strength, e.strength));
      }
      GrowthComposes(best0, before, best);
    }
    forall e, to | Crosses(q, cur.node, e, to)
      ensures Covered(best, to, cur.depth + 1, q.mul(cur.strength, e.strength))
    {
      ScansMeetEveryHop(q, cur.node, e, to);
      var d := if CrossesIn(q, cur.node, Out, e, to) then Out else In;
      var j :| 0 <= j < |dirs| && dirs[j] == d;
    }
  }

  // --- the traversal -------------------------------------------------------------------

  ghost predicate ResultOk(q: Search, reached: seq<Reached>) {
    && (forall i :: 0 <= i < |reached| ==> ReportOk(q, reached[i]))
    && (forall i, j :: 0 <= i < j < |reached| ==> InOrder(reached[i], reached[j]))
  }

  /** What is reported of a node: the greatest strength any walk within the depth gives it,
      the fewest hops that do, and the last edge of such a walk. */
  ghost predicate ReportOk(q: Search, r: Reached) {
    && r.node != q.start
    && r.depth <= q.maxDepth
    && Arrives(q, r.node, r.depth, r.strength, r.via)
    && NoneBetter(q, r.node, r.strength, r.depth)
  }

  predicate InOrder(a: Reached, b: Reached) {
    a.node != b.node && !Better(b.strength, b.depth, a.strength, a.depth)
  }

  ghost function Nodes(reached: seq<Reached>): set<Id> {
    if reached == [] then {} else Nodes(reached[..|reached| - 1]) + {reached[|reached| - 1].node}
  }

  ghost predicate Reports(reached: seq<Reached>, v: Id) {
    exists i :: 0 <= i < |reached| && reached[i].node == v
  }

  lemma {:induction false} NodesAreReported(reached: seq<Reached>, v: Id)
    ensures v in Nodes(reached) <==> Reports(reached, v)
    decreases |reached|
  {
    if reached != [] {
      var front := reached[..|reached| - 1];
      NodesAreReported(front, v);
      if Reports(reached, v) {
        var i :| 0 <= i < |reached| && reached[i].node == v;
        assert i < |front| ==> front[i].node == v;
      }
      if Reports(front, v) {
        var i :| 0 <= i < |front| && front[i].node == v;
        assert reached[i].node == v;
      }
    }
  }

  ghost predicate Emitted(emitted: set<Id>, reached: seq<Reached>) {
    emitted == Nodes(reached) && |emitted| == |reached|
  }

  ghost predicate AllEmitted(q: Search, expanded: set<Label>, emitted: set<Id>) {
    forall l :: l in expanded ==> l.node == q.start || l.node in emitted
  }

  /** Nothing queued is better than the last entry popped, and that is no better than
      anything reported. */
  ghost predicate Descending(frontier: seq<Entry>, last: Entry, reached: seq<Reached>) {
    && (forall x :: x in frontier ==> !Beats(x, last))
    && (forall i :: 0 <= i < |reached| ==> !Better(last.strength, last.depth, reached[i].strength, reached[i].depth))
  }

  /** A walk to a node not yet reported is no better than the best entry queued. */
  lemma UnreportedIsNoBetter(q: Search, best: Table, frontier: seq<Entry>, expanded: set<Label>, emitted: set<Id>, top: Entry, w: Walk)
    requires Sound(q) && SearchOk(q, best, frontier, expanded) && Closed(q, best, expanded) && ExpandedOk(q, expanded)
    requires AllEmitted(q, expanded, emitted)
    requires forall x :: x in frontier ==> !Beats(x, top)
    requires Within(q, w) && End(q, w) != q.start && End(q, w) !in emitted
    ensures !Better(Strength(q, w), Hops(w), top.strength, top.depth)
  {
    if Better(Strength(q, w), Hops(w), top.strength, top.depth) {
      WalkIsMet(q, best, frontier, expanded, w);
    }
  }

  /** With nothing queued, every reachable node has been reported. */
  lemma DrainedIsComplete(q: Search, best: Table, expanded: set<Label>, emitted: set<Id>, node: Id)
    requires Sound(q) && SearchOk(q, best, [], expanded) && Closed(q, best, expanded) && ExpandedOk(q, expanded)
    requires AllEmitted(q, expanded, emitted)
    requires Reachable(q, node) && node != q.start
    ensures node in emitted
  {
    var w :| Within(q, w) && End(q, w) == node;
    WalkIsMet(q, best, [], expanded, w);
  }

  /** Popping an entry leaves every recorded path accounted for: the popped one is
      expanded, or is superseded and so dominated or no longer recorded. */
  lemma PopKeeps(q: Search, best: Table, frontier: seq<Entry>, rest: seq<Entry>, cur: Entry, expanded: set<Label>, more: set<Label>)
    requires SearchOk(q, best, frontier, expanded)
    requires forall e :: e in frontier <==> e == cur || e in rest
    requires expanded <= more && cur.node in best
    requires Label(cur.node, cur.depth, cur.strength) in more || Dominated(best[cur.node], cur.depth + 1, cur.strength)
    ensures SearchOk(q, best, rest, more)
  {
    forall v, d | v in best && 0 <= d <= q.maxDepth && d < |best[v]| && best[v][d] >= 0.0
      ensures Label(v, d, best[v][d]) in more || Queued(rest, v, d, best[v][d]) || Dominated(best[v], d, best[v][d])
    {
      PopKeepsRecord(q, best[v], frontier, rest, cur, more, v, d);
    }
  }

  lemma PopKeepsRecord(q: Search, row: seq<real>, frontier: seq<Entry>, rest: seq<Entry>, cur: Entry, more: set<Label>, v: Id, d: nat)
    requires forall e :: e in frontier <==> e == cur || e in rest
    requires d < |row|
    requires Label(v, d, row[d]) in more || Queued(frontier, v, d, row[d]) || Dominated(row, d, row[d])
    requires cur.node == v ==> Label(v, cur.depth, cur.strength) in more || Dominated(row, cur.depth + 1, cur.strength)
    ensures Label(v, d, row[d]) in more || Queued(rest, v, d, row[d]) || Dominated(row, d, row[d])
  {
    if Queued(frontier, v, d, row[d]) && Label(v, d, row[d]) !in more {
      var e :| e in frontier && e.node == v && e.depth == d && e.strength == row[d];
      if e == cur {
        var c :| 0 <= c < d + 1 && c < |row| && row[c] > row[d];
        assert c < d;
      }
    }
  }

  /** A node leaves the heap with its best entry before any other of its entries. */
  lemma FirstPopIsBest(q: Search, best: Table, frontier: seq<Entry>, expanded: set<Label>, emitted: set<Id>, cur: Entry)
    requires Sound(q) && SearchOk(q, best, frontier, expanded) && Closed(q, best, expanded) && ExpandedOk(q, expanded)
    requires AllEmitted(q, expanded, emitted)
    requires forall x :: x in frontier ==> !Beats(x, cur)
    requires cur.node != q.start && cur.node !in emitted && Justified(q, cur)
    ensures cur.via.Some? && Arrives(q, cur.node, cur.depth, cur.strength, cur.via.value)
    ensures NoneBetter(q, cur.node, cur.strength, cur.depth)
    ensures Reachable(q, cur.node)
  {
    forall w | Within(q, w) && End(q, w) == cur.node
      ensures !Better(Strength(q, w), Hops(w), cur.strength, cur.depth)
    {
      UnreportedIsNoBetter(q, best, frontier, expanded, emitted, cur, w);
    }
    var w := EntryHasWalk(q, cur);
    assert Within(q, w);
  }

  lemma FiniteLabels(q: Search) returns (labels: set<Label>)
    ensures Labelling(q, labels)
  {
    labels := Labels(q, q.maxDepth);
    forall w | Within(q, w)
      ensures Label(End(q, w), Hops(w), Strength(q, w)) in labels
    {
      WalkIsLabelled(q, w);
      LabelsAreLevels(q, Label(End(q, w), Hops(w), Strength(q, w)), q.maxDepth);
    }
  }

  /** `hood` is every node reachable within the bound, the anchor apart. */
  ghost predicate IsHood(q: Search, hood: set<Id>) {
    forall v :: v in hood <==> v != q.start && Reachable(q, v)
  }

  ghost predicate LoopOk(
    q: Search, best: Table, frontier: seq<Entry>, expanded: set<Label>, emitted: set<Id>, reached: seq<Reached>, last: Entry)
  {
    && SearchOk(q, best, frontier, expanded) && Closed(q, best, expanded) && ExpandedOk(q, expanded)
    && AllEmitted(q, expanded, emitted) && Emitted(emitted, reached)
    && ResultOk(q, reached)
    && Descending(frontier, last, reached)
  }

  lemma EmitKeeps(q: Search, reached: seq<Reached>, emitted: set<Id>, r: Reached)
    requires ResultOk(q, reached) && Emitted(emitted, reached)
    requires ReportOk(q, r) && r.node !in emitted
    requires forall i :: 0 <= i < |reached| ==> !Better(r.strength, r.depth, reached[i].strength, reached[i].depth)
    ensures ResultOk(q, reached + [r]) && Emitted(emitted + {r.node}, reached + [r])
  {
    assert (reached + [r])[..|reached|] == reached;
    forall i | 0 <= i < |reached|
      ensures InOrder(reached[i], r)
    {
      NodesAreReported(reached, reached[i].node);
    }
  }

  lemma StartIsOk(q: Search, best: Table)
    requires Unit(q, 1.0)
    requires best == map[q.start := seq(q.maxDepth + 1, _ => -1.0)[0 := 1.0]]
    ensures var start := Entry(q.start, 0, 1.0, None);
            LoopOk(q, best, [start], {}, {}, [], start)
  {
    assert Entry(q.start, 0, 1.0, None) in [Entry(q.start, 0, 1.0, None)];
  }

  /** Expanding an entry closes the search over it. */
  lemma ExpandedIsClosed(q: Search, before: Table, best: Table, expanded: set<Label>, cur: Entry)
    requires Closed(q, before, expanded) && Grew(before, best) && ExpandedOk(q, expanded) && Unit(q, cur.strength)
    requires cur.depth < q.maxDepth ==>
               forall e, to :: Crosses(q, cur.node, e, to) ==> Covered(best, to, cur.depth + 1, q.mul(cur.strength, e.strength))
    ensures var more := expanded + {Label(cur.node, cur.depth, cur.strength)};
            Closed(q, best, more) && ExpandedOk(q, more)
  {
    ClosedGrows(q, before, best, expanded);
  }

  /** What a spent budget leaves out is no stronger than anything reported. */
  lemma OmittedIsWeaker(q: Search, best: Table, frontier: seq<Entry>, expanded: set<Label>, emitted: set<Id>, reached: seq<Reached>,
                        last: Entry, cur: Entry, w: Walk, i: nat)
    requires Sound(q) && LoopOk(q, best, frontier, expanded, emitted, reached, last)
    requires cur in frontier && (forall x :: x in frontier ==> !Beats(x, cur))
    requires Within(q, w) && End(q, w) != q.start && End(q, w) !in emitted && i < |reached|
    ensures Strength(q, w) <= reached[i].strength
  {
    UnreportedIsNoBetter(q, best, frontier, expanded, emitted, cur, w);
    assert !Beats(cur, last);
  }

  lemma EmittedWithin(q: Search, reached: seq<Reached>, emitted: set<Id>, hood: set<Id>)
    requires ResultOk(q, reached) && Emitted(emitted, reached) && IsHood(q, hood)
    ensures emitted <= hood
  {
    forall v | v in emitted
      ensures v in hood
    {
      NodesAreReported(reached, v);
      var i :| 0 <= i < |reached| && reached[i].node == v;
      var r := reached[i];
      var w: Walk :| w.Hop? && IsWalk(q, w) && w.to == r.node && Hops(w) == r.depth && Strength(q, w) == r.strength && w.edge == r.via;
      assert Within(q, w) && End(q, w) == v;
    }
  }

  /** Reports a popped entry if it is its node's first, unless the budget is spent. */
  method Emit(q: Search, maxNodes: nat, cur: Entry, best: Table, frontier: seq<Entry>, emitted0: set<Id>, reached0: seq<Reached>,
              ghost expanded: set<Label>, ghost last: Entry)
    returns (emitted: set<Id>, reached: seq<Reached>, spent: bool)
    requires Sound(q) && LoopOk(q, best, frontier, expanded, emitted0, reached0, last) && |reached0| <= maxNodes
    requires cur in frontier && (forall x :: x in frontier ==> !Beats(x, cur))
    ensures spent ==> reached == reached0 && |reached| == maxNodes
    ensures spent ==> cur.node != q.start && cur.node !in emitted0 && Reachable(q, cur.node)
    ensures !spent ==> ResultOk(q, reached) && Emitted(emitted, reached) && |reached| <= maxNodes
    ensures !spent ==> emitted0 <= emitted && (cur.node == q.start || cur.node in emitted)
    ensures !spent ==> forall i :: 0 <= i < |reached| ==> !Better(cur.strength, cur.depth, reached[i].strength, reached[i].depth)
  {
    emitted, reached, spent := emitted0, reached0, false;
    assert !Beats(cur, last);
    if cur.node != q.start && cur.node !in emitted {
      FirstPopIsBest(q, best, frontier, expanded, emitted, cur);
      if |reached| >= maxNodes {
        spent := true;
        return;
      }
      var r := Reached(cur.node, cur.depth, cur.strength, cur.via.value);
      EmitKeeps(q, reached, emitted, r);
      emitted := emitted + {cur.node};
      reached := reached + [r];
    }
  }

  /** Walks outward from the anchor, spending the budget on the strongest paths.
      Every reported node carries the strength of its best walk within the depth, at its
      fewest hops, with the last edge of such a path; nodes come strongest first, then
      shallowest. The budget is reported spent exactly when more nodes are reachable
      than it allows; unspent, the reachable nodes are exactly the reported ones, and
      spent, nothing left out is stronger than anything reported. */
  method Run(q: Search, maxNodes: nat, ghost hood: set<Id>) returns (t: Traversal)
    requires Sound(q) && IsHood(q, hood)
    ensures ResultOk(q, t.reached) && |t.reached| <= maxNodes
    ensures t.truncated <==> |hood| > maxNodes
    ensures !t.truncated ==> forall v :: v in hood <==> Reports(t.reached, v)
    ensures t.truncated ==> |t.reached| == maxNodes && OmitsOnlyWeaker(q, t.reached)
  {
    var best: Table;
    var ok: bool;
    best, ok := Improves(map[], q.start, 0, 1.0, q.maxDepth);
    var frontier := [Entry(q.start, 0, 1.0, None)];
    var reached: seq<Reached> := [];
    var emitted: set<Id> := {};
    ghost var expanded: set<Label> := {};
    ghost var last := frontier[0];
    ghost var labels := FiniteLabels(q);
    StartIsOk(q, best);
    while frontier != []
      invariant LoopOk(q, best, frontier, expanded, emitted, reached, last)
      invariant |reached| <= maxNodes
      decreases Measure(labels, best, frontier)
    {
      var cur, rest := Pop(frontier);
      assert cur in frontier;
      var stale := Stale(best[cur.node], cur);
      if stale {
        PopKeeps(q, best, frontier, rest, cur, expanded, expanded);
        frontier := rest;
        continue;
      }
      ghost var was := emitted;
      var spent: bool;
      emitted, reached, spent := Emit(q, maxNodes, cur, best, frontier, emitted, reached, expanded, last);
      if spent {
        Truncation(q, best, frontier, expanded, was, reached, last, cur, hood);
        return Traversal(reached, true);
      }
      ghost var more := expanded + {Label(cur.node, cur.depth, cur.strength)};
      PopKeeps(q, best, frontier, rest, cur, expanded, more);
      ghost var before := best;
      frontier := rest;
      if cur.depth < q.maxDepth {
        best, frontier := Expand(q, cur, best, frontier, more, labels);
      }
      ExpandedIsClosed(q, before, best, expanded, cur);
      expanded, last := more, cur;
    }
    Drained(q, best, expanded, emitted, reached, hood);
    return Traversal(reached, false);
  }

  ghost predicate OmitsOnlyWeaker(q: Search, reached: seq<Reached>) {
    forall w, i {:trigger Within(q, w), reached[i]} ::
      Within(q, w) && End(q, w) != q.start && !Reports(reached, End(q, w)) && 0 <= i < |reached| ==>
        Strength(q, w) <= reached[i].strength
  }

  lemma Truncation(q: Search, best: Table, frontier: seq<Entry>, expanded: set<Label>, emitted: set<Id>, reached: seq<Reached>,
                   last: Entry, cur: Entry, hood: set<Id>)
    requires Sound(q) && LoopOk(q, best, frontier, expanded, emitted, reached, last) && IsHood(q, hood)
    requires cur in frontier && (forall x :: x in frontier ==> !Beats(x, cur))
    requires cur.node != q.start && cur.node !in emitted && Reachable(q, cur.node)
    ensures |hood| > |reached| && OmitsOnlyWeaker(q, reached)
  {
    EmittedWithin(q, reached, emitted, hood);
    SubsetSize(emitted, hood);
    forall w, i | Within(q, w) && End(q, w) != q.start && !Reports(reached, End(q, w)) && 0 <= i < |reached|
      ensures Strength(q, w) <= reached[i].strength
    {
      NodesAreReported(reached, End(q, w));
      OmittedIsWeaker(q, best, frontier, expanded, emitted, reached, last, cur, w, i);
    }
  }

  lemma Drained(q: Search, best: Table, expanded: set<Label>, emitted: set<Id>, reached: seq<Reached>, hood: set<Id>)
    requires Sound(q) && SearchOk(q, best, [], expanded) && Closed(q, best, expanded) && ExpandedOk(q, expanded)
    requires AllEmitted(q, expanded, emitted) && Emitted(emitted, reached) && ResultOk(q, reached) && IsHood(q, hood)
    ensures |hood| == |reached|
    ensures forall v :: v in hood <==> Reports(reached, v)
  {
    EmittedWithin(q, reached, emitted, hood);
    forall v | v in hood
      ensures v in emitted
    {
      DrainedIsComplete(q, best, expanded, emitted, v);
    }
    assert hood == emitted;
    forall v
      ensures v in hood <==> Reports(reached, v)
    {
      NodesAreReported(reached, v);
    }
  }

  /** What a caller asks for; zero bounds mean the defaults. */
  datatype Options = Options(maxDepth: int, maxNodes: int, types: seq<RelType>, direction: Direction, minStrength: real)

  /** Refuses an unscoped request, one with nowhere to start and one outside the
      ceilings; answers every other as `Run` does, over the nodes in reach. */
  method TraverseFrom(tenant: Tenant, graph: Adjacency, start: Id, opts: Options, held: real -> bool, mul: (real, real) -> real)
    returns (r: Result<Traversal>)
    requires forall depth: nat ::
               Sound(Search(graph, start, opts.direction, opts.types, opts.minStrength, depth, held, mul))
    ensures r.Err? <==> tenant == "" || start == ZERO_ID || !(0 <= opts.maxDepth <= 5 && 0 <= opts.maxNodes <= 10000)
    ensures r.Ok? ==>
              var depth := if opts.maxDepth == 0 then 1 else opts.maxDepth;
              var nodes := if opts.maxNodes == 0 then 200 else opts.maxNodes;
              var q := Search(graph, start, opts.direction, opts.types, opts.minStrength, depth, held, mul);
              && ResultOk(q, r.value.reached)
              && (r.value.truncated <==> |Neighbourhood(q)| > nodes)
              && (!r.value.truncated ==> forall v :: Reports(r.value.reached, v) <==> v != start && Reachable(q, v))
              && (r.value.truncated ==> |r.value.reached| == nodes && OmitsOnlyWeaker(q, r.value.reached))
  {
    if tenant == "" || start == ZERO_ID {
      return Err(Invalid);
    }
    var bounds := ResolveBounds(opts.maxDepth, opts.maxNodes);
    if bounds.Err? {
      return Err(bounds.error);
    }
    var q := Search(graph, start, opts.direction, opts.types, opts.minStrength, bounds.value.depth, held, mul);
    forall v
      ensures v in Neighbourhood(q) <==> v != q.start && Reachable(q, v)
    {
      NeighbourhoodIsReachable(q, v);
    }
    var t := Run(q, bounds.value.nodes, Neighbourhood(q));
    return Ok(t);
  }
}
