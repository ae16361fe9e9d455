/** The graph checker: two scans of a scope's edge rows, and a report of what is wrong. A
    clean report means a consistent graph exactly when every edge key holds an edge and no
    more. */
module GraphVerify {
  import opened Prelude
  import opened ByteOrder
  import opened Storage
  import opened GraphTypes
  import opened GraphKeys
  import opened GraphMirror
  import Keys

  const MAX_FINDINGS: nat := 1000

  datatype Kind = MissingReverse | OrphanReverse | ReverseDisagrees | MissingRecord | SelfEdge

  datatype Finding = Finding(kind: Kind, link: Link)

  /** Whether rebuilding the in-edges clears a finding. */
  predicate Repairable(kind: Kind) {
    kind.MissingReverse? || kind.OrphanReverse? || kind.ReverseDisagrees?
  }

  // --- what a finding says ----------------------------------------------------------------

  predicate Present(kv: KV, sc: Scope, rid: Id) {
    Keys.Build(Keys.Key(sc.tenant, sc.ns, Keys.Record(1, rid))) in kv
  }

  ghost predicate Problem(kv: KV, sc: Scope, f: Finding) {
    var out, inn := OutKey(sc, f.link), InKey(sc, f.link);
    match f.kind
    case MissingReverse => out in kv && inn !in kv
    case OrphanReverse => inn in kv && out !in kv
    case ReverseDisagrees => out in kv && inn in kv && kv[out] != kv[inn]
    case MissingRecord => out in kv && (!Present(kv, sc, f.link.from) || !Present(kv, sc, f.link.to))
    case SelfEdge => out in kv && f.link.from == f.link.to
  }

  ghost predicate KeysWhole(kv: KV, sc: Scope) {
    forall k | k in kv && (InOut(sc, k) || InIn(sc, k)) :: Whole(k)
  }

  /** The rows of a scope's graph are as its writers leave them. */
  ghost predicate Consistent(kv: KV, sc: Scope) {
    && KeysWhole(kv, sc)
    && forall l :: Twins(kv, OutKey(sc, l), InKey(sc, l))
                   && (OutKey(sc, l) in kv ==> l.from != l.to && Present(kv, sc, l.from) && Present(kv, sc, l.to))
  }

  /** No problem of any kind, and whole keys: that is consistency. */
  lemma ConsistentExactly(kv: KV, sc: Scope)
    ensures Consistent(kv, sc) <==> KeysWhole(kv, sc) && forall f :: !Problem(kv, sc, f)
  {
    if KeysWhole(kv, sc) && forall f :: !Problem(kv, sc, f) {
      forall l
        ensures Twins(kv, OutKey(sc, l), InKey(sc, l))
        ensures OutKey(sc, l) in kv ==> l.from != l.to && Present(kv, sc, l.from) && Present(kv, sc, l.to)
      {
        assert !Problem(kv, sc, Finding(MissingReverse, l)) && !Problem(kv, sc, Finding(OrphanReverse, l));
        assert !Problem(kv, sc, Finding(ReverseDisagrees, l));
        assert !Problem(kv, sc, Finding(MissingRecord, l)) && !Problem(kv, sc, Finding(SelfEdge, l));
      }
    }
  }

  // --- what the scans list ----------------------------------------------------------------

  /** An edge row as a scan hands it over, its ends the right way round. */
  datatype Row = Row(link: Link, value: Bytes)

  /** What the scans ask of the store besides their rows. */
  datatype View = View(present: Id -> bool, inKey: Link -> Bytes, held: Bytes -> Option<Bytes>)

  function If(wrong: bool, kind: Kind, l: Link): seq<Finding> {
    if wrong then [Finding(kind, l)] else []
  }

  /** What is wrong with one out-edge, in the order the checker looks. */
  function EdgeFindings(v: View, row: Row): seq<Finding> {
    var l, reverse := row.link, v.held(v.inKey(row.link));
    If(l.from == l.to, SelfEdge, l) + If(!v.present(l.from), MissingRecord, l) + If(!v.present(l.to), MissingRecord, l)
    + If(reverse.None?, MissingReverse, l) + If(reverse.Some? && reverse.value != row.value, ReverseDisagrees, l)
  }

  function OutFindings(v: View, rows: seq<Row>, n: nat): seq<Finding>
    requires n <= |rows|
  {
    if n == 0 then [] else OutFindings(v, rows, n - 1) + EdgeFindings(v, rows[n - 1])
  }

  /** The in-keys the out-edges call for. */
  function ReverseKeys(v: View, rows: seq<Row>, n: nat): set<Bytes>
    requires n <= |rows|
  {
    if n == 0 then {} else ReverseKeys(v, rows, n - 1) + {v.inKey(rows[n - 1].link)}
  }

  function InFindings(v: View, rows: seq<Row>, n: nat, seen: set<Bytes>): seq<Finding>
    requires n <= |rows|
  {
    if n == 0 then []
    else InFindings(v, rows, n - 1, seen) + If(v.inKey(rows[n - 1].link) !in seen, OrphanReverse, rows[n - 1].link)
  }

  /** Everything one verification finds, in the order it finds it. */
  function AllFindings(v: View, outs: seq<Row>, ins: seq<Row>): seq<Finding> {
    OutFindings(v, outs, |outs|) + InFindings(v, ins, |ins|, ReverseKeys(v, outs, |outs|))
  }

  lemma {:induction false} InOutFindings(v: View, rows: seq<Row>, n: nat, f: Finding)
    requires n <= |rows|
    ensures f in OutFindings(v, rows, n) <==> exists i | 0 <= i < n :: f in EdgeFindings(v, rows[i])
  {
    if n > 0 {
      InOutFindings(v, rows, n - 1, f);
    }
  }

  lemma {:induction false} InReverseKeys(v: View, rows: seq<Row>, n: nat, x: Bytes)
    requires n <= |rows|
    ensures x in ReverseKeys(v, rows, n) <==> exists i | 0 <= i < n :: x == v.inKey(rows[i].link)
  {
    if n > 0 {
      InReverseKeys(v, rows, n - 1, x);
    }
  }

  lemma {:induction false} InInFindings(v: View, rows: seq<Row>, n: nat, seen: set<Bytes>, f: Finding)
    requires n <= |rows|
    ensures f in InFindings(v, rows, n, seen) <==>
            f.kind.OrphanReverse? && v.inKey(f.link) !in seen && exists i | 0 <= i < n :: rows[i].link == f.link
  {
    if n > 0 {
      InInFindings(v, rows, n - 1, seen, f);
    }
  }

  // --- the two passes ----------------------------------------------------------------------

  class Report {
    var edges: nat
    var reverse: nat
    var broken: nat
    var findings: seq<Finding>
    var truncated: bool

    constructor ()
      ensures Lists([]) && edges == 0 && reverse == 0
    {
      edges, reverse, broken, findings, truncated := 0, 0, 0, [], false;
    }

    /** The count is of everything found; the list stops at the cap and says so. */
    ghost predicate Lists(all: seq<Finding>)
      reads this
    {
      && broken == |all|
      && |findings| == (if |all| <= 1000 then |all| else 1000) && findings <= all
      && truncated == (|all| > 1000)
    }

    /** Only what is wrong is listed, and all of it unless the list is cut. */
    ghost predicate ListsProblems(kv: KV, sc: Scope)
      reads this
    {
      && (forall f | f in findings :: Problem(kv, sc, f))
      && (!truncated ==> forall f | Problem(kv, sc, f) :: f in findings)
    }

    method Add(f: Finding, ghost all: seq<Finding>)
      requires Lists(all)
      modifies this
      ensures edges == old(edges) && reverse == old(reverse)
      ensures Lists(all + [f])
    {
      broken := broken + 1;
      if |findings| < MAX_FINDINGS {
        findings := findings + [f];
        return;
      }
      truncated := true;
    }

    method AddIf(wrong: bool, kind: Kind, l: Link, ghost all: seq<Finding>)
      requires Lists(all)
      modifies this
      ensures edges == old(edges) && reverse == old(reverse)
      ensures Lists(all + If(wrong, kind, l))
    {
      assert all + [] == all;
      if wrong {
        Add(Finding(kind, l), all);
      }
    }
  }

  /** Answers whether a memory exists, remembering. */
  class RecordChecker {
    var known: map<Id, bool>

    constructor ()
      ensures known == map[]
    {
      known := map[];
    }

    ghost predicate Agrees(v: View)
      reads this
    {
      forall rid | rid in known :: known[rid] == v.present(rid)
    }

    method Exists(v: View, rid: Id) returns (there: bool)
      requires Agrees(v)
      modifies this
      ensures Agrees(v) && there == v.present(rid)
    {
      if rid in known {
        return known[rid];
      }
      there := v.present(rid);
      known := known[rid := there];
    }
  }

  lemma Joined(a: seq<Finding>, b: seq<Finding>, c: seq<Finding>)
    ensures (a + b) + c == a + (b + c)
  {
  }

  /** One out-edge: its ends differ and exist, and its in-key holds its bytes. */
  method CheckEdge(v: View, row: Row, rep: Report, checker: RecordChecker, ghost all: seq<Finding>)
    requires rep.Lists(all) && checker.Agrees(v)
    modifies rep, checker
    ensures rep.edges == old(rep.edges) && rep.reverse == old(rep.reverse)
    ensures checker.Agrees(v) && rep.Lists(all + EdgeFindings(v, row))
  {
    var l, reverse := row.link, v.held(v.inKey(row.link));
    ghost var a, b, c := If(l.from == l.to, SelfEdge, l), If(!v.present(l.from), MissingRecord, l), If(!v.present(l.to), MissingRecord, l);
    ghost var d := If(reverse.None?, MissingReverse, l);
    rep.AddIf(l.from == l.to, SelfEdge, l, all);
    var fromThere := checker.Exists(v, l.from);
    rep.AddIf(!fromThere, MissingRecord, l, all + a);
    Joined(all, a, b);
    var toThere := checker.Exists(v, l.to);
    rep.AddIf(!toThere, MissingRecord, l, all + (a + b));
    Joined(all, a + b, c);
    rep.AddIf(reverse.None?, MissingReverse, l, all + (a + b + c));
    Joined(all, a + b + c, d);
    rep.AddIf(reverse.Some? && reverse.value != row.value, ReverseDisagrees, l, all + (a + b + c + d));
    Joined(all, a + b + c + d, If(reverse.Some? && reverse.value != row.value, ReverseDisagrees, l));
  }

  method FirstPass(v: View, rows: seq<Row>, rep: Report) returns (seen: set<Bytes>)
    requires rep.Lists([]) && rep.edges == 0
    modifies rep
    ensures seen == ReverseKeys(v, rows, |rows|) && rep.Lists(OutFindings(v, rows, |rows|))
    ensures rep.edges == |rows| && rep.reverse == old(rep.reverse)
  {
    seen := {};
    var checker := new RecordChecker();
    var i := 0;
    while i < |rows|
      invariant 0 <= i <= |rows| && checker.Agrees(v) && fresh(checker)
      invariant seen == ReverseKeys(v, rows, i) && rep.Lists(OutFindings(v, rows, i))
      invariant rep.edges == i && rep.reverse == old(rep.reverse)
    {
      rep.edges := rep.edges + 1;
      CheckEdge(v, rows[i], rep, checker, OutFindings(v, rows, i));
      seen, i := seen + {v.inKey(rows[i].link)}, i + 1;
    }
  }

  /** An in-edge the first pass did not call for has no edge behind it. */
  method SecondPass(v: View, rows: seq<Row>, seen: set<Bytes>, rep: Report, ghost all: seq<Finding>)
    requires rep.Lists(all) && rep.reverse == 0
    modifies rep
    ensures rep.Lists(all + InFindings(v, rows, |rows|, seen))
    ensures rep.reverse == |rows| && rep.edges == old(rep.edges)
  {
    var i := 0;
    assert all + [] == all;
    while i < |rows|
      invariant 0 <= i <= |rows|
      invariant rep.Lists(all + InFindings(v, rows, i, seen))
      invariant rep.reverse == i && rep.edges == old(rep.edges)
    {
      rep.reverse := rep.reverse + 1;
      var l := rows[i].link;
      rep.AddIf(v.inKey(l) !in seen, OrphanReverse, l, all + InFindings(v, rows, i, seen));
      Joined(all, InFindings(v, rows, i, seen), If(v.inKey(l) !in seen, OrphanReverse, l));
      i := i + 1;
    }
  }

  // --- the rows of a space ------------------------------------------------------------------

  /** A key of either space read as a row. */
  function RowAt(kv: KV, space: byte, k: Bytes): Row
    requires k in kv && |k| >= Keys.EDGE_LEN
  {
    var tail := ParseTail(k).value;
    Row(if space == Keys.SPACE_EDGE_IN then Turned(tail) else tail, kv[k])
  }

  ghost predicate RowsOf(kv: KV, sc: Scope, space: byte, ks: seq<Bytes>, rows: seq<Row>) {
    && Sorted(ks) && (forall k :: k in ks <==> k in kv && Keys.InSpace(k, sc.tenant, sc.ns, space))
    && |rows| == |ks| && forall i | 0 <= i < |ks| :: |ks[i]| >= Keys.EDGE_LEN && ks[i] in kv && rows[i] == RowAt(kv, space, ks[i])
  }

  method ReadRows(kv: KV, space: byte, ks: seq<Bytes>) returns (r: Result<seq<Row>>)
    requires forall k | k in ks :: k in kv
    ensures r.Ok? <==> forall k | k in ks :: |k| >= Keys.EDGE_LEN
    ensures r.Ok? ==>
              && |r.value| == |ks|
              && forall i | 0 <= i < |ks| :: |ks[i]| >= Keys.EDGE_LEN && ks[i] in kv && r.value[i] == RowAt(kv, space, ks[i])
    ensures r.Err? ==> r.error == Corruption
  {
    var rows: seq<Row> := [];
    var i := 0;
    while i < |ks|
      invariant 0 <= i == |rows| <= |ks|
      invariant forall j | 0 <= j < i :: |ks[j]| >= Keys.EDGE_LEN && ks[j] in kv && rows[j] == RowAt(kv, space, ks[j])
    {
      assert ks[i] in ks;
      if |ks[i]| < Keys.EDGE_LEN {
        return Err(Corruption);
      }
      rows, i := rows + [RowAt(kv, space, ks[i])], i + 1;
    }
    r := Ok(rows);
  }

  /** Walks one space in key order. Only a key with no room for an edge stops it. */
  method ScanSpace(kv: KV, sc: Scope, space: byte) returns (r: Result<seq<Row>>, ghost ks: seq<Bytes>)
    requires Fits(sc)
    ensures r.Ok? <==> forall k | k in kv && Keys.InSpace(k, sc.tenant, sc.ns, space) :: |k| >= Keys.EDGE_LEN
    ensures r.Ok? ==> RowsOf(kv, sc, space, ks, r.value)
    ensures r.Err? ==> r.error == Corruption
  {
    var lower, upper := Keys.SpaceRange(sc.tenant, sc.ns, space);
    var found := Scan(kv, lower, upper);
    ks := found;
    r := ReadRows(kv, space, found);
  }

  /** What a scope's store answers. */
  function ViewOf(kv: KV, sc: Scope): View {
    View((rid: Id) => RecordKey(sc, rid) in kv, (l: Link) => InKey(sc, l), (k: Bytes) => Lookup(kv, k))
  }

  /** The rows read from the out space are its edges; and so for the in space. */
  ghost predicate OutRowsExact(kv: KV, sc: Scope, rows: seq<Row>) {
    forall row: Row :: row in rows <==> OutKey(sc, row.link) in kv && row.value == kv[OutKey(sc, row.link)]
  }

  ghost predicate InRowsExact(kv: KV, sc: Scope, rows: seq<Row>) {
    forall row: Row :: row in rows <==> InKey(sc, row.link) in kv && row.value == kv[InKey(sc, row.link)]
  }

  lemma OutRowsAreEdges(kv: KV, sc: Scope, ks: seq<Bytes>, rows: seq<Row>)
    requires Fits(sc) && KeysWhole(kv, sc) && RowsOf(kv, sc, Keys.SPACE_EDGE_OUT, ks, rows)
    ensures OutRowsExact(kv, sc, rows)
  {
    forall row: Row
      ensures row in rows <==> OutKey(sc, row.link) in kv && row.value == kv[OutKey(sc, row.link)]
    {
      EdgeKeysRead(sc, OutKey(sc, row.link), row.link);
      if row in rows {
        var i :| 0 <= i < |rows| && rows[i] == row;
        assert ks[i] in ks;
        EdgeKeysRead(sc, ks[i], row.link);
      }
      if OutKey(sc, row.link) in kv && row.value == kv[OutKey(sc, row.link)] {
        assert OutKey(sc, row.link) in ks;
        var i :| 0 <= i < |ks| && ks[i] == OutKey(sc, row.link);
        assert rows[i] in rows;
      }
    }
  }

  lemma InRowsAreEdges(kv: KV, sc: Scope, ks: seq<Bytes>, rows: seq<Row>)
    requires Fits(sc) && KeysWhole(kv, sc) && RowsOf(kv, sc, Keys.SPACE_EDGE_IN, ks, rows)
    ensures InRowsExact(kv, sc, rows)
  {
    forall row: Row
      ensures row in rows <==> InKey(sc, row.link) in kv && row.value == kv[InKey(sc, row.link)]
    {
      EdgeKeysRead(sc, InKey(sc, row.link), row.link);
      if row in rows {
        var i :| 0 <= i < |rows| && rows[i] == row;
        assert ks[i] in ks;
        EdgeKeysRead(sc, ks[i], row.link);
      }
      if InKey(sc, row.link) in kv && row.value == kv[InKey(sc, row.link)] {
        assert InKey(sc, row.link) in ks;
        var i :| 0 <= i < |ks| && ks[i] == InKey(sc, row.link);
        assert rows[i] in rows;
      }
    }
  }

  // --- every finding is a problem, and every problem a finding --------------------------------

  function One(wrong: bool): nat {
    if wrong then 1 else 0
  }

  /** One out-edge is counted once for being to itself, once for each end that is missing,
      and once for an in-row that is missing or differs. */
  lemma EdgeFindingsCount(kv: KV, sc: Scope, l: Link, value: Bytes)
    ensures |EdgeFindings(ViewOf(kv, sc), Row(l, value))| ==
            One(l.from == l.to) + One(!Present(kv, sc, l.from)) + One(!Present(kv, sc, l.to))
            + One(InKey(sc, l) !in kv || kv[InKey(sc, l)] != value)
  {
  }

  /** One out-edge is listed for what is wrong with it. */
  lemma EdgeFindingsSay(kv: KV, sc: Scope, l: Link, f: Finding)
    requires OutKey(sc, l) in kv
    ensures f in EdgeFindings(ViewOf(kv, sc), Row(l, kv[OutKey(sc, l)])) <==> f.link == l && !f.kind.OrphanReverse? && Problem(kv, sc, f)
  {
  }

  lemma OutFindingsAreProblems(kv: KV, sc: Scope, outs: seq<Row>, f: Finding)
    requires OutRowsExact(kv, sc, outs)
    ensures f in OutFindings(ViewOf(kv, sc), outs, |outs|) <==> !f.kind.OrphanReverse? && Problem(kv, sc, f)
  {
    var v := ViewOf(kv, sc);
    InOutFindings(v, outs, |outs|, f);
    forall i | 0 <= i < |outs|
      ensures f in EdgeFindings(v, outs[i]) <==> f.link == outs[i].link && !f.kind.OrphanReverse? && Problem(kv, sc, f)
    {
      assert outs[i] in outs;
      EdgeFindingsSay(kv, sc, outs[i].link, f);
    }
    if !f.kind.OrphanReverse? && Problem(kv, sc, f) {
      assert Row(f.link, kv[OutKey(sc, f.link)]) in outs;
    }
  }

  lemma SeenExactly(kv: KV, sc: Scope, outs: seq<Row>, l: Link)
    requires Fits(sc) && OutRowsExact(kv, sc, outs)
    ensures InKey(sc, l) in ReverseKeys(ViewOf(kv, sc), outs, |outs|) <==> OutKey(sc, l) in kv
  {
    InReverseKeys(ViewOf(kv, sc), outs, |outs|, InKey(sc, l));
    forall i | 0 <= i < |outs|
      ensures outs[i] in outs && (InKey(sc, outs[i].link) == InKey(sc, l) ==> outs[i].link == l)
    {
      KeysApart(sc, outs[i].link, sc, l, l.from);
    }
    if OutKey(sc, l) in kv {
      assert Row(l, kv[OutKey(sc, l)]) in outs;
    }
  }

  lemma InRowsHave(kv: KV, sc: Scope, ins: seq<Row>, l: Link)
    requires InRowsExact(kv, sc, ins)
    ensures InKey(sc, l) in kv <==> exists i | 0 <= i < |ins| :: ins[i].link == l
  {
    if InKey(sc, l) in kv {
      assert Row(l, kv[InKey(sc, l)]) in ins;
    }
    if i :| 0 <= i < |ins| && ins[i].link == l {
      assert ins[i] in ins;
    }
  }

  lemma InFindingsAreProblems(kv: KV, sc: Scope, ins: seq<Row>, seen: set<Bytes>, f: Finding)
    requires InKey(sc, f.link) in kv <==> exists i | 0 <= i < |ins| :: ins[i].link == f.link
    requires InKey(sc, f.link) in seen <==> OutKey(sc, f.link) in kv
    ensures f in InFindings(ViewOf(kv, sc), ins, |ins|, seen) <==> f.kind.OrphanReverse? && Problem(kv, sc, f)
  {
    InInFindings(ViewOf(kv, sc), ins, |ins|, seen, f);
  }

  /** Where every edge key is whole, what a verification lists is what is wrong. */
  lemma FindingsAreProblems(kv: KV, sc: Scope, outs: seq<Row>, ins: seq<Row>, f: Finding)
    requires Fits(sc) && OutRowsExact(kv, sc, outs) && InRowsExact(kv, sc, ins)
    ensures f in AllFindings(ViewOf(kv, sc), outs, ins) <==> Problem(kv, sc, f)
  {
    OutFindingsAreProblems(kv, sc, outs, f);
    InRowsHave(kv, sc, ins, f.link);
    SeenExactly(kv, sc, outs, f.link);
    InFindingsAreProblems(kv, sc, ins, ReverseKeys(ViewOf(kv, sc), outs, |outs|), f);
  }

  lemma ReportSays(kv: KV, sc: Scope, outs: seq<Row>, ins: seq<Row>, rep: Report)
    requires Fits(sc) && rep.Lists(AllFindings(ViewOf(kv, sc), outs, ins))
    requires KeysWhole(kv, sc) && OutRowsExact(kv, sc, outs) && InRowsExact(kv, sc, ins)
    ensures (Consistent(kv, sc) <==> rep.broken == 0) && rep.ListsProblems(kv, sc)
  {
    var all := AllFindings(ViewOf(kv, sc), outs, ins);
    ConsistentExactly(kv, sc);
    forall f
      ensures f in all <==> Problem(kv, sc, f)
    {
      FindingsAreProblems(kv, sc, outs, ins, f);
    }
    assert rep.findings == all[..|rep.findings|];
    assert all != [] ==> all[0] in all;
  }

  /** Checks one scope. Its findings come in key order; where every edge key is whole they
      are exactly what is wrong, and none means a consistent graph. */
  method Verify(kv: KV, sc: Scope)
    returns (r: Result<Report>, ghost outs: seq<Row>, ghost ins: seq<Row>, ghost outKeys: seq<Bytes>, ghost inKeys: seq<Bytes>)
    requires Fits(sc)
    ensures r.Ok? <==> sc.tenant != [] && forall k | k in kv && (InOut(sc, k) || InIn(sc, k)) :: |k| >= Keys.EDGE_LEN
    ensures r.Err? ==> r.error == if sc.tenant == [] then Invalid else Corruption
    ensures r.Ok? ==>
              && RowsOf(kv, sc, Keys.SPACE_EDGE_OUT, outKeys, outs) && RowsOf(kv, sc, Keys.SPACE_EDGE_IN, inKeys, ins)
              && fresh(r.value) && r.value.edges == |outs| && r.value.reverse == |ins|
              && r.value.Lists(AllFindings(ViewOf(kv, sc), outs, ins))
              && (Consistent(kv, sc) <==> KeysWhole(kv, sc) && r.value.broken == 0)
              && (KeysWhole(kv, sc) ==> r.value.ListsProblems(kv, sc))
  {
    outs, ins, outKeys, inKeys := [], [], [], [];
    if sc.tenant == [] {
      r := Err(Invalid);
      return;
    }
    var outRows, inRows;
    outRows, outKeys := ScanSpace(kv, sc, Keys.SPACE_EDGE_OUT);
    if outRows.Err? {
      r := Err(outRows.error);
      return;
    }
    inRows, inKeys := ScanSpace(kv, sc, Keys.SPACE_EDGE_IN);
    if inRows.Err? {
      r := Err(inRows.error);
      return;
    }
    outs, ins := outRows.value, inRows.value;
    var rep := new Report();
    var seen := FirstPass(ViewOf(kv, sc), outRows.value, rep);
    SecondPass(ViewOf(kv, sc), inRows.value, seen, rep, OutFindings(ViewOf(kv, sc), outs, |outs|));
    if KeysWhole(kv, sc) {
      OutRowsAreEdges(kv, sc, outKeys, outs);
      InRowsAreEdges(kv, sc, inKeys, ins);
      ReportSays(kv, sc, outs, ins, rep);
    }
    r := Ok(rep);
  }

  // --- the key a verification misses -----------------------------------------------------------

  /** An in-key with a byte too many before its edge. */
  function LongInKey(sc: Scope, l: Link): Bytes {
    Keys.SpacePrefix(sc.tenant, sc.ns, Keys.SPACE_EDGE_IN) + [0] + (l.to + Keys.U16Bytes(l.rel) + l.from)
  }

  /** One edge between two memories, and beside its rows the long key. */
  function StrayStore(sc: Scope, l: Link): KV {
    var ks := {OutKey(sc, l), InKey(sc, l), RecordKey(sc, l.from), RecordKey(sc, l.to), LongInKey(sc, l)};
    map k | k in ks :: []
  }

  lemma LongKeyReads(sc: Scope, l: Link)
    requires Fits(sc)
    ensures var k := LongInKey(sc, l);
            InIn(sc, k) && !Whole(k) && |k| >= Keys.EDGE_LEN && ParseTail(k) == Ok(Turned(l))
  {
    var k, p := LongInKey(sc, l), Keys.SpacePrefix(sc.tenant, sc.ns, Keys.SPACE_EDGE_IN);
    var body := l.to + Keys.U16Bytes(l.rel) + l.from;
    TailReads(p + [0], l.to, l.rel, l.from);
    assert k == Keys.ScopePrefix(sc.tenant, sc.ns) + ([Keys.SPACE_EDGE_IN, 0] + body);
    Keys.ScopeReads(k, sc.tenant, sc.ns, [Keys.SPACE_EDGE_IN, 0] + body);
  }

  /** The long key reads as an edge that is there, so nothing is found, though no writer
      wrote it and no reader of that edge will look at it. */
  lemma StrayKeyIsMissed(sc: Scope, l: Link)
    requires Fits(sc) && l.from != l.to
    ensures var kv := StrayStore(sc, l);
            && LongInKey(sc, l) != InKey(sc, l) && InIn(sc, LongInKey(sc, l)) && !Consistent(kv, sc)
            && |LongInKey(sc, l)| >= Keys.EDGE_LEN && RowAt(kv, Keys.SPACE_EDGE_IN, LongInKey(sc, l)) == Row(l, [])
            && |InKey(sc, l)| >= Keys.EDGE_LEN && RowAt(kv, Keys.SPACE_EDGE_IN, InKey(sc, l)) == Row(l, [])
            && |OutKey(sc, l)| >= Keys.EDGE_LEN && RowAt(kv, Keys.SPACE_EDGE_OUT, OutKey(sc, l)) == Row(l, [])
            && AllFindings(ViewOf(kv, sc), [Row(l, [])], [Row(l, []), Row(l, [])]) == []
  {
    LongKeyReads(sc, l);
    EdgeKeysRead(sc, InKey(sc, l), l);
    EdgeKeysRead(sc, OutKey(sc, l), l);
    StrayView(sc, l);
    StrayRows(ViewOf(StrayStore(sc, l), sc), l);
  }

  lemma StrayView(sc: Scope, l: Link)
    ensures var v := ViewOf(StrayStore(sc, l), sc);
            v.present(l.from) && v.present(l.to) && v.held(v.inKey(l)) == Some([])
  {
  }

  lemma StrayRows(v: View, l: Link)
    requires l.from != l.to && v.present(l.from) && v.present(l.to) && v.held(v.inKey(l)) == Some([])
    ensures AllFindings(v, [Row(l, [])], [Row(l, []), Row(l, [])]) == []
  {
    var outs, ins := [Row(l, [])], [Row(l, []), Row(l, [])];
    assert EdgeFindings(v, outs[0]) == [];
    assert OutFindings(v, outs, 1) == OutFindings(v, outs, 0) + EdgeFindings(v, outs[0]);
    var seen := ReverseKeys(v, outs, 1);
    assert v.inKey(l) in seen;
    assert InFindings(v, ins, 1, seen) == [];
    assert InFindings(v, ins, 2, seen) == [];
  }
}
