/** Discovery's writes: ask whether two memories are linked, add an edge if they are not,
    commit on condition that none of the keys that could have linked them has appeared
    since. However such transactions interleave, two memories have at most one edge. */
module GraphUnique {
  import opened Prelude
  import opened GraphTypes

  /** The keys that say two memories are linked: each type, each way round. */
  function PairKeys(a: Id, b: Id): set<Link> {
    (set t | t in RELATIONSHIP_TYPES :: Link(a, t, b)) + (set t | t in RELATIONSHIP_TYPES :: Link(b, t, a))
  }

  predicate Joins(k: Link, a: Id, b: Id) {
    1 <= k.rel <= 8 && ((k.from == a && k.to == b) || (k.from == b && k.to == a))
  }

  predicate SamePair(k: Link, l: Link) {
    (k.from == l.from && k.to == l.to) || (k.from == l.to && k.to == l.from)
  }

  /** Two memories, and not one twice. */
  predicate Linkable(a: Id, b: Id) {
    a != ZERO_ID && b != ZERO_ID && a != b
  }

  /** The canonical edges of one tenant. */
  type Space = map<Link, Bytes>

  function Held(out: Space, k: Link): Option<Bytes> {
    if k in out then Some(out[k]) else None
  }

  /** Edges written, and what other keys have to hold when they are: some bytes, or nothing.
      A key once written or once conditioned takes no further condition. */
  datatype Writer = Writer(writes: Space, expected: map<Link, Option<Bytes>>)

  const FRESH := Writer(map[], map[])

  predicate Absent(w: Writer, ks: set<Link>) {
    forall k | k in ks :: k in w.expected && w.expected[k].None?
  }

  predicate CanCommit(out: Space, w: Writer) {
    forall k | k in w.expected :: Held(out, k) == w.expected[k]
  }

  /** Two memories have at most one edge, of a known type, between them. */
  predicate OneEdge(out: Space) {
    && (forall k | k in out :: ValidType(k.rel))
    && (forall k, l | k in out && l in out && SamePair(k, l) :: k == l)
  }

  /** Each pair written to was unlinked, and still has to be. */
  predicate Guarded(w: Writer) {
    OneEdge(w.writes) && forall k | k in w.writes :: Absent(w, PairKeys(k.from, k.to))
  }

  // --- an edge added again ---------------------------------------------------------------------------

  /** How an edge's body is stored, and when a stored body says it was created. */
  datatype Codec = Codec(encode: Edge -> Bytes, createdIn: Bytes -> Option<nat>)

  /** The edge as it is written over what was read: the creation time read, else the one
      given, else now. */
  function Stamped(c: Codec, prev: Option<Bytes>, e: Edge, now: nat): Edge {
    var created :=
      if prev.Some? then (if c.createdIn(prev.value).Some? then c.createdIn(prev.value).value else e.createdAt)
      else if e.createdAt == 0 then now else e.createdAt;
    e.(createdAt := created, updatedAt := now)
  }

  /** When an edge written over what was read was created: as the bytes read say, if they
      say; else as given, except that one new to the key and given no time is of now. */
  function CreationTime(c: Codec, prev: Option<Bytes>, given: nat, now: nat): nat {
    match prev
    case Some(bytes) => (match c.createdIn(bytes) case Some(t) => t case None => given)
    case None => if given == 0 then now else given
  }

  /** A proposal as it is first written: all of it kept, its times set. */
  function FirstWritten(e: Edge, now: nat): Edge {
    Edge(e.from, e.to, e.rel, e.strength, if e.createdAt == 0 then now else e.createdAt, now, e.meta)
  }

  /** What a key holds once an edge has been added any number of times. */
  function AddedAll(c: Codec, adds: seq<(Edge, nat)>): Option<Bytes> {
    if adds == [] then None
    else Some(c.encode(Stamped(c, AddedAll(c, adds[..|adds| - 1]), adds[|adds| - 1].0, adds[|adds| - 1].1)))
  }

  /** However often a relationship is confirmed, it was created when it was first. */
  lemma {:induction false} CreatedOnce(c: Codec, adds: seq<(Edge, nat)>)
    requires adds != [] && forall e :: c.createdIn(c.encode(e)) == Some(e.createdAt)
    ensures AddedAll(c, adds).Some? && c.createdIn(AddedAll(c, adds).value) == Some(if adds[0].0.createdAt == 0 then adds[0].1 else adds[0].0.createdAt)
  {
    if |adds| > 1 {
      CreatedOnce(c, adds[..|adds| - 1]);
    } else {
      assert AddedAll(c, adds[..0]) == None;
    }
  }

  // --- one transaction -----------------------------------------------------------------------------

  class Tx {
    const out: Space
    const codec: Codec
    var writer: Writer

    constructor (out: Space, codec: Codec)
      ensures this.out == out && this.codec == codec && writer == FRESH && Faithful()
    {
      this.out, this.codec, writer := out, codec, FRESH;
    }

    /** What the transaction expects is what it read. */
    predicate Faithful()
      reads this
    {
      CanCommit(out, writer)
    }

    /** Its own writes first, then the store. */
    function Get(k: Link): Option<Bytes>
      reads this
    {
      if k in writer.writes then Some(writer.writes[k]) else Held(out, k)
    }

    predicate Sees(k: Link)
      reads this
    {
      Get(k).Some?
    }

    /** Some edge between the two is in sight. */
    ghost predicate SeesPair(a: Id, b: Id)
      reads this
    {
      exists k | Joins(k, a, b) :: Sees(k)
    }

    method Expect(k: Link, value: Option<Bytes>)
      modifies this
      ensures writer == if k in old(writer.writes) || k in old(writer.expected) then old(writer)
                        else old(writer).(expected := old(writer.expected)[k := value])
    {
      if k in writer.writes || k in writer.expected {
        return;
      }
      writer := writer.(expected := writer.expected[k := value]);
    }

    /** Whether any relationship connects two memories; a no is a condition of the commit. */
    method Linked(a: Id, b: Id) returns (r: Result<bool>)
      requires Faithful()
      modifies this
      ensures Faithful()
      ensures r.Ok? <==> Linkable(a, b)
      ensures r.Ok? ==> (r.value <==> SeesPair(a, b))
      ensures writer.writes == old(writer.writes)
      ensures writer.expected.Keys == if r == Ok(false) then old(writer.expected.Keys) + PairKeys(a, b) else old(writer.expected.Keys)
      ensures r == Ok(false) ==> Absent(writer, PairKeys(a, b))
    {
      if a == ZERO_ID || b == ZERO_ID {
        return Err(Invalid);
      }
      if a == b {
        return Err(Invalid);
      }
      var rest := PairKeys(a, b);
      var absent: set<Link> := {};
      while rest != {}
        invariant rest + absent == PairKeys(a, b) && writer == old(writer)
        invariant forall k | k in absent :: !Sees(k)
      {
        var k :| k in rest;
        if Get(k).Some? {
          JoinsItsPair(k, a, b);
          return Ok(true);
        }
        absent, rest := absent + {k}, rest - {k};
      }
      forall k | Joins(k, a, b)
        ensures !Sees(k)
      {
        JoinsItsPair(k, a, b);
      }
      rest := absent;
      while rest != {}
        invariant rest <= absent && writer.writes == old(writer.writes) && Faithful()
        invariant writer.expected.Keys == old(writer.expected.Keys) + (absent - rest)
      {
        var k :| k in rest;
        Expect(k, None);
        rest := rest - {k};
      }
      return Ok(false);
    }

    /** Writes an edge, keeping the creation time of one already there, on condition that
        the key still holds what was read of it. */
    method Add(e: Edge, now: nat) returns (r: Result<bool>)
      requires Faithful()
      modifies this
      ensures Faithful()
      ensures r == if e.from != ZERO_ID && e.to != ZERO_ID && e.from != e.to && 1 <= e.rel <= 8 then Ok(true) else Err(Invalid)
      ensures r.Err? ==> writer == old(writer)
      ensures var k := Link(e.from, e.rel, e.to);
              r.Ok? ==>
                && writer.writes == old(writer.writes)[k := codec.encode(
                     Edge(e.from, e.to, e.rel, e.strength, CreationTime(codec, old(Get(k)), e.createdAt, now), now, e.meta))]
                && writer.expected == if k in old(writer.writes) then old(writer.expected) else old(writer.expected)[k := Held(out, k)]
    {
      if !Validates(e) {
        return Err(Invalid);
      }
      var k := Link(e.from, e.rel, e.to);
      var prev := Get(k);
      Expect(k, prev);
      writer := writer.(writes := writer.writes[k := codec.encode(Stamped(codec, prev, e, now))]);
      return Ok(true);
    }

    /** Writes an edge if its pair is not yet linked, and says which edge links it now. */
    method AddUnlinked(e: Edge, now: nat) returns (r: Result<bool>, ghost at: Link)
      requires Guarded(writer) && Faithful() && ValidType(e.rel)
      modifies this
      ensures Guarded(writer) && Faithful()
      ensures r.Ok? <==> Linkable(e.from, e.to)
      ensures r.Ok? ==> r.value == !old(SeesPair(e.from, e.to)) && Joins(at, e.from, e.to) && Sees(at)
      ensures r == Ok(true) ==> at == Link(e.from, e.rel, e.to) && at !in old(writer.writes) && at !in out
      ensures writer.writes == if r == Ok(true) then old(writer.writes)[at := codec.encode(FirstWritten(e, now))] else old(writer.writes)
    {
      at := Link(e.from, e.rel, e.to);
      var linked := Linked(e.from, e.to);
      if linked.Err? {
        return Err(Invalid), at;
      }
      if linked.value {
        var k :| Joins(k, e.from, e.to) && Sees(k);
        return Ok(false), k;
      }
      InItsPair(at);
      assert !Sees(at);
      ghost var was := writer;
      forall l | l in PairKeys(e.from, e.to)
        ensures l !in was.writes
      {
        JoinsItsPair(l, e.from, e.to);
        assert !Sees(l);
      }
      UnlinkedIsGuarded(was, at, codec.encode(FirstWritten(e, now)));
      r := Add(e, now);
      assert writer.expected == was.expected;
    }

    /** One subject's proposals, in one transaction: each pair not yet linked gets its
        edge. */
    method Write(from: Id, proposed: seq<Edge>, now: nat) returns (r: Result<nat>)
      requires writer == FRESH
      requires forall i | 0 <= i < |proposed| :: proposed[i].from == from && ValidType(proposed[i].rel)
      modifies this
      ensures Guarded(writer) && Faithful()
      ensures FromProposals(codec, out, proposed, now, writer.writes)
      ensures r.Ok? <==> forall i | 0 <= i < |proposed| :: Linkable(from, proposed[i].to)
      ensures r.Ok? ==> forall i | 0 <= i < |proposed| :: SeesPair(from, proposed[i].to)
    {
      var written, i := 0, 0;
      ghost var links: seq<Link> := [];
      while i < |proposed|
        invariant 0 <= i == |links| <= |proposed| && Guarded(writer) && Faithful()
        invariant FromProposals(codec, out, proposed, now, writer.writes)
        invariant forall j | 0 <= j < i :: Linkable(from, proposed[j].to)
        invariant forall j | 0 <= j < i :: Joins(links[j], from, proposed[j].to) && (links[j] in writer.writes || links[j] in out)
      {
        assert proposed[i] in proposed;
        ghost var was := writer.writes;
        var added, at := AddUnlinked(proposed[i], now);
        if added.Err? {
          return Err(Invalid);
        }
        if added.value {
          OneMoreProposal(codec, out, proposed, now, was, proposed[i]);
          written := written + 1;
        }
        links, i := links + [at], i + 1;
      }
      forall j | 0 <= j < |proposed|
        ensures SeesPair(from, proposed[j].to)
      {
        assert Sees(links[j]);
      }
      r := Ok(written);
    }
  }

  /** Every edge written is new, and a proposal's. */
  predicate FromProposals(c: Codec, out: Space, proposed: seq<Edge>, now: nat, writes: Space) {
    forall k | k in writes ::
      k !in out && exists e | e in proposed :: Link(e.from, e.rel, e.to) == k && c.encode(FirstWritten(e, now)) == writes[k]
  }

  lemma OneMoreProposal(c: Codec, out: Space, proposed: seq<Edge>, now: nat, writes: Space, e: Edge)
    requires FromProposals(c, out, proposed, now, writes) && e in proposed && Link(e.from, e.rel, e.to) !in out
    ensures FromProposals(c, out, proposed, now, writes[Link(e.from, e.rel, e.to) := c.encode(FirstWritten(e, now))])
  {
  }

  lemma JoinsItsPair(k: Link, a: Id, b: Id)
    ensures k in PairKeys(a, b) <==> Joins(k, a, b)
  {
  }

  lemma InItsPair(k: Link)
    requires ValidType(k.rel)
    ensures k in PairKeys(k.from, k.to)
  {
  }

  lemma PairsMatch(k: Link, l: Link)
    requires ValidType(k.rel) && SamePair(k, l)
    ensures k in PairKeys(l.from, l.to)
  {
  }

  /** Writing to a pair that is unlinked as far as the transaction sees, and guarded. */
  lemma UnlinkedIsGuarded(w: Writer, k: Link, value: Bytes)
    requires Guarded(w) && ValidType(k.rel) && Absent(w, PairKeys(k.from, k.to))
    requires forall l | l in PairKeys(k.from, k.to) :: l !in w.writes
    ensures Guarded(Writer(w.writes[k := value], w.expected))
  {
    forall l | l in w.writes
      ensures !SamePair(k, l) && !SamePair(l, k)
    {
      if SamePair(k, l) || SamePair(l, k) {
        PairsMatch(l, k);
      }
    }
  }

  /** Conditions taken on, the ones already there standing. */
  function Conditioned(w: Writer, ks: set<Link>): Writer {
    w.(expected := (map k | k in ks :: None) + w.expected)
  }

  // --- every interleaving ----------------------------------------------------------------------------

  datatype State = State(out: Space, open: map<nat, Writer>)

  /** A proposal is a link check that answered no, and the write that followed. What the
      check read of the store is left open: its reads may fall between any commits. */
  datatype Step =
    | Begin(tx: nat)
    | Propose(tx: nat, link: Link, value: Bytes)
    | Commit(tx: nat)
    | Retry(tx: nat)

  /** The check sees what its own transaction has written. */
  predicate Enabled(s: State, step: Step) {
    match step
    case Begin(x) => x !in s.open
    case Propose(x, k, _) =>
      && x in s.open && ValidType(k.rel) && k.from != k.to
      && forall l | l in PairKeys(k.from, k.to) :: l !in s.open[x].writes
    case Commit(x) => x in s.open
    case Retry(x) => x in s.open
  }

  function Do(s: State, step: Step): State
    requires Enabled(s, step)
  {
    match step
    case Begin(x) => s.(open := s.open[x := FRESH])
    case Propose(x, k, value) =>
      var w := Conditioned(s.open[x], PairKeys(k.from, k.to));
      s.(open := s.open[x := w.(writes := w.writes[k := value])])
    case Commit(x) =>
      var w := s.open[x];
      if CanCommit(s.out, w) then State(s.out + w.writes, s.open - {x}) else s.(open := s.open - {x})
    case Retry(x) => s.(open := s.open[x := FRESH])
  }

  predicate Inv(s: State) {
    OneEdge(s.out) && forall x | x in s.open :: Guarded(s.open[x]) && Absent(s.open[x], s.open[x].expected.Keys)
  }

  /** A commit that found its conditions true adds each edge to a pair that had none. */
  lemma CommitKeepsOneEdge(out: Space, w: Writer)
    requires OneEdge(out) && Guarded(w) && CanCommit(out, w)
    ensures OneEdge(out + w.writes)
  {
    var after := out + w.writes;
    forall k, l | k in after && l in after && SamePair(k, l)
      ensures k == l
    {
      if k in w.writes && l !in w.writes {
        PairsMatch(l, k);
      } else if l in w.writes && k !in w.writes {
        PairsMatch(k, l);
      }
    }
  }

  lemma StepKeeps(s: State, step: Step)
    requires Inv(s) && Enabled(s, step)
    ensures Inv(Do(s, step))
  {
    match step
    case Begin(_) =>
    case Propose(x, k, value) =>
      UnlinkedIsGuarded(Conditioned(s.open[x], PairKeys(k.from, k.to)), k, value);
    case Commit(x) =>
      if CanCommit(s.out, s.open[x]) {
        CommitKeepsOneEdge(s.out, s.open[x]);
      }
    case Retry(_) =>
  }

  predicate IsRun(s: State, steps: seq<Step>)
    decreases |steps|
  {
    steps == [] || (Enabled(s, steps[0]) && IsRun(Do(s, steps[0]), steps[1..]))
  }

  function After(s: State, steps: seq<Step>): State
    requires IsRun(s, steps)
    decreases |steps|
  {
    if steps == [] then s else After(Do(s, steps[0]), steps[1..])
  }

  /** However discovery's transactions interleave, conflict and retry, no two memories
      ever have two edges, of whatever types and directions. */
  lemma {:induction false} AtMostOneEdge(s: State, steps: seq<Step>)
    requires Inv(s) && IsRun(s, steps)
    ensures Inv(After(s, steps))
    ensures forall k, l | k in After(s, steps).out && l in After(s, steps).out && SamePair(k, l) :: k == l
    decreases |steps|
  {
    if steps != [] {
      StepKeeps(s, steps[0]);
      AtMostOneEdge(Do(s, steps[0]), steps[1..]);
    }
  }
}
