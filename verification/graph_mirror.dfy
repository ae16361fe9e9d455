/** Every edge is two rows of one store holding the same bytes: the canonical out-edge, and
    a derived in-edge under the key turned round. Writers keep the two in step. */
module GraphMirror {
  import opened Prelude
  import opened ByteOrder
  import opened Storage
  import opened GraphTypes
  import opened GraphKeys
  import Keys

  /** Two keys hold the same thing, or neither holds anything. */
  predicate Twins<T(==)>(m: map<Bytes, T>, a: Bytes, b: Bytes) {
    if a in m then b in m && m[a] == m[b] else b !in m
  }

  /** In every scope the in-edges are the byte-exact mirror of the out-edges. */
  ghost predicate Mirrored(kv: KV) {
    forall sc, l | Fits(sc) :: Twins(kv, OutKey(sc, l), InKey(sc, l))
  }

  ghost predicate Paired(w: Writes) {
    forall sc, l | Fits(sc) :: Twins(w, OutKey(sc, l), InKey(sc, l))
  }

  ghost predicate IsEdgeKey(k: Bytes) {
    exists sc, l | Fits(sc) :: k == OutKey(sc, l) || k == InKey(sc, l)
  }

  /** Both rows of one edge, with one value or both deleted. */
  function TwoRows(w: Writes, sc: Scope, l: Link, value: Option<Bytes>): Writes {
    w[OutKey(sc, l) := value][InKey(sc, l) := value]
  }

  lemma TwoRowsPair(w: Writes, sc: Scope, l: Link, value: Option<Bytes>)
    requires Paired(w) && Fits(sc)
    ensures Paired(TwoRows(w, sc, l, value))
  {
    forall sc', l' | Fits(sc')
      ensures Twins(TwoRows(w, sc, l, value), OutKey(sc', l'), InKey(sc', l'))
    {
      assert Twins(w, OutKey(sc', l'), InKey(sc', l'));
      KeysApart(sc, l, sc', l', l.from);
      KeysApart(sc', l', sc, l, l.from);
    }
  }

  lemma OtherWritesPair(w: Writes, k: Bytes, value: Option<Bytes>)
    requires Paired(w) && !IsEdgeKey(k)
    ensures Paired(w[k := value])
  {
    forall sc, l | Fits(sc)
      ensures Twins(w[k := value], OutKey(sc, l), InKey(sc, l))
    {
      assert Twins(w, OutKey(sc, l), InKey(sc, l));
      assert k != OutKey(sc, l) && k != InKey(sc, l);
    }
  }

  lemma CommitMirrors(kv: KV, w: Writes)
    requires Mirrored(kv) && Paired(w)
    ensures Mirrored(Applied(kv, w))
  {
    forall sc, l | Fits(sc)
      ensures Twins(Applied(kv, w), OutKey(sc, l), InKey(sc, l))
    {
      assert Twins(kv, OutKey(sc, l), InKey(sc, l)) && Twins(w, OutKey(sc, l), InKey(sc, l));
    }
  }

  /** Each key of an edge is in the range of the end it starts from, and reads back. */
  lemma KeysAreInRange(sc: Scope, l: Link)
    requires Fits(sc)
    ensures FromPrefix(Keys.SPACE_EDGE_OUT, sc, l.from) <= OutKey(sc, l) && ParseTail(OutKey(sc, l)) == Ok(l)
    ensures FromPrefix(Keys.SPACE_EDGE_IN, sc, l.to) <= InKey(sc, l) && ParseTail(InKey(sc, l)) == Ok(Turned(l))
  {
    EdgeKeysRead(sc, OutKey(sc, l), l);
    RangeIsNearEnd(Keys.SPACE_EDGE_OUT, sc, OutKey(sc, l), l.from);
    EdgeKeysRead(sc, InKey(sc, l), l);
    RangeIsNearEnd(Keys.SPACE_EDGE_IN, sc, InKey(sc, l), l.to);
  }

  lemma BothWritten(kv: KV, w: Writes, a: Bytes, b: Bytes, value: Bytes)
    ensures var after := Applied(kv, w[a := Some(value)][b := Some(value)]);
            a in after && after[a] == value && b in after && after[b] == value
  {
  }

  /** A committed edge is found from both its ends, under keys that read back to it. */
  lemma EdgeIsFoundFromBothEnds(kv: KV, w: Writes, sc: Scope, l: Link, value: Bytes)
    requires Fits(sc)
    ensures var after := Applied(kv, TwoRows(w, sc, l, Some(value)));
            && OutKey(sc, l) in after && after[OutKey(sc, l)] == value
            && InKey(sc, l) in after && after[InKey(sc, l)] == value
    ensures FromPrefix(Keys.SPACE_EDGE_OUT, sc, l.from) <= OutKey(sc, l) && ParseTail(OutKey(sc, l)) == Ok(l)
    ensures FromPrefix(Keys.SPACE_EDGE_IN, sc, l.to) <= InKey(sc, l) && ParseTail(InKey(sc, l)) == Ok(Turned(l))
  {
    BothWritten(kv, w, OutKey(sc, l), InKey(sc, l), value);
    KeysAreInRange(sc, l);
  }

  // --- every interleaving of transactions -----------------------------------------------

  /** A transaction writes and removes edges, in any scope, among whatever else it writes;
      and ends by committing, or by being refused. */
  datatype Step =
    | Begin(tx: nat)
    | Write(tx: nat, sc: Scope, link: Link, value: Bytes)
    | Remove(tx: nat, sc: Scope, link: Link)
    | Other(tx: nat, key: Bytes, write: Option<Bytes>)
    | Commit(tx: nat)
    | Refuse(tx: nat)

  datatype State = State(kv: KV, open: map<nat, Writes>)

  ghost predicate Enabled(s: State, step: Step) {
    match step
    case Begin(x) => x !in s.open
    case Write(x, sc, _, _) => x in s.open && Fits(sc)
    case Remove(x, sc, _) => x in s.open && Fits(sc)
    case Other(x, k, _) => x in s.open && !IsEdgeKey(k)
    case Commit(x) => x in s.open
    case Refuse(x) => x in s.open
  }

  ghost function Do(s: State, step: Step): State
    requires Enabled(s, step)
  {
    match step
    case Begin(x) => s.(open := s.open[x := map[]])
    case Write(x, sc, l, value) => s.(open := s.open[x := TwoRows(s.open[x], sc, l, Some(value))])
    case Remove(x, sc, l) => s.(open := s.open[x := TwoRows(s.open[x], sc, l, None)])
    case Other(x, k, write) => s.(open := s.open[x := s.open[x][k := write]])
    case Commit(x) => State(Applied(s.kv, s.open[x]), s.open - {x})
    case Refuse(x) => s.(open := s.open - {x})
  }

  ghost predicate IsRun(s: State, steps: seq<Step>)
    decreases |steps|
  {
    steps == [] || (Enabled(s, steps[0]) && IsRun(Do(s, steps[0]), steps[1..]))
  }

  ghost function After(s: State, steps: seq<Step>): State
    requires IsRun(s, steps)
    decreases |steps|
  {
    if steps == [] then s else After(Do(s, steps[0]), steps[1..])
  }

  ghost predicate Inv(s: State) {
    Mirrored(s.kv) && forall x | x in s.open :: Paired(s.open[x])
  }

  lemma StepKeeps(s: State, step: Step)
    requires Inv(s) && Enabled(s, step)
    ensures Inv(Do(s, step))
  {
    match step
    case Begin(_) =>
    case Write(x, sc, l, value) => TwoRowsPair(s.open[x], sc, l, Some(value));
    case Remove(x, sc, l) => TwoRowsPair(s.open[x], sc, l, None);
    case Other(x, k, write) => OtherWritesPair(s.open[x], k, write);
    case Commit(x) => CommitMirrors(s.kv, s.open[x]);
    case Refuse(_) =>
  }

  /** Whatever is written and removed, in whatever interleaving, committed or refused, each
      out-key is present exactly when its in-key is, with the same bytes. */
  lemma {:induction false} MirrorIsKept(s: State, steps: seq<Step>)
    requires Inv(s) && IsRun(s, steps)
    ensures Inv(After(s, steps))
    ensures forall sc, l | Fits(sc) :: Twins(After(s, steps).kv, OutKey(sc, l), InKey(sc, l))
    decreases |steps|
  {
    if steps != [] {
      StepKeeps(s, steps[0]);
      MirrorIsKept(Do(s, steps[0]), steps[1..]);
    }
  }

  // --- the store ------------------------------------------------------------------------------

  /** A deletion has to name two records and a known type. */
  predicate Deletable(l: Link) {
    l.from != ZERO_ID && l.to != ZERO_ID && ValidType(l.rel)
  }

  predicate Touches(l: Link, rid: Id) {
    l.from == rid || l.to == rid
  }

  class Tx {
    var writes: Writes

    constructor ()
      ensures writes == map[]
    {
      writes := map[];
    }
  }

  class EdgeStore {
    var kv: KV
    const encode: Edge -> Bytes
    const decodes: Bytes -> bool

    constructor (encode: Edge -> Bytes, decodes: Bytes -> bool)
      ensures this.encode == encode && this.decodes == decodes && kv == map[]
    {
      this.encode, this.decodes, kv := encode, decodes, map[];
    }

    /** Stages an edge's two rows, one value under both keys. */
    method Stage(tx: Tx, sc: Scope, e: Edge) returns (r: Result<bool>)
      requires Fits(sc)
      modifies tx
      ensures r == if sc.tenant != [] && e.from != ZERO_ID && e.to != ZERO_ID && e.from != e.to && 1 <= e.rel <= 8 then Ok(true) else Err(Invalid)
      ensures tx.writes == if r.Ok? then TwoRows(old(tx.writes), sc, Link(e.from, e.rel, e.to), Some(encode(e))) else old(tx.writes)
      ensures Paired(old(tx.writes)) ==> Paired(tx.writes)
    {
      if sc.tenant == [] || !Validates(e) {
        return Err(Invalid);
      }
      if Paired(tx.writes) {
        TwoRowsPair(tx.writes, sc, Link(e.from, e.rel, e.to), Some(encode(e)));
      }
      var value := encode(e);
      tx.writes := tx.writes[OutKey(sc, Link(e.from, e.rel, e.to)) := Some(value)];
      tx.writes := tx.writes[InKey(sc, Link(e.from, e.rel, e.to)) := Some(value)];
      return Ok(true);
    }

    /** Stages the deletion of both rows, whether or not the edge exists. */
    method StageDelete(tx: Tx, sc: Scope, l: Link) returns (r: Result<bool>)
      requires Fits(sc)
      modifies tx
      ensures r == if sc.tenant != [] && l.from != ZERO_ID && l.to != ZERO_ID && 1 <= l.rel <= 8 then Ok(true) else Err(Invalid)
      ensures tx.writes == if r.Ok? then TwoRows(old(tx.writes), sc, l, None) else old(tx.writes)
      ensures Paired(old(tx.writes)) ==> Paired(tx.writes)
    {
      if sc.tenant == [] || l.from == ZERO_ID || l.to == ZERO_ID {
        return Err(Invalid);
      }
      if !ValidType(l.rel) {
        return Err(Invalid);
      }
      if Paired(tx.writes) {
        TwoRowsPair(tx.writes, sc, l, None);
      }
      tx.writes := tx.writes[OutKey(sc, l) := None];
      tx.writes := tx.writes[InKey(sc, l) := None];
      return Ok(true);
    }

    method Commit(tx: Tx)
      modifies this`kv
      ensures kv == Applied(old(kv), tx.writes)
      ensures Mirrored(old(kv)) && Paired(tx.writes) ==> Mirrored(kv)
    {
      if Mirrored(kv) && Paired(tx.writes) {
        CommitMirrors(kv, tx.writes);
      }
      kv := Applied(kv, tx.writes);
    }

    /** Stages the deletion of the edge one scanned key reads as. */
    method DeleteRead(tx: Tx, sc: Scope, rid: Id, space: byte, k: Bytes) returns (r: Result<bool>)
      requires Fits(sc) && sc.tenant != [] && k in kv
      modifies tx
      ensures r == if Removable(kv, decodes, space, rid, k) then Ok(true) else Err(if Readable(kv, decodes, k) then Invalid else Corruption)
      ensures tx.writes == if r.Ok? then TwoRows(old(tx.writes), sc, LinkAt(space, rid, k), None) else old(tx.writes)
    {
      if ParseTail(k).Err? || !decodes(kv[k]) {
        return Err(Corruption);
      }
      r := StageDelete(tx, sc, LinkAt(space, rid, k));
    }

    /** Stages the deletion of the edges some scanned keys read as, up to the first key that
        cannot be acted on. */
    method DeleteScanned(tx: Tx, sc: Scope, rid: Id, space: byte, ks: seq<Bytes>) returns (r: Result<nat>, ghost links: seq<Link>)
      requires Fits(sc) && sc.tenant != [] && forall k | k in ks :: k in kv
      modifies tx
      ensures tx.writes == DeleteAll(old(tx.writes), sc, links) && Taken(kv, decodes, space, rid, ks, links)
      ensures r.Ok? ==> r.value == |links| == |ks|
      ensures r.Err? ==>
                && |links| < |ks| && !Removable(kv, decodes, space, rid, ks[|links|])
                && r.error == if Readable(kv, decodes, ks[|links|]) then Invalid else Corruption
    {
      links := [];
      var i := 0;
      while i < |ks|
        invariant 0 <= i == |links| <= |ks| && Taken(kv, decodes, space, rid, ks, links)
        invariant tx.writes == DeleteAll(old(tx.writes), sc, links)
      {
        assert ks[i] in ks;
        var deleted := DeleteRead(tx, sc, rid, space, ks[i]);
        if deleted.Err? {
          return Err(deleted.error), links;
        }
        ghost var l := LinkAt(space, rid, ks[i]);
        DeletedOneMore(old(tx.writes), sc, links, l);
        assert (links + [l])[..i] == links;
        links, i := links + [l], i + 1;
      }
      r := Ok(|ks|);
    }

    /** The edges a record's range in one space reads as. */
    method RemoveSide(tx: Tx, sc: Scope, rid: Id, space: byte) returns (r: Result<nat>, ghost links: seq<Link>)
      requires Fits(sc) && sc.tenant != []
      modifies tx
      ensures tx.writes == DeleteAll(old(tx.writes), sc, links)
      ensures forall l | l in links :: SeenFrom(kv, sc, space, rid, l)
      ensures r.Ok? <==> forall k | k in RangeKeys(kv, sc, space, rid) :: Removable(kv, decodes, space, rid, k)
      ensures r.Ok? ==> r.value == |RangeKeys(kv, sc, space, rid)|
      ensures r.Ok? ==> forall l | SeenFrom(kv, sc, space, rid, l) :: l in links
      ensures r.Err? ==> r.error == Corruption || r.error == Invalid
    {
      var lower, upper := PrefixRange(FromPrefix(space, sc, rid));
      var ks := Scan(kv, lower, upper);
      assert (set k | k in kv && InRange(k, lower, upper)) == RangeKeys(kv, sc, space, rid);
      r, links := DeleteScanned(tx, sc, rid, space, ks);
      LinksAreSeen(kv, decodes, sc, space, rid, ks, links);
    }

    /** Stages the deletion of every edge the store shows at a record, from either side, and
        counts the keys it acted on. The transaction's own staged edges are not read. */
    method RemoveEvery(tx: Tx, sc: Scope, rid: Id) returns (r: Result<nat>, ghost links: seq<Link>)
      requires Fits(sc)
      modifies tx
      ensures Paired(old(tx.writes)) ==> Paired(tx.writes)
      ensures tx.writes == DeleteAll(old(tx.writes), sc, links)
      ensures forall l | l in links :: Seen(kv, sc, rid, l)
      ensures r.Ok? <==>
                && sc.tenant != []
                && (forall k | k in RangeKeys(kv, sc, Keys.SPACE_EDGE_OUT, rid) :: Removable(kv, decodes, Keys.SPACE_EDGE_OUT, rid, k))
                && (forall k | k in RangeKeys(kv, sc, Keys.SPACE_EDGE_IN, rid) :: Removable(kv, decodes, Keys.SPACE_EDGE_IN, rid, k))
      ensures r.Ok? ==>
                && r.value == |RangeKeys(kv, sc, Keys.SPACE_EDGE_OUT, rid)| + |RangeKeys(kv, sc, Keys.SPACE_EDGE_IN, rid)|
                && forall l | Seen(kv, sc, rid, l) :: l in links
      ensures r.Err? ==> r.error == Corruption || r.error == Invalid
    {
      if sc.tenant == [] {
        return Err(Invalid), [];
      }
      ghost var was := tx.writes;
      var outs, outLinks := RemoveSide(tx, sc, rid, Keys.SPACE_EDGE_OUT);
      if outs.Err? {
        if Paired(was) {
          DeletedPair(was, sc, outLinks);
        }
        return outs, outLinks;
      }
      var ins, inLinks := RemoveSide(tx, sc, rid, Keys.SPACE_EDGE_IN);
      links := outLinks + inLinks;
      DeletedTogether(was, sc, outLinks, inLinks);
      if Paired(was) {
        DeletedPair(was, sc, links);
      }
      r := if ins.Err? then ins else Ok(outs.value + ins.value);
    }
  }

  // --- what RemoveEvery reads and leaves --------------------------------------------------

  /** The edge a scan of a record's neighbours takes a key for. */
  function LinkAt(space: byte, rid: Id, k: Bytes): Link
    requires ParseTail(k).Ok?
  {
    var tail := ParseTail(k).value;
    if space == Keys.SPACE_EDGE_OUT then Link(rid, tail.rel, tail.to) else Link(tail.to, tail.rel, rid)
  }

  predicate Readable(kv: KV, decodes: Bytes -> bool, k: Bytes) {
    k in kv && ParseTail(k).Ok? && decodes(kv[k])
  }

  /** A key RemoveEvery can act on. */
  predicate Removable(kv: KV, decodes: Bytes -> bool, space: byte, rid: Id, k: Bytes) {
    Readable(kv, decodes, k) && Deletable(LinkAt(space, rid, k))
  }

  predicate Reads(space: byte, rid: Id, k: Bytes, l: Link) {
    ParseTail(k).Ok? && l == LinkAt(space, rid, k)
  }

  function RangeKeys(kv: KV, sc: Scope, space: byte, rid: Id): set<Bytes> {
    set k | k in kv && FromPrefix(space, sc, rid) <= k
  }

  predicate SeenFrom(kv: KV, sc: Scope, space: byte, rid: Id, l: Link) {
    exists k | k in RangeKeys(kv, sc, space, rid) :: Reads(space, rid, k, l)
  }

  /** The first keys of a scan were acted on, each for the edge it reads as. */
  ghost predicate Taken(kv: KV, decodes: Bytes -> bool, space: byte, rid: Id, ks: seq<Bytes>, links: seq<Link>) {
    links == [] ||
    var n := |links| - 1;
    n < |ks| && Removable(kv, decodes, space, rid, ks[n]) && Reads(space, rid, ks[n], links[n])
    && Taken(kv, decodes, space, rid, ks, links[..n])
  }

  lemma {:induction false} TakenAt(kv: KV, decodes: Bytes -> bool, space: byte, rid: Id, ks: seq<Bytes>, links: seq<Link>, j: nat)
    requires Taken(kv, decodes, space, rid, ks, links) && j < |links|
    ensures |links| <= |ks| && Removable(kv, decodes, space, rid, ks[j]) && Reads(space, rid, ks[j], links[j])
  {
    if j < |links| - 1 {
      TakenAt(kv, decodes, space, rid, ks, links[..|links| - 1], j);
    }
  }

  lemma LinksAreSeen(kv: KV, decodes: Bytes -> bool, sc: Scope, space: byte, rid: Id, ks: seq<Bytes>, links: seq<Link>)
    requires Taken(kv, decodes, space, rid, ks, links)
    requires forall k :: k in ks <==> k in RangeKeys(kv, sc, space, rid)
    ensures forall l | l in links :: SeenFrom(kv, sc, space, rid, l)
    ensures |links| == |ks| ==> forall k | k in RangeKeys(kv, sc, space, rid) :: Removable(kv, decodes, space, rid, k)
    ensures |links| == |ks| ==> forall l | SeenFrom(kv, sc, space, rid, l) :: l in links
  {
    forall l | l in links
      ensures SeenFrom(kv, sc, space, rid, l)
    {
      var j :| 0 <= j < |links| && links[j] == l;
      TakenAt(kv, decodes, space, rid, ks, links, j);
      assert ks[j] in ks;
    }
    if |links| == |ks| {
      forall k | k in RangeKeys(kv, sc, space, rid)
        ensures Removable(kv, decodes, space, rid, k) && forall l | Reads(space, rid, k, l) :: l in links
      {
        assert k in ks;
        var j :| 0 <= j < |ks| && ks[j] == k;
        TakenAt(kv, decodes, space, rid, ks, links, j);
        assert links[j] in links;
      }
    }
  }

  /** A read of the store's neighbours of the record shows this edge. */
  predicate Seen(kv: KV, sc: Scope, rid: Id, l: Link) {
    SeenFrom(kv, sc, Keys.SPACE_EDGE_OUT, rid, l) || SeenFrom(kv, sc, Keys.SPACE_EDGE_IN, rid, l)
  }

  function DeleteAll(w: Writes, sc: Scope, links: seq<Link>): Writes {
    if links == [] then w else TwoRows(DeleteAll(w, sc, links[..|links| - 1]), sc, links[|links| - 1], None)
  }

  lemma DeletedOneMore(w: Writes, sc: Scope, links: seq<Link>, l: Link)
    ensures DeleteAll(w, sc, links + [l]) == TwoRows(DeleteAll(w, sc, links), sc, l, None)
  {
    assert (links + [l])[..|links|] == links;
  }

  lemma {:induction false} DeletedTogether(w: Writes, sc: Scope, a: seq<Link>, b: seq<Link>)
    ensures DeleteAll(DeleteAll(w, sc, a), sc, b) == DeleteAll(w, sc, a + b)
  {
    if b == [] {
      assert a + b == a;
    } else {
      var init, last := b[..|b| - 1], b[|b| - 1];
      DeletedTogether(w, sc, a, init);
      DeletedOneMore(w, sc, a + init, last);
      DeletedOneMore(DeleteAll(w, sc, a), sc, init, last);
      assert b == init + [last] && a + b == a + init + [last];
    }
  }

  lemma {:induction false} DeletedPair(w: Writes, sc: Scope, links: seq<Link>)
    requires Fits(sc) && Paired(w)
    ensures Paired(DeleteAll(w, sc, links))
  {
    if links != [] {
      DeletedPair(w, sc, links[..|links| - 1]);
      TwoRowsPair(DeleteAll(w, sc, links[..|links| - 1]), sc, links[|links| - 1], None);
    }
  }

  /** What becomes of one key: deleted if it is a key of a listed edge, else untouched. */
  lemma {:induction false} DeletedAt(w: Writes, sc: Scope, links: seq<Link>, k: Bytes)
    ensures var d := DeleteAll(w, sc, links);
            if exists l | l in links :: k == OutKey(sc, l) || k == InKey(sc, l) then k in d && d[k].None?
            else (k in d <==> k in w) && (k in w ==> d[k] == w[k])
  {
    if links != [] {
      var init, last := links[..|links| - 1], links[|links| - 1];
      DeletedAt(w, sc, init, k);
      DeletedOneMore(w, sc, init, last);
      assert links == init + [last];
    }
  }

  lemma DeletedEdge(w: Writes, sc: Scope, links: seq<Link>, l: Link)
    requires Fits(sc)
    ensures var d := DeleteAll(w, sc, links);
            if l in links then OutKey(sc, l) in d && d[OutKey(sc, l)].None? && InKey(sc, l) in d && d[InKey(sc, l)].None?
            else SameAt(d, w, OutKey(sc, l)) && SameAt(d, w, InKey(sc, l))
  {
    DeletedAt(w, sc, links, OutKey(sc, l));
    DeletedAt(w, sc, links, InKey(sc, l));
    forall l' | l' in links && l' != l
      ensures OutKey(sc, l) != OutKey(sc, l') && OutKey(sc, l) != InKey(sc, l') && InKey(sc, l) != OutKey(sc, l') && InKey(sc, l) != InKey(sc, l')
    {
      KeysApart(sc, l, sc, l', rid := l.from);
      KeysApart(sc, l', sc, l, rid := l.from);
    }
  }

  predicate SameAt<T(==)>(m: map<Bytes, T>, m': map<Bytes, T>, k: Bytes) {
    if k in m then k in m' && m[k] == m'[k] else k !in m'
  }

  /** The transaction will write this edge. */
  predicate Stages(w: Writes, sc: Scope, l: Link) {
    OutKey(sc, l) in w && w[OutKey(sc, l)].Some?
  }

  /** Stored edges at the record are always seen, from whichever side it is on. */
  lemma StoredIsSeen(kv: KV, sc: Scope, rid: Id, l: Link)
    requires Fits(sc) && Touches(l, rid) && Twins(kv, OutKey(sc, l), InKey(sc, l)) && OutKey(sc, l) in kv
    ensures Seen(kv, sc, rid, l)
  {
    KeysAreInRange(sc, l);
    if l.from == rid {
      assert Reads(Keys.SPACE_EDGE_OUT, rid, OutKey(sc, l), l);
    } else {
      assert Reads(Keys.SPACE_EDGE_IN, rid, InKey(sc, l), l);
    }
  }

  predicate Holds(kv: KV, sc: Scope, l: Link) {
    OutKey(sc, l) in kv || InKey(sc, l) in kv
  }

  /** One edge at the record survives exactly when the transaction had staged it and the
      store does not show it. */
  lemma SurvivesExactly(kv: KV, before: Writes, sc: Scope, rid: Id, links: seq<Link>, l: Link)
    requires Fits(sc) && Touches(l, rid) && (l in links <==> Seen(kv, sc, rid, l))
    requires Twins(kv, OutKey(sc, l), InKey(sc, l)) && Twins(before, OutKey(sc, l), InKey(sc, l))
    ensures Holds(Applied(kv, DeleteAll(before, sc, links)), sc, l) <==> Stages(before, sc, l) && !Seen(kv, sc, rid, l)
  {
    DeletedEdge(before, sc, links, l);
    if OutKey(sc, l) in kv {
      StoredIsSeen(kv, sc, rid, l);
    }
  }

  lemma OtherRowsAreAsStaged(kv: KV, before: Writes, sc: Scope, rid: Id, links: seq<Link>, k: Bytes)
    requires forall l | l in links :: Touches(l, rid)
    requires forall l | Touches(l, rid) :: k != OutKey(sc, l) && k != InKey(sc, l)
    ensures SameAt(Applied(kv, DeleteAll(before, sc, links)), Applied(kv, before), k)
  {
    DeletedAt(before, sc, links, k);
  }

  /** Removing every edge of a record, committed with whatever else the transaction had
      staged: nothing is left at the record exactly when the transaction had staged no edge
      there that the store does not already show. Every other row is as it would have been. */
  lemma NothingTouchesExactly(kv: KV, before: Writes, sc: Scope, rid: Id, links: seq<Link>)
    requires Fits(sc) && Mirrored(kv) && Paired(before)
    requires forall l :: l in links <==> Seen(kv, sc, rid, l)
    ensures var after := Applied(kv, DeleteAll(before, sc, links));
            && ((forall l | Touches(l, rid) :: !Holds(after, sc, l)) <==>
                forall l | Touches(l, rid) && Stages(before, sc, l) :: Seen(kv, sc, rid, l))
            && forall k | (forall l | Touches(l, rid) :: k != OutKey(sc, l) && k != InKey(sc, l)) ::
                 SameAt(after, Applied(kv, before), k)
  {
    forall l | Touches(l, rid)
      ensures Holds(Applied(kv, DeleteAll(before, sc, links)), sc, l) <==> Stages(before, sc, l) && !Seen(kv, sc, rid, l)
    {
      assert Twins(kv, OutKey(sc, l), InKey(sc, l)) && Twins(before, OutKey(sc, l), InKey(sc, l));
      SurvivesExactly(kv, before, sc, rid, links, l);
    }
    forall k | forall l | Touches(l, rid) :: k != OutKey(sc, l) && k != InKey(sc, l)
      ensures SameAt(Applied(kv, DeleteAll(before, sc, links)), Applied(kv, before), k)
    {
      assert forall l | l in links :: Seen(kv, sc, rid, l) && Touches(l, rid);
      OtherRowsAreAsStaged(kv, before, sc, rid, links, k);
    }
  }

  /** An edge staged just before, over an empty store: RemoveEvery has nothing to read, and
      the edge is there after the commit. */
  lemma StagedEdgeSurvives(sc: Scope, l: Link, value: Bytes)
    requires Fits(sc)
    ensures var staged := TwoRows(map[], sc, l, Some(value));
            && Mirrored(map[]) && Paired(staged)
            && (forall l' :: !Seen(map[], sc, l.from, l'))
            && Holds(Applied(map[], DeleteAll(staged, sc, [])), sc, l)
  {
    TwoRowsPair(map[], sc, l, Some(value));
  }

  /** Where every edge key holds an edge and no more, to be seen is to be stored. */
  lemma SeenIsStored(kv: KV, sc: Scope, rid: Id, l: Link)
    requires Fits(sc) && Twins(kv, OutKey(sc, l), InKey(sc, l))
    requires forall k | k in kv && (InOut(sc, k) || InIn(sc, k)) :: Whole(k)
    ensures Seen(kv, sc, rid, l) <==> Touches(l, rid) && OutKey(sc, l) in kv
  {
    if SeenFrom(kv, sc, Keys.SPACE_EDGE_OUT, rid, l) {
      var k :| k in RangeKeys(kv, sc, Keys.SPACE_EDGE_OUT, rid) && Reads(Keys.SPACE_EDGE_OUT, rid, k, l);
      RangeIsInSpace(Keys.SPACE_EDGE_OUT, sc, k, rid);
      RangeIsNearEnd(Keys.SPACE_EDGE_OUT, sc, k, rid);
      EdgeKeysRead(sc, k, l);
    }
    if SeenFrom(kv, sc, Keys.SPACE_EDGE_IN, rid, l) {
      var k :| k in RangeKeys(kv, sc, Keys.SPACE_EDGE_IN, rid) && Reads(Keys.SPACE_EDGE_IN, rid, k, l);
      RangeIsInSpace(Keys.SPACE_EDGE_IN, sc, k, rid);
      RangeIsNearEnd(Keys.SPACE_EDGE_IN, sc, k, rid);
      EdgeKeysRead(sc, k, l);
    }
    if Touches(l, rid) && OutKey(sc, l) in kv {
      StoredIsSeen(kv, sc, rid, l);
    }
  }
}
