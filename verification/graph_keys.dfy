/** The two keys of an edge: out of its source, and into its target with the ends changed
    round. They never meet, and each reads back to the edge it was written for. */
module GraphKeys {
  import opened Prelude
  import opened ByteOrder
  import opened GraphTypes
  import Keys

  /** One namespace of one tenant. */
  datatype Scope = Scope(tenant: Bytes, ns: Bytes)

  predicate Fits(sc: Scope) {
    Keys.Sized(sc.tenant) && Keys.Sized(sc.ns)
  }

  const MEMORY: byte := 1

  function OutKey(sc: Scope, l: Link): Bytes {
    Keys.Build(Keys.Key(sc.tenant, sc.ns, Keys.EdgeOut(l.from, l.rel, l.to)))
  }

  function InKey(sc: Scope, l: Link): Bytes {
    Keys.Build(Keys.Key(sc.tenant, sc.ns, Keys.EdgeIn(l.to, l.rel, l.from)))
  }

  function RecordKey(sc: Scope, rid: Id): Bytes {
    Keys.Build(Keys.Key(sc.tenant, sc.ns, Keys.Record(MEMORY, rid)))
  }

  /** No key of an edge is another's, nor its own other key, nor a record's. */
  lemma KeysApart(sc: Scope, l: Link, sc': Scope, l': Link, rid: Id)
    requires Fits(sc) && Fits(sc')
    ensures OutKey(sc, l) == OutKey(sc', l') ==> sc == sc' && l == l'
    ensures InKey(sc, l) == InKey(sc', l') ==> sc == sc' && l == l'
    ensures OutKey(sc, l) != InKey(sc', l')
    ensures RecordKey(sc', rid) != OutKey(sc, l) && RecordKey(sc', rid) != InKey(sc, l)
  {
    var out := Keys.Key(sc.tenant, sc.ns, Keys.EdgeOut(l.from, l.rel, l.to));
    var out' := Keys.Key(sc'.tenant, sc'.ns, Keys.EdgeOut(l'.from, l'.rel, l'.to));
    var inn := Keys.Key(sc.tenant, sc.ns, Keys.EdgeIn(l.to, l.rel, l.from));
    var inn' := Keys.Key(sc'.tenant, sc'.ns, Keys.EdgeIn(l'.to, l'.rel, l'.from));
    var rec := Keys.Key(sc'.tenant, sc'.ns, Keys.Record(MEMORY, rid));
    if OutKey(sc, l) == OutKey(sc', l') {
      Keys.BuildIsInjective(out, out');
    }
    if InKey(sc, l) == InKey(sc', l') {
      Keys.BuildIsInjective(inn, inn');
    }
    if OutKey(sc, l) == InKey(sc', l') {
      Keys.BuildIsInjective(out, inn');
    }
    if RecordKey(sc', rid) == OutKey(sc, l) {
      Keys.BuildIsInjective(rec, out);
    }
    if RecordKey(sc', rid) == InKey(sc, l) {
      Keys.BuildIsInjective(rec, inn);
    }
  }

  // --- reading a key back ----------------------------------------------------------------

  /** The near end, type and far end, off the tail of a key of either space. */
  function ParseTail(k: Bytes): Result<Link> {
    if |k| < Keys.EDGE_LEN then Err(Corruption)
    else
      var body := k[|k| - Keys.EDGE_LEN..];
      Ok(Link(body[..ID_LEN], Keys.U16Of(body[ID_LEN..ID_LEN + 2]), body[ID_LEN + 2..]))
  }

  function Turned(l: Link): Link {
    Link(l.to, l.rel, l.from)
  }

  predicate InOut(sc: Scope, k: Bytes) {
    Keys.InSpace(k, sc.tenant, sc.ns, Keys.SPACE_EDGE_OUT)
  }

  predicate InIn(sc: Scope, k: Bytes) {
    Keys.InSpace(k, sc.tenant, sc.ns, Keys.SPACE_EDGE_IN)
  }

  /** After its space byte an edge key holds an edge and no more. */
  predicate Whole(k: Bytes) {
    Keys.ParseScope(k).Ok? && |Keys.ParseScope(k).value.2| == 1 + Keys.EDGE_LEN
  }

  function Near(space: byte, sc: Scope, l: Link): Bytes {
    Keys.SpacePrefix(sc.tenant, sc.ns, space) + (l.from + Keys.U16Bytes(l.rel) + l.to)
  }

  lemma TailReads(p: Bytes, near: Id, rel: RelType, far: Id)
    ensures ParseTail(p + (near + Keys.U16Bytes(rel) + far)) == Ok(Link(near, rel, far))
  {
    var body := near + Keys.U16Bytes(rel) + far;
    Keys.EdgeReads(body, near, rel, far);
    assert (p + body)[|p|..] == body;
  }

  lemma NearIsWhole(space: byte, sc: Scope, l: Link)
    requires Fits(sc)
    ensures var k := Near(space, sc, l);
            Keys.InSpace(k, sc.tenant, sc.ns, space) && Whole(k) && ParseTail(k) == Ok(l)
  {
    var k := Near(space, sc, l);
    var rest := [space] + (l.from + Keys.U16Bytes(l.rel) + l.to);
    assert k == Keys.ScopePrefix(sc.tenant, sc.ns) + rest;
    Keys.ScopeReads(k, sc.tenant, sc.ns, rest);
    TailReads(Keys.SpacePrefix(sc.tenant, sc.ns, space), l.from, l.rel, l.to);
  }

  lemma WholeIsNear(space: byte, sc: Scope, k: Bytes)
    requires Fits(sc) && Keys.InSpace(k, sc.tenant, sc.ns, space) && Whole(k)
    ensures ParseTail(k).Ok? && k == Near(space, sc, ParseTail(k).value)
  {
    Keys.NamesItsSpace(k, sc.tenant, sc.ns, space);
    var p, r := Keys.SpacePrefix(sc.tenant, sc.ns, space), Keys.ParseScope(k).value.2[1..];
    assert k == p + r && |r| == Keys.EDGE_LEN;
    assert k[|k| - Keys.EDGE_LEN..] == r;
    var l := ParseTail(k).value;
    Keys.EdgeReads(r, l.from, l.rel, l.to);
  }

  /** A whole key of the out space is the out-key of the edge it reads back to, and the
      out-keys are exactly those; and so for the in space, turned round. */
  lemma EdgeKeysRead(sc: Scope, k: Bytes, l: Link)
    requires Fits(sc)
    ensures k == OutKey(sc, l) <==> InOut(sc, k) && Whole(k) && ParseTail(k) == Ok(l)
    ensures k == InKey(sc, l) <==> InIn(sc, k) && Whole(k) && ParseTail(k) == Ok(Turned(l))
  {
    assert OutKey(sc, l) == Near(Keys.SPACE_EDGE_OUT, sc, l);
    assert InKey(sc, l) == Near(Keys.SPACE_EDGE_IN, sc, Turned(l));
    NearIsWhole(Keys.SPACE_EDGE_OUT, sc, l);
    NearIsWhole(Keys.SPACE_EDGE_IN, sc, Turned(l));
    if InOut(sc, k) && Whole(k) {
      WholeIsNear(Keys.SPACE_EDGE_OUT, sc, k);
    }
    if InIn(sc, k) && Whole(k) {
      WholeIsNear(Keys.SPACE_EDGE_IN, sc, k);
    }
  }

  lemma RecordIsNoEdge(sc: Scope, rid: Id)
    requires Fits(sc)
    ensures !InOut(sc, RecordKey(sc, rid)) && !InIn(sc, RecordKey(sc, rid))
  {
    var body := Keys.Record(MEMORY, rid);
    var rest := [Keys.Space(body)] + Keys.Remainder(body);
    assert RecordKey(sc, rid) == Keys.ScopePrefix(sc.tenant, sc.ns) + rest;
    Keys.ScopeReads(RecordKey(sc, rid), sc.tenant, sc.ns, rest);
  }

  // --- the ranges of one record ------------------------------------------------------------

  function FromPrefix(space: byte, sc: Scope, near: Id): Bytes {
    Keys.SpacePrefix(sc.tenant, sc.ns, space) + near
  }

  /** A whole key of a space is in a record's range exactly when the record is its near end. */
  lemma RangeIsNearEnd(space: byte, sc: Scope, k: Bytes, near: Id)
    requires Fits(sc) && Keys.InSpace(k, sc.tenant, sc.ns, space) && Whole(k)
    ensures ParseTail(k).Ok? && (FromPrefix(space, sc, near) <= k <==> ParseTail(k).value.from == near)
  {
    WholeIsNear(space, sc, k);
    var p, l := Keys.SpacePrefix(sc.tenant, sc.ns, space), ParseTail(k).value;
    var rest := Keys.U16Bytes(l.rel) + l.to;
    assert k == p + l.from + rest;
    assert k[|p|..|p| + ID_LEN] == l.from;
    if FromPrefix(space, sc, near) <= k {
      assert k[|p|..|p| + ID_LEN] == FromPrefix(space, sc, near)[|p|..] == near;
    }
  }

  lemma RangeIsInSpace(space: byte, sc: Scope, k: Bytes, near: Id)
    requires Fits(sc) && FromPrefix(space, sc, near) <= k
    ensures Keys.InSpace(k, sc.tenant, sc.ns, space)
  {
    assert Keys.SpacePrefix(sc.tenant, sc.ns, space) <= FromPrefix(space, sc, near);
    Keys.NamesItsSpace(k, sc.tenant, sc.ns, space);
  }
}
