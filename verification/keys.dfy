/** The key layout: length-prefixed tenant and namespace, a space byte, and a body.
    Builders and parsers undo each other, and ranges hold exactly what they name. */
module Keys {
  import opened Prelude
  import opened ByteOrder

  // --- variable-length integers -----------------------------------------------------------

  /** Seven bits a byte, lowest first; the high bit says that more follow. */
  function Uvarint(n: nat): (r: Bytes)
    ensures |r| >= 1
  {
    if n < 128 then [n] else [128 + n % 128] + Uvarint(n / 128)
  }

  const MAX_VARINT_LEN := 10

  /** Reads from byte `i` of a varint of at most ten bytes that fits in 64 bits: the
      value and how many bytes it took. */
  function ReadUvarint(b: Bytes, i: nat): (r: Option<(nat, nat)>)
    ensures r.Some? ==> 1 <= r.value.1 <= |b|
  {
    if b == [] || i >= MAX_VARINT_LEN then None
    else if b[0] < 128 then (if i == MAX_VARINT_LEN - 1 && b[0] > 1 then None else Some((b[0], 1)))
    else
      match ReadUvarint(b[1..], i + 1)
      case None => None
      case Some((n, w)) => Some((b[0] - 128 + 128 * n, w + 1))
  }

  /** How many values can be written from byte `i` on. */
  function Room(i: nat): nat
    requires i < MAX_VARINT_LEN
    decreases MAX_VARINT_LEN - i
  {
    if i == MAX_VARINT_LEN - 1 then 2 else 128 * Room(i + 1)
  }

  lemma RoomIs64Bits()
    ensures Room(0) == 0x1_0000_0000_0000_0000
  {
    assert Room(8) == 256;
    assert Room(6) == 0x40_0000;
    assert Room(4) == 0x10_0000_0000;
    assert Room(2) == 0x4_0000_0000_0000;
  }

  lemma {:induction false} UvarintReads(n: nat, rest: Bytes, i: nat)
    requires i < MAX_VARINT_LEN && n < Room(i)
    ensures ReadUvarint(Uvarint(n) + rest, i) == Some((n, |Uvarint(n)|))
    decreases n
  {
    if n >= 128 {
      UvarintReads(n / 128, rest, i + 1);
      assert (Uvarint(n) + rest)[1..] == Uvarint(n / 128) + rest;
    }
  }

  /** What was read in as few bytes as it can be written in was written by Uvarint. */
  lemma {:induction false} MinimalReads(b: Bytes, i: nat)
    requires ReadUvarint(b, i).Some? && ReadUvarint(b, i).value.1 == |Uvarint(ReadUvarint(b, i).value.0)|
    ensures i < MAX_VARINT_LEN && ReadUvarint(b, i).value.0 < Room(i)
    ensures b[..ReadUvarint(b, i).value.1] == Uvarint(ReadUvarint(b, i).value.0)
  {
    if b[0] >= 128 {
      var (n, w) := ReadUvarint(b, i).value;
      assert n >= 128;
      MinimalReads(b[1..], i + 1);
      assert b[..w] == [b[0]] + b[1..][..w - 1];
    } else {
      RoomIsEnough(i);
    }
  }

  lemma {:induction false} RoomIsEnough(i: nat)
    requires i < MAX_VARINT_LEN
    ensures Room(i) >= 2 && (i < MAX_VARINT_LEN - 1 ==> Room(i) >= 256)
    decreases MAX_VARINT_LEN - i
  {
    if i < MAX_VARINT_LEN - 1 {
      RoomIsEnough(i + 1);
    }
  }

  method UvarintLen(n: nat) returns (w: nat)
    ensures w == |Uvarint(n)|
  {
    w := 1;
    var v := n;
    while v >= 0x80
      invariant w - 1 + |Uvarint(v)| == |Uvarint(n)|
    {
      v := v / 128;
      w := w + 1;
    }
  }

  // --- length-prefixed components ---------------------------------------------------------------

  /** Names are no longer than a slice can be. */
  predicate Sized(v: Bytes) {
    |v| < 0x8000_0000_0000_0000
  }

  function Prefixed(v: Bytes): Bytes {
    Uvarint(|v|) + v
  }

  /** Reads one component. A padded length is refused: the same name would otherwise
      have keys outside its own ranges. */
  function Component(k: Bytes): (r: Result<(Bytes, Bytes)>) {
    match ReadUvarint(k, 0)
    case None => Err(Corruption)
    case Some((n, w)) =>
      if w != |Uvarint(n)| then Err(Corruption)
      else if |k| - w < n then Err(Corruption)
      else Ok((k[w..w + n], k[w + n..]))
  }

  /** Reading a component and writing one undo each other. */
  lemma ComponentReads(k: Bytes, v: Bytes, rest: Bytes)
    requires Sized(v)
    ensures Component(k) == Ok((v, rest)) <==> k == Prefixed(v) + rest
  {
    RoomIs64Bits();
    if k == Prefixed(v) + rest {
      assert k == Uvarint(|v|) + (v + rest);
      UvarintReads(|v|, v + rest, 0);
    }
    if Component(k) == Ok((v, rest)) {
      MinimalReads(k, 0);
      var (n, w) := ReadUvarint(k, 0).value;
      assert k == k[..w] + k[w..w + n] + k[w + n..];
    }
  }

  function ParseScope(k: Bytes): Result<(Bytes, Bytes, Bytes)> {
    var t := Component(k);
    if t.Err? then Err(t.error)
    else
      var ns := Component(t.value.1);
      if ns.Err? then Err(ns.error) else Ok((t.value.0, ns.value.0, ns.value.1))
  }

  function ScopePrefix(t: Bytes, ns: Bytes): Bytes {
    Prefixed(t) + Prefixed(ns)
  }

  lemma ScopeReads(k: Bytes, t: Bytes, ns: Bytes, rest: Bytes)
    requires Sized(t) && Sized(ns)
    ensures ParseScope(k) == Ok((t, ns, rest)) <==> k == ScopePrefix(t, ns) + rest
  {
    var after := Prefixed(ns) + rest;
    assert ScopePrefix(t, ns) + rest == Prefixed(t) + after;
    ComponentReads(k, t, after);
    ComponentReads(after, ns, rest);
    if ParseScope(k) == Ok((t, ns, rest)) {
      var tail := Component(k).value.1;
      ComponentReads(k, t, tail);
      ComponentReads(tail, ns, rest);
    }
  }

  // --- keys ---------------------------------------------------------------------------------------

  const SPACE_RECORD: byte := 0x02
  const SPACE_EDGE_OUT: byte := 0x04
  const SPACE_EDGE_IN: byte := 0x05
  const SPACE_TEXT: byte := 0x08
  const SPACE_JOB: byte := 0x0A
  const SPACE_EVENT: byte := 0x0B
  const SPACE_JOB_PAUSE: byte := 0x0D
  const SPACE_JOB_RUN: byte := 0x0E
  const SPACE_PASSAGE: byte := 0x0F

  /** What a key addresses inside its scope, for each space that something reads back. An
      edge is written twice, the far end and the near end changing places. */
  datatype Body =
    | Record(typ: byte, rid: Id)
    | EdgeOut(from: Id, rel: U16, to: Id)
    | EdgeIn(to: Id, rel: U16, from: Id)
    | Text(term: Bytes, rid: Id)
    | Job(state: byte, due: U64, jid: Id)
    | JobPause(job: Bytes)
    | JobRun(finished: U64, run: Id)
    | Passage(rid: Id, passage: U32)
    | Event(subject: Id, at: U64, seqNo: U32)

  datatype Key = Key(tenant: Bytes, ns: Bytes, body: Body)

  function Space(b: Body): byte {
    match b
    case Record(_, _) => SPACE_RECORD
    case EdgeOut(_, _, _) => SPACE_EDGE_OUT
    case EdgeIn(_, _, _) => SPACE_EDGE_IN
    case Text(_, _) => SPACE_TEXT
    case Job(_, _, _) => SPACE_JOB
    case JobPause(_) => SPACE_JOB_PAUSE
    case JobRun(_, _) => SPACE_JOB_RUN
    case Passage(_, _) => SPACE_PASSAGE
    case Event(_, _, _) => SPACE_EVENT
  }

  function U64Bytes(v: U64): Bytes {
    SpanOfWords();
    BigEndian(v, 8)
  }

  function U32Bytes(v: U32): Bytes {
    SpanOfWords();
    BigEndian(v, 4)
  }

  function U16Bytes(v: U16): (r: Bytes)
    ensures |r| == 2
  {
    SpanOfWords();
    BigEndian(v, 2)
  }

  function Remainder(b: Body): Bytes {
    match b
    case Record(typ, rid) => [typ] + rid
    case EdgeOut(from, rel, to) => from + U16Bytes(rel) + to
    case EdgeIn(to, rel, from) => to + U16Bytes(rel) + from
    case Text(term, rid) => Prefixed(term) + rid
    case Job(state, due, jid) => [state] + U64Bytes(due) + jid
    case JobPause(job) => job
    case JobRun(finished, run) => U64Bytes(finished) + run
    case Passage(rid, passage) => rid + U32Bytes(passage)
    case Event(subject, at, seqNo) => subject + U64Bytes(at) + U32Bytes(seqNo)
  }

  function Build(k: Key): Bytes {
    ScopePrefix(k.tenant, k.ns) + [Space(k.body)] + Remainder(k.body)
  }

  predicate KnownState(state: byte) {
    1 <= state <= 3
  }

  function U64Of(b: Bytes): U64
    requires |b| == 8
  {
    SpanOfWords();
    FromBigEndian(b)
  }

  function U32Of(b: Bytes): U32
    requires |b| == 4
  {
    SpanOfWords();
    FromBigEndian(b)
  }

  function U16Of(b: Bytes): U16
    requires |b| == 2
  {
    SpanOfWords();
    FromBigEndian(b)
  }

  const EDGE_LEN := 2 * ID_LEN + 2

  /** Decodes the remainder of a key in a given space. */
  function ParseBody(space: byte, r: Bytes): Result<Body> {
    if space == SPACE_RECORD then
      if |r| != 1 + ID_LEN then Err(Corruption) else Ok(Record(r[0], r[1..]))
    else if space == SPACE_EDGE_OUT then
      if |r| != EDGE_LEN then Err(Corruption)
      else Ok(EdgeOut(r[..ID_LEN], U16Of(r[ID_LEN..ID_LEN + 2]), r[ID_LEN + 2..]))
    else if space == SPACE_EDGE_IN then
      if |r| != EDGE_LEN then Err(Corruption)
      else Ok(EdgeIn(r[..ID_LEN], U16Of(r[ID_LEN..ID_LEN + 2]), r[ID_LEN + 2..]))
    else if space == SPACE_TEXT then
      var term := Component(r);
      if term.Err? then Err(term.error)
      else if |term.value.1| != ID_LEN then Err(Corruption)
      else Ok(Text(term.value.0, term.value.1))
    else if space == SPACE_JOB then
      if |r| != 1 + 8 + ID_LEN then Err(Corruption)
      else if !KnownState(r[0]) then Err(Corruption)
      else Ok(Job(r[0], U64Of(r[1..9]), r[9..]))
    else if space == SPACE_JOB_PAUSE then
      if r == [] then Err(Corruption) else Ok(JobPause(r))
    else if space == SPACE_JOB_RUN then
      if |r| != 8 + ID_LEN then Err(Corruption) else Ok(JobRun(U64Of(r[..8]), r[8..]))
    else if space == SPACE_PASSAGE then
      if |r| != ID_LEN + 4 then Err(Corruption) else Ok(Passage(r[..ID_LEN], U32Of(r[ID_LEN..])))
    else if space == SPACE_EVENT then
      if |r| != ID_LEN + 8 + 4 then Err(Corruption)
      else Ok(Event(r[..ID_LEN], U64Of(r[ID_LEN..ID_LEN + 8]), U32Of(r[ID_LEN + 8..])))
    else Err(Corruption)
  }

  /** The parser of one space: ParseRecord, ParseText, ParseJob and the rest. */
  function Parse(space: byte, k: Bytes): Result<Key> {
    var scope := ParseScope(k);
    if scope.Err? then Err(scope.error)
    else
      var (t, ns, rest) := scope.value;
      if |rest| < 1 || rest[0] != space then Err(Corruption)
      else
        var body := ParseBody(space, rest[1..]);
        if body.Err? then Err(body.error) else Ok(Key(t, ns, body.value))
  }

  /** The keys a builder can be given and a parser can return: a pause is of some type,
      and a job is in one of the three partitions. */
  predicate WellFormed(k: Key) {
    && Sized(k.tenant) && Sized(k.ns)
    && (k.body.Text? ==> Sized(k.body.term))
    && (k.body.JobPause? ==> k.body.job != [])
    && (k.body.Job? ==> KnownState(k.body.state))
  }

  lemma WordsReturn(b: Bytes, v: nat, width: nat)
    requires v < Span(width) && |b| == width
    ensures FromBigEndian(b) == v <==> b == BigEndian(v, width)
  {
    BigEndianDecodes(v, width);
    BigEndianEncodes(b);
  }

  lemma EdgeReads(r: Bytes, near: Id, rel: U16, far: Id)
    ensures r == near + U16Bytes(rel) + far <==>
            |r| == EDGE_LEN && r[..ID_LEN] == near && U16Of(r[ID_LEN..ID_LEN + 2]) == rel && r[ID_LEN + 2..] == far
  {
    SpanOfWords();
    if r == near + U16Bytes(rel) + far {
      assert r[..ID_LEN] == near && r[ID_LEN..ID_LEN + 2] == U16Bytes(rel) && r[ID_LEN + 2..] == far;
      BigEndianDecodes(rel, 2);
    }
    if |r| == EDGE_LEN {
      BigEndianEncodes(r[ID_LEN..ID_LEN + 2]);
      assert r == r[..ID_LEN] + r[ID_LEN..ID_LEN + 2] + r[ID_LEN + 2..];
    }
  }

  lemma JobReads(r: Bytes, state: byte, due: U64, jid: Id)
    ensures r == [state] + U64Bytes(due) + jid <==>
            |r| == 1 + 8 + ID_LEN && r[0] == state && U64Of(r[1..9]) == due && r[9..] == jid
  {
    SpanOfWords();
    if |r| == 1 + 8 + ID_LEN {
      WordsReturn(r[1..9], due, 8);
      assert r == [r[0]] + r[1..9] + r[9..];
    }
  }

  lemma EventReads(r: Bytes, subject: Id, at: U64, seqNo: U32)
    ensures r == subject + U64Bytes(at) + U32Bytes(seqNo) <==>
            && |r| == ID_LEN + 8 + 4 && r[..ID_LEN] == subject
            && U64Of(r[ID_LEN..ID_LEN + 8]) == at && U32Of(r[ID_LEN + 8..]) == seqNo
  {
    SpanOfWords();
    if |r| == ID_LEN + 8 + 4 {
      WordsReturn(r[ID_LEN..ID_LEN + 8], at, 8);
      WordsReturn(r[ID_LEN + 8..], seqNo, 4);
      assert r == r[..ID_LEN] + r[ID_LEN..ID_LEN + 8] + r[ID_LEN + 8..];
    }
  }

  /** Decoding a remainder and writing one undo each other. */
  lemma BodyReads(r: Bytes, b: Body)
    requires b.Text? ==> Sized(b.term)
    requires b.JobPause? ==> b.job != []
    requires b.Job? ==> KnownState(b.state)
    ensures ParseBody(Space(b), r) == Ok(b) <==> r == Remainder(b)
  {
    SpanOfWords();
    match b
    case Record(typ, rid) =>
      assert |r| == 1 + ID_LEN ==> r == [r[0]] + r[1..];
    case EdgeOut(from, rel, to) =>
      EdgeReads(r, from, rel, to);
    case EdgeIn(to, rel, from) =>
      EdgeReads(r, to, rel, from);
    case Text(term, rid) =>
      ComponentReads(r, term, rid);
    case Job(state, due, jid) =>
      JobReads(r, state, due, jid);
    case JobPause(job) =>
    case JobRun(finished, run) =>
      if |r| == 8 + ID_LEN {
        WordsReturn(r[..8], finished, 8);
        assert r == r[..8] + r[8..];
      }
    case Passage(rid, passage) =>
      if |r| == ID_LEN + 4 {
        WordsReturn(r[ID_LEN..], passage, 4);
        assert r == r[..ID_LEN] + r[ID_LEN..];
      }
    case Event(subject, at, seqNo) =>
      EventReads(r, subject, at, seqNo);
  }

  /** Builders and parsers are mutual inverses: a byte string parses to a key exactly
      when it is what the builder makes of that key. */
  lemma BuildersAndParsersAreInverse(bytes: Bytes, k: Key)
    requires WellFormed(k)
    ensures Parse(Space(k.body), bytes) == Ok(k) <==> bytes == Build(k)
  {
    var rest := [Space(k.body)] + Remainder(k.body);
    assert Build(k) == ScopePrefix(k.tenant, k.ns) + rest;
    ScopeReads(bytes, k.tenant, k.ns, rest);
    BodyReads(rest[1..], k.body);
    if Parse(Space(k.body), bytes) == Ok(k) {
      var tail := ParseScope(bytes).value.2;
      ScopeReads(bytes, k.tenant, k.ns, tail);
      BodyReads(tail[1..], k.body);
      assert tail == [tail[0]] + tail[1..] == rest;
    }
  }

  /** A parser returns only keys its builder accepts, of its own space. */
  lemma ParsedKeysAreWellFormed(space: byte, bytes: Bytes)
    requires Sized(bytes) && Parse(space, bytes).Ok?
    ensures WellFormed(Parse(space, bytes).value) && Space(Parse(space, bytes).value.body) == space
    ensures bytes == Build(Parse(space, bytes).value)
  {
    var rest := ParseScope(bytes).value.2;
    ParsedBodyIsWellFormed(space, rest[1..]);
    BuildersAndParsersAreInverse(bytes, Parse(space, bytes).value);
  }

  lemma ParsedBodyIsWellFormed(space: byte, r: Bytes)
    requires Sized(r) && ParseBody(space, r).Ok?
    ensures var b := ParseBody(space, r).value;
            && Space(b) == space && (b.Text? ==> Sized(b.term))
            && (b.JobPause? ==> b.job != []) && (b.Job? ==> KnownState(b.state))
  {
  }

  /** A key says which scope it is in only one way. */
  lemma ScopesAgree(t: Bytes, ns: Bytes, rest: Bytes, t': Bytes, ns': Bytes, rest': Bytes)
    requires Sized(t) && Sized(ns) && Sized(t') && Sized(ns')
    requires ScopePrefix(t, ns) + rest == ScopePrefix(t', ns') + rest'
    ensures t == t' && ns == ns' && rest == rest'
  {
    ScopeReads(ScopePrefix(t, ns) + rest, t, ns, rest);
    ScopeReads(ScopePrefix(t, ns) + rest, t', ns', rest');
  }

  /** No two keys share their bytes, whatever their spaces and scopes. */
  lemma BuildIsInjective(a: Key, b: Key)
    requires WellFormed(a) && WellFormed(b) && Build(a) == Build(b)
    ensures a == b
  {
    var restA, restB := [Space(a.body)] + Remainder(a.body), [Space(b.body)] + Remainder(b.body);
    assert Build(a) == ScopePrefix(a.tenant, a.ns) + restA && Build(b) == ScopePrefix(b.tenant, b.ns) + restB;
    ScopesAgree(a.tenant, a.ns, restA, b.tenant, b.ns, restB);
    assert restA[0] == restB[0];
    BuildersAndParsersAreInverse(Build(a), a);
    BuildersAndParsersAreInverse(Build(a), b);
  }

  // --- ranges ---------------------------------------------------------------------------------------

  method TenantRange(t: Bytes) returns (lower: Bytes, upper: Option<Bytes>)
    requires Sized(t)
    ensures forall k :: InRange(k, lower, upper) <==> Component(k).Ok? && Component(k).value.0 == t
  {
    lower, upper := PrefixRange(Prefixed(t));
    forall k
      ensures Prefixed(t) <= k <==> Component(k).Ok? && Component(k).value.0 == t
    {
      NamesItsTenant(k, t);
    }
  }

  lemma NamesItsTenant(k: Bytes, t: Bytes)
    requires Sized(t)
    ensures Prefixed(t) <= k <==> Component(k).Ok? && Component(k).value.0 == t
  {
    var p := Prefixed(t);
    if p <= k {
      assert k == p + k[|p|..];
      ComponentReads(k, t, k[|p|..]);
    }
    if Component(k).Ok? && Component(k).value.0 == t {
      ComponentReads(k, t, Component(k).value.1);
    }
  }

  /** A key is in a scope when its scope parses to that. */
  predicate InScope(k: Bytes, t: Bytes, ns: Bytes) {
    ParseScope(k).Ok? && ParseScope(k).value.0 == t && ParseScope(k).value.1 == ns
  }

  /** And in a space of it when the space byte follows. */
  predicate InSpace(k: Bytes, t: Bytes, ns: Bytes, space: byte) {
    InScope(k, t, ns) && var rest := ParseScope(k).value.2; |rest| >= 1 && rest[0] == space
  }

  lemma NamesItsScope(k: Bytes, t: Bytes, ns: Bytes)
    requires Sized(t) && Sized(ns)
    ensures ScopePrefix(t, ns) <= k <==> InScope(k, t, ns)
    ensures InScope(k, t, ns) ==> k == ScopePrefix(t, ns) + ParseScope(k).value.2
  {
    var p := ScopePrefix(t, ns);
    if p <= k {
      assert k == p + k[|p|..];
      ScopeReads(k, t, ns, k[|p|..]);
    }
    if InScope(k, t, ns) {
      ScopeReads(k, t, ns, ParseScope(k).value.2);
    }
  }

  function SpacePrefix(t: Bytes, ns: Bytes, space: byte): Bytes {
    ScopePrefix(t, ns) + [space]
  }

  lemma NamesItsSpace(k: Bytes, t: Bytes, ns: Bytes, space: byte)
    requires Sized(t) && Sized(ns)
    ensures SpacePrefix(t, ns, space) <= k <==> InSpace(k, t, ns, space)
    ensures InSpace(k, t, ns, space) ==> k == SpacePrefix(t, ns, space) + ParseScope(k).value.2[1..]
  {
    NamesItsScope(k, t, ns);
    if InScope(k, t, ns) {
      OneByteMore(ScopePrefix(t, ns), space, ParseScope(k).value.2);
    } else {
      assert ScopePrefix(t, ns) <= SpacePrefix(t, ns, space);
    }
  }

  lemma OneByteMore(p: Bytes, b: byte, rest: Bytes)
    ensures p + [b] <= p + rest <==> |rest| >= 1 && rest[0] == b
    ensures |rest| >= 1 && rest[0] == b ==> p + rest == p + [b] + rest[1..]
  {
    if |rest| >= 1 {
      assert (p + rest)[|p|] == rest[0];
      if rest[0] == b {
        assert rest == [b] + rest[1..];
        assert p + rest == p + [b] + rest[1..];
      }
    }
  }

  /** The range of a namespace: every key of it, of any space and any form. */
  method NamespaceRange(t: Bytes, ns: Bytes) returns (lower: Bytes, upper: Option<Bytes>)
    requires Sized(t) && Sized(ns)
    ensures forall k :: InRange(k, lower, upper) <==> InScope(k, t, ns)
  {
    lower, upper := PrefixRange(ScopePrefix(t, ns));
    forall k
      ensures ScopePrefix(t, ns) <= k <==> InScope(k, t, ns)
    {
      NamesItsScope(k, t, ns);
    }
  }

  /** The range of one space of it. */
  method SpaceRange(t: Bytes, ns: Bytes, space: byte) returns (lower: Bytes, upper: Option<Bytes>)
    requires Sized(t) && Sized(ns)
    ensures forall k :: InRange(k, lower, upper) <==> InSpace(k, t, ns, space)
  {
    lower, upper := PrefixRange(SpacePrefix(t, ns, space));
    forall k
      ensures SpacePrefix(t, ns, space) <= k <==> InSpace(k, t, ns, space)
    {
      NamesItsSpace(k, t, ns, space);
    }
  }

  function StatePrefix(t: Bytes, ns: Bytes, state: byte): Bytes {
    ScopePrefix(t, ns) + [SPACE_JOB] + [state]
  }

  /** What a job key says after its partition: the part a bound on due time cuts. */
  predicate InPartition(k: Bytes, t: Bytes, ns: Bytes, state: byte) {
    InSpace(k, t, ns, SPACE_JOB) && var rest := ParseScope(k).value.2; |rest| >= 2 && rest[1] == state
  }

  /** Every job of one partition due by an instant, and nothing else: whatever the bytes
      of a key, it is in the range only if it is in the partition and below the bound,
      and a key that parses as a job is in it exactly when that job is due. */
  method JobDueRange(t: Bytes, ns: Bytes, state: byte, due: U64) returns (lower: Bytes, upper: Option<Bytes>)
    requires Sized(t) && Sized(ns)
    ensures forall k :: InRange(k, lower, upper) <==>
              && InPartition(k, t, ns, state)
              && (due < 0xFFFF_FFFF_FFFF_FFFF ==> Lt(ParseScope(k).value.2[2..], U64Bytes(due + 1) + ZERO_ID))
    ensures forall k | Parse(SPACE_JOB, k).Ok? ::
              InRange(k, lower, upper) <==> DueBy(Parse(SPACE_JOB, k).value, t, ns, state, due)
  {
    var end;
    lower, end := PrefixRange(StatePrefix(t, ns, state));
    if due == 0xFFFF_FFFF_FFFF_FFFF {
      upper := end;
    } else {
      upper := Some(Build(Key(t, ns, Job(state, due + 1, ZERO_ID))));
      JobKeySplits(t, ns, Job(state, due + 1, ZERO_ID));
    }
    forall k
      ensures InRange(k, lower, upper) <==>
              && InPartition(k, t, ns, state)
              && (due < 0xFFFF_FFFF_FFFF_FFFF ==> Lt(ParseScope(k).value.2[2..], U64Bytes(due + 1) + ZERO_ID))
    {
      NamesItsPartition(k, t, ns, state);
      if due < 0xFFFF_FFFF_FFFF_FFFF {
        BelowTheBound(k, t, ns, state, U64Bytes(due + 1) + ZERO_ID);
      }
    }
    forall k | Parse(SPACE_JOB, k).Ok?
      ensures InRange(k, lower, upper) <==> DueBy(Parse(SPACE_JOB, k).value, t, ns, state, due)
    {
      if due < 0xFFFF_FFFF_FFFF_FFFF {
        DueOrders(k, due + 1);
      }
    }
  }

  predicate DueBy(k: Key, t: Bytes, ns: Bytes, state: byte, due: U64) {
    k.tenant == t && k.ns == ns && k.body.Job? && k.body.state == state && k.body.due <= due
  }

  lemma NamesItsPartition(k: Bytes, t: Bytes, ns: Bytes, state: byte)
    requires Sized(t) && Sized(ns)
    ensures StatePrefix(t, ns, state) <= k <==> InPartition(k, t, ns, state)
    ensures InPartition(k, t, ns, state) ==> k == StatePrefix(t, ns, state) + ParseScope(k).value.2[2..]
  {
    NamesItsSpace(k, t, ns, SPACE_JOB);
    if InSpace(k, t, ns, SPACE_JOB) {
      var rest := ParseScope(k).value.2;
      OneByteMore(SpacePrefix(t, ns, SPACE_JOB), state, rest[1..]);
      assert |rest| >= 2 ==> rest[1..][1..] == rest[2..];
    } else {
      assert SpacePrefix(t, ns, SPACE_JOB) <= StatePrefix(t, ns, state);
    }
  }

  /** Below a bound inside the partition are the partition's keys whose rest is below it. */
  lemma BelowTheBound(k: Bytes, t: Bytes, ns: Bytes, state: byte, bound: Bytes)
    requires Sized(t) && Sized(ns)
    ensures var p := StatePrefix(t, ns, state);
            InRange(k, p, Some(p + bound)) <==> InPartition(k, t, ns, state) && Lt(ParseScope(k).value.2[2..], bound)
  {
    var p := StatePrefix(t, ns, state);
    NamesItsPartition(k, t, ns, state);
    InsidePrefix(p, p + bound, k);
    if p <= k {
      var rest := ParseScope(k).value.2[2..];
      CommonPrefix(p, rest, bound);
      PrefixIsLeast(p, rest);
    }
  }

  lemma JobKeySplits(t: Bytes, ns: Bytes, b: Body)
    requires b.Job?
    ensures Build(Key(t, ns, b)) == StatePrefix(t, ns, b.state) + (U64Bytes(b.due) + b.jid)
    ensures StatePrefix(t, ns, b.state) <= Build(Key(t, ns, b))
  {
  }

  /** A range that ends inside a prefix's own holds only keys that begin with it. */
  lemma InsidePrefix(p: Bytes, upper: Bytes, k: Bytes)
    requires p <= upper
    ensures InRange(k, p, Some(upper)) ==> p <= k
  {
    PrefixBounds(p, k);
    PrefixBounds(p, upper);
    if Lt(k, upper) && SpanEnd(p).Some? {
      Transitive(k, upper, SpanEnd(p).value);
    }
  }

  /** A parsed job's rest is below the bound's exactly when it is due before it. */
  lemma DueOrders(k: Bytes, bound: U64)
    requires Parse(SPACE_JOB, k).Ok?
    ensures Lt(ParseScope(k).value.2[2..], U64Bytes(bound) + ZERO_ID) <==> Parse(SPACE_JOB, k).value.body.due < bound
  {
    var job, rest := Parse(SPACE_JOB, k).value.body, ParseScope(k).value.2;
    SpanOfWords();
    var r := rest[1..];
    BigEndianEncodes(r[1..9]);
    assert rest[2..] == r[1..9] + r[9..] == U64Bytes(job.due) + job.jid;
    BigEndianOrders(job.due, bound, 8, job.jid, ZERO_ID);
    NothingBelowZero(job.jid, ZERO_ID);
  }

  lemma {:induction false} NothingBelowZero(a: Bytes, zero: Bytes)
    requires |a| == |zero| && forall i | 0 <= i < |zero| :: zero[i] == 0
    ensures !Lt(a, zero)
  {
    if a != [] {
      NothingBelowZero(a[1..], zero[1..]);
    }
  }
}
