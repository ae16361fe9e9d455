/** A lease lasts: a job claimed for a while is not taken back sooner, whatever else is
    read and committed meanwhile, unless its holder renews. */
module JobsLeases {
  import opened Prelude
  import opened JobsModel
  import opened JobsProtocol

  predicate Bears(j: Job, token: Token) {
    j.lease.Some? && j.lease.value.token == token
  }

  predicate Expires(j: Job, token: Token, at: Instant) {
    Bears(j, token) ==> j.lease.value.expiresAt == at
  }

  /** Whatever is stored or about to be under the token lapses at one instant. */
  predicate LapsesAt(s: State, token: Token, at: Instant) {
    && (forall k | k in s.jobs :: Expires(s.jobs[k], token, at))
    && (forall x | x in s.open :: Expires(s.open[x].next, token, at))
    && token in s.drawn
  }

  /** A copy under the token begins to renew its lease. */
  predicate Renews(s: State, step: Step, token: Token) {
    step.Read? && step.op.Renew? && step.slot in s.slots && Bears(s.slots[step.slot].copy, token)
  }

  ghost predicate NeverRenewed(s: State, steps: seq<Step>, token: Token)
    requires IsRun(s, steps)
    decreases |steps|
  {
    steps == [] || (!Renews(s, steps[0], token) && NeverRenewed(Do(s, steps[0]), steps[1..], token))
  }

  lemma ReadKeeps(s: State, step: Step, token: Token, at: Instant)
    requires LapsesAt(s, token, at) && Enabled(s, step) && step.Read? && !Renews(s, step, token)
    ensures LapsesAt(Do(s, step), token, at)
  {
    var slot := s.slots[step.slot];
    var plan := Plan(step.slot, slot, step.op, s.jobs, step.runId, step.now, step.lease);
    if plan.Ok? {
      assert Expires(s.jobs[slot.stored], token, at);
      assert Expires(plan.value.next, token, at);
    }
  }

  lemma StepKeepsLapse(s: State, step: Step, token: Token, at: Instant)
    requires LapsesAt(s, token, at) && Enabled(s, step) && !Renews(s, step, token)
    ensures LapsesAt(Do(s, step), token, at)
  {
    match step
    case Read(_, _, _, _, _, _) => ReadKeeps(s, step, token, at);
    case _ =>
  }

  lemma {:induction false} RunKeepsLapse(s: State, steps: seq<Step>, token: Token, at: Instant)
    requires LapsesAt(s, token, at) && IsRun(s, steps) && NeverRenewed(s, steps, token)
    ensures LapsesAt(After(s, steps), token, at)
    decreases |steps|
  {
    if steps != [] {
      StepKeepsLapse(s, steps[0], token, at);
      RunKeepsLapse(Do(s, steps[0]), steps[1..], token, at);
    }
  }

  /** Nothing bears a token before it is drawn. */
  lemma FreshTokenIsNowhere(s: State, token: Token)
    requires Inv(s) && token !in s.drawn
    ensures forall k | k in s.jobs :: !Bears(s.jobs[k], token)
    ensures forall x | x in s.open :: !Bears(s.open[x].next, token)
  {
    forall x | x in s.open
      ensures !Bears(s.open[x].next, token)
    {
      assert TxnOk(s.open[x], s.grants, s.drawn);
    }
  }

  /** Over every run after a job is read for a claim at one instant and for so long: unless
      a renewal under the claim's token is begun, a row under that token is not read for
      reclamation before the time is up. */
  lemma LeaseLastsUnlessRenewed(s: State, claim: Step, steps: seq<Step>, later: Step)
    requires Inv(s) && claim.ReadDue? && Enabled(s, claim)
    requires IsRun(Do(s, claim), steps) && NeverRenewed(Do(s, claim), steps, claim.token)
    requires later.ReadLapsed? && Enabled(After(Do(s, claim), steps), later)
    requires Bears(After(Do(s, claim), steps).jobs[later.key], claim.token)
    ensures later.now >= claim.now + claim.lease
  {
    ClaimBegins(s, claim);
    StepKeeps(s, claim);
    LastsFrom(Do(s, claim), steps, later, claim.token, claim.now + claim.lease);
  }

  lemma LastsFrom(s: State, steps: seq<Step>, later: Step, token: Token, at: Instant)
    requires Inv(s) && LapsesAt(s, token, at) && IsRun(s, steps) && NeverRenewed(s, steps, token)
    requires later.ReadLapsed? && Enabled(After(s, steps), later) && Bears(After(s, steps).jobs[later.key], token)
    ensures later.now >= at
  {
    RunKeeps(s, steps);
    RunKeepsLapse(s, steps, token, at);
    OnlyTheLapsed(After(s, steps), later, token, at);
  }

  lemma ClaimBegins(s: State, claim: Step)
    requires Inv(s) && claim.ReadDue? && Enabled(s, claim)
    ensures LapsesAt(Do(s, claim), claim.token, claim.now + claim.lease)
  {
    FreshTokenIsNowhere(s, claim.token);
  }

  lemma OnlyTheLapsed(s: State, later: Step, token: Token, at: Instant)
    requires RowsOk(s.jobs, s.grants, s.drawn) && LapsesAt(s, token, at)
    requires later.ReadLapsed? && Enabled(s, later) && Bears(s.jobs[later.key], token)
    ensures later.now >= at
  {
    KeySaysWhen(s, later);
    assert Expires(s.jobs[later.key], token, at);
  }
}
