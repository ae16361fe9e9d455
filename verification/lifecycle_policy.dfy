/** Retention policies: the rules a memory is kept under, and what makes a tenant's
    table of them acceptable. */
module LifecyclePolicy {
  import opened Prelude

  /** Instants and durations are in nanoseconds. Zero is the unset instant. */
  type Instant = nat

  const MILLISECOND: nat := 1_000_000
  const DAY: nat := 86_400_000_000_000

  const MAX_HEALTH: real := 100.0
  const SHORT_TERM := "short_term"
  const LONG_TERM := "long_term"
  const PINNED := "pinned"
  const DEFAULT_POLICY := SHORT_TERM

  /** An absent rule never applies. */
  datatype Policy = Policy(
    ttl: Option<int>, promoteAtRecalls: Option<nat>, promoteTo: string,
    importanceDecay: real, healthDecay: real,
    archiveAtHealth: Option<real>, cleanupAfter: Option<int>)

  type Table = map<string, Policy>

  const BUILTINS: Table := map[
    SHORT_TERM := Policy(None, Some(3), LONG_TERM, 1.0, 8.0, Some(0.0), Some(30 * DAY)),
    LONG_TERM := Policy(None, None, "", 0.995, 2.0, Some(0.0), Some(30 * DAY)),
    PINNED := Policy(None, None, "", 1.0, 0.0, None, None)]

  /** The policy of a memory whose own is unknown, under which nothing ever comes due. */
  const INERT := Policy(None, None, "", 1.0, 0.0, None, None)

  /** The conditions on a policy's numbers and on the policy it promotes to. */
  predicate Validates(p: Policy, table: Table) {
    && 0.0 < p.importanceDecay <= 1.0
    && 0.0 <= p.healthDecay <= MAX_HEALTH
    && (p.ttl.Some? ==> p.ttl.value > 0)
    && (p.archiveAtHealth.Some? ==> 0.0 <= p.archiveAtHealth.value <= MAX_HEALTH)
    && (p.cleanupAfter.Some? ==> p.cleanupAfter.value > 0)
    && (if p.promoteAtRecalls.Some? then p.promoteTo != "" && p.promoteTo in table else p.promoteTo == "")
  }

  /** A resolved table: the built-in names, each policy validated. */
  predicate IsTable(table: Table) {
    SHORT_TERM in table && LONG_TERM in table && PINNED in table && forall name | name in table :: Validates(table[name], table)
  }

  const MAX_POLICY_NAME_LEN := 64

  predicate NameOk(name: string) {
    name != "" && |name| <= 64 && forall c | c in name :: 'a' <= c <= 'z' || '0' <= c <= '9' || c == '_'
  }

  predicate OverridesOk(overrides: Table) {
    (forall name | name in overrides :: NameOk(name)) && forall name | name in overrides :: Validates(overrides[name], BUILTINS + overrides)
  }

  lemma OverriddenTableIsOne(overrides: Table)
    requires OverridesOk(overrides)
    ensures IsTable(BUILTINS + overrides)
  {
    var table := BUILTINS + overrides;
    forall name | name in table
      ensures Validates(table[name], table)
    {
      if name !in overrides {
        assert name in BUILTINS && LONG_TERM in table;
      }
    }
  }

  method CheckName(name: string) returns (ok: bool)
    ensures ok <==> NameOk(name)
  {
    if name == "" {
      return false;
    }
    if |name| > MAX_POLICY_NAME_LEN {
      return false;
    }
    for i := 0 to |name|
      invariant forall j | 0 <= j < i :: 'a' <= name[j] <= 'z' || '0' <= name[j] <= '9' || name[j] == '_'
    {
      if !(('a' <= name[i] && name[i] <= 'z') || ('0' <= name[i] && name[i] <= '9') || name[i] == '_') {
        assert name[i] in name;
        return false;
      }
    }
    return true;
  }

  method Validate(p: Policy, table: Table) returns (ok: bool)
    ensures ok <==> Validates(p, table)
  {
    if p.importanceDecay <= 0.0 || p.importanceDecay > 1.0 {
      return false;
    }
    if p.healthDecay < 0.0 || p.healthDecay > 100.0 {
      return false;
    }
    if p.ttl.Some? && p.ttl.value <= 0 {
      return false;
    }
    if p.archiveAtHealth.Some? && (p.archiveAtHealth.value < 0.0 || p.archiveAtHealth.value > 100.0) {
      return false;
    }
    if p.cleanupAfter.Some? && p.cleanupAfter.value <= 0 {
      return false;
    }
    if p.promoteAtRecalls.None? {
      return p.promoteTo == "";
    }
    return p.promoteTo != "" && p.promoteTo in table;
  }

  /** The built-ins under a tenant's overrides, if every override validates: then every
      policy in force does. */
  method NewPolicies(overrides: Table) returns (r: Result<Table>)
    ensures r.Ok? <==> OverridesOk(overrides)
    ensures r.Ok? ==> IsTable(r.value) && r.value == BUILTINS + overrides
    ensures r.Err? ==> r.error == Invalid
  {
    var table := BUILTINS + overrides;
    var rest := overrides.Keys;
    while rest != {}
      invariant rest <= overrides.Keys
      invariant forall name | name in overrides && name !in rest :: NameOk(name) && Validates(overrides[name], table)
    {
      var name :| name in rest;
      assert table[name] == overrides[name];
      var named := CheckName(name);
      var valid := Validate(table[name], table);
      if !named || !valid {
        return Err(Invalid);
      }
      rest := rest - {name};
    }
    OverriddenTableIsOne(overrides);
    r := Ok(table);
  }

  function Named(name: string): string {
    if name == "" then DEFAULT_POLICY else name
  }

  predicate Known(table: Table, name: string) {
    Named(name) in table
  }

  function Resolve(table: Table, name: string): Policy {
    if Known(table, name) then table[Named(name)] else INERT
  }
}
