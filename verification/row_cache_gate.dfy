/** The gate that counts staged row writes, and turns the cache off when there are
    more of them than it can mark. */
module RowCacheGate {

  const MAX_STAGED_ROWS := 0x1_0000

  datatype Gate = Gate(outstanding: int, latched: bool, disabled: bool)

  datatype EnterResult = EnterResult(gate: Gate, record: bool, tripped: bool)

  datatype GateEvent = Unchanged | Recovered | Underflowed

  datatype LeaveResult = LeaveResult(gate: Gate, event: GateEvent)

  const OPEN_GATE := Gate(0, false, false)

  /** One more staged write. The mark is recorded only while the cache is on; the
      call that exceeds the bound turns the cache off and clears it. */
  function Enter(g: Gate): EnterResult {
    var counted := g.(outstanding := g.outstanding + 1);
    if g.disabled then EnterResult(counted, false, false)
    else if counted.outstanding > MAX_STAGED_ROWS then EnterResult(counted.(disabled := true), false, true)
    else EnterResult(counted, true, false)
  }

  /** One staged write given back. A count below zero stops the cache for good. */
  function Leave(g: Gate): LeaveResult {
    var counted := g.(outstanding := g.outstanding - 1);
    if counted.outstanding < 0 then
      LeaveResult(Gate(0, true, true), Underflowed)
    else if g.latched || counted.outstanding > 0 || !g.disabled then
      LeaveResult(counted, Unchanged)
    else
      LeaveResult(counted.(disabled := false), Recovered)
  }

  /** The gate after the first of any mix of calls, paired or not: true enters, false leaves. */
  function Calls(calls: seq<bool>, n: nat): Gate
    requires n <= |calls|
  {
    if n == 0 then OPEN_GATE
    else if calls[n - 1] then Enter(Calls(calls, n - 1)).gate
    else Leave(Calls(calls, n - 1)).gate
  }

  /** How many writes those calls have staged and not given back. */
  function Balance(calls: seq<bool>, n: nat): int
    requires n <= |calls|
  {
    if n == 0 then 0 else Balance(calls, n - 1) + if calls[n - 1] then 1 else -1
  }

  /** Some call gave back a write that was never staged. */
  ghost predicate Underflows(calls: seq<bool>, n: nat)
    requires n <= |calls|
  {
    exists m | 0 <= m <= n :: Balance(calls, m) < 0
  }

  /** More than 65536 writes were open at one point, and since then there has always been
      one. */
  ghost predicate Since(calls: seq<bool>, n: nat, at: int)
    requires n <= |calls|
  {
    0 <= at <= n && Balance(calls, at) > 65536 && forall m | at <= m <= n :: Balance(calls, m) > 0
  }

  ghost predicate Flooded(calls: seq<bool>, n: nat)
    requires n <= |calls|
  {
    exists at :: Since(calls, n, at)
  }

  lemma FloodGoesOn(calls: seq<bool>, n: nat, next: nat)
    requires n + 1 == next <= |calls|
    ensures Flooded(calls, next) <==> Balance(calls, next) > 65536 || (Flooded(calls, n) && Balance(calls, next) > 0)
  {
    if Flooded(calls, next) {
      var at :| Since(calls, next, at);
      assert at <= n ==> Since(calls, n, at);
    }
    if Flooded(calls, n) && Balance(calls, next) > 0 {
      var at :| Since(calls, n, at);
      assert Since(calls, next, at);
    }
    if Balance(calls, next) > 65536 {
      assert Since(calls, next, next);
    }
  }

  /** Over every sequence of gate calls from a fresh gate: while none has underflowed, the
      count is of writes still open, and the cache is off exactly when there have been too
      many of them and not yet none again. From an underflow on the gate is latched, stays
      off, and reports no recovery. */
  lemma {:induction false} GateRun(calls: seq<bool>, n: nat)
    requires n <= |calls|
    ensures !Underflows(calls, n) ==>
              && Calls(calls, n).outstanding == Balance(calls, n) && !Calls(calls, n).latched
              && (Calls(calls, n).disabled <==> Flooded(calls, n))
    ensures Underflows(calls, n) ==> Calls(calls, n).latched && Calls(calls, n).disabled
    ensures Underflows(calls, n) ==> Leave(Calls(calls, n)).event != Recovered
    ensures Calls(calls, n).outstanding >= 0
  {
    if n > 0 {
      GateRun(calls, n - 1);
      FloodGoesOn(calls, n - 1, n);
      assert Balance(calls, n - 1) > 65536 ==> Since(calls, n - 1, n - 1);
      assert Underflows(calls, n - 1) ==> Underflows(calls, n);
      assert Underflows(calls, n) <==> Underflows(calls, n - 1) || Balance(calls, n) < 0;
    }
  }
}
