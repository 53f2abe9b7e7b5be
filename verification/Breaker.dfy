/** The circuit breaker of client.py: its locked sections under any interleaving, and
    the rate it allows a failing device to be dialled at. */
module Breaker {
  import opened Formatting

  /** `threshold` is at least 1 and `cooldown` at least 0, as the settings readers see to. */
  datatype Limits = Limits(threshold: nat, cooldown: real)

  predicate ValidLimits(l: Limits) {
    l.threshold >= 1 && l.cooldown >= 0.0
  }

  datatype State = State(failures: nat, openedAt: Option<real>)

  const FRESH := State(0, None)

  /** One locked section, with the clock reading it makes. */
  datatype Op = Before(now: real) | Succeeded | Failed(now: real)

  predicate Admits(l: Limits, s: State, now: real) {
    s.openedAt.None? || now - s.openedAt.value >= l.cooldown
  }

  function Apply(l: Limits, s: State, op: Op): State {
    match op
    case Before(now) => if Admits(l, s, now) then s.(openedAt := None) else s
    case Succeeded => FRESH
    case Failed(now) =>
      var failures := s.failures + 1;
      State(failures, if failures >= l.threshold then Some(now) else s.openedAt)
  }

  function ApplyAll(l: Limits, ops: seq<Op>): State {
    if ops == [] then FRESH else Apply(l, ApplyAll(l, ops[..|ops| - 1]), ops[|ops| - 1])
  }

  /** `CircuitBreaker`: each method is one section under the lock. */
  class CircuitBreaker {
    const limits: Limits
    var consecutiveFailures: nat
    var openedAt: Option<real>

    constructor (limits: Limits)
      ensures this.limits == limits && View() == FRESH
    {
      this.limits, consecutiveFailures, openedAt := limits, 0, None;
    }

    function View(): State
      reads this
    {
      State(consecutiveFailures, openedAt)
    }

    /** The seconds still to wait when the circuit refuses. */
    method BeforeConnect(now: real) returns (wait: Option<real>)
      modifies this`openedAt
      ensures View() == Apply(limits, old(View()), Before(now))
      ensures wait.None? <==> Admits(limits, old(View()), now)
      ensures wait.Some? ==> wait.value > 0.0 && Admits(limits, View(), now + wait.value)
    {
      if openedAt.None? {
        return None;
      }
      var elapsed := now - openedAt.value;
      if elapsed < limits.cooldown {
        return Some(limits.cooldown - elapsed);
      }
      openedAt := None;
      wait := None;
    }

    method RecordSuccess()
      modifies this`consecutiveFailures, this`openedAt
      ensures View() == Apply(limits, old(View()), Succeeded)
    {
      consecutiveFailures, openedAt := 0, None;
    }

    method RecordFailure(now: real)
      modifies this`consecutiveFailures, this`openedAt
      ensures View() == Apply(limits, old(View()), Failed(now))
    {
      consecutiveFailures := consecutiveFailures + 1;
      if consecutiveFailures >= limits.threshold {
        openedAt := Some(now);
      }
    }
  }

  // ---- Any interleaving of the locked sections ----

  function CountFailures(ops: seq<Op>): nat {
    if ops == [] then 0 else (if ops[0].Failed? then 1 else 0) + CountFailures(ops[1..])
  }

  /** The sections after the last success. */
  function SinceSuccess(ops: seq<Op>): seq<Op> {
    if Succeeded in ops then SinceSuccess(ops[1..]) else ops
  }

  lemma {:induction false} CountAppend(ops: seq<Op>, op: Op)
    ensures CountFailures(ops + [op]) == CountFailures(ops) + if op.Failed? then 1 else 0
  {
    if ops == [] {
      assert ([] + [op])[1..] == [];
    } else {
      assert (ops + [op])[1..] == ops[1..] + [op];
      CountAppend(ops[1..], op);
    }
  }

  lemma {:induction false} SinceAppend(ops: seq<Op>, op: Op)
    ensures SinceSuccess(ops + [op]) == if op == Succeeded then [] else SinceSuccess(ops) + [op]
  {
    var all := ops + [op];
    if ops == [] {
      assert all[1..] == [];
      assert op == Succeeded ==> all[0] == Succeeded;
    } else {
      assert all[1..] == ops[1..] + [op];
      SinceAppend(ops[1..], op);
      if Succeeded in all {
        assert Succeeded in ops || op == Succeeded;
      }
      if Succeeded !in ops && op == Succeeded {
        assert all[|ops|] == Succeeded;
        assert Succeeded in all;
      }
    }
  }

  /** The last failure at or over the threshold that nothing has closed since. */
  predicate OpenedBy(l: Limits, ops: seq<Op>, i: nat) {
    && i < |ops| && ops[i].Failed? && CountFailures(SinceSuccess(ops[..i + 1])) >= l.threshold
    && forall j :: i < j < |ops| ==> ops[j].Before? && ops[j].now - ops[i].now < l.cooldown
  }

  lemma OpenedBefore(l: Limits, ops: seq<Op>, op: Op, i: nat)
    ensures OpenedBy(l, ops + [op], i) <==>
            if i == |ops| then op.Failed? && CountFailures(SinceSuccess(ops + [op])) >= l.threshold
            else OpenedBy(l, ops, i) && op.Before? && op.now - ops[i].now < l.cooldown
  {
    var all := ops + [op];
    hide CountFailures, SinceSuccess;
    if i < |ops| {
      assert all[..i + 1] == ops[..i + 1];
      assert all[|ops|] == op;
      assert forall j :: i < j < |ops| ==> all[j] == ops[j];
    } else if i == |ops| {
      assert all[..i + 1] == all;
    }
  }

  /** When the circuit has been open since `t`, as a fact about the sections run. */
  ghost predicate OpenSince(l: Limits, ops: seq<Op>, t: real) {
    exists i: nat :: OpenedBy(l, ops, i) && ops[i].now == t
  }

  lemma OpenSinceNext(l: Limits, ops: seq<Op>, op: Op, t: real)
    ensures OpenSince(l, ops + [op], t) <==>
            || (op == Failed(t) && CountFailures(SinceSuccess(ops + [op])) >= l.threshold)
            || (OpenSince(l, ops, t) && op.Before? && op.now - t < l.cooldown)
  {
    var all := ops + [op];
    OpenedInside(l, all);
    OpenedInside(l, ops);
    hide OpenedBy, CountFailures, SinceSuccess;
    forall i: nat | i <= |ops|
      ensures OpenedBy(l, all, i) <==>
              if i == |ops| then op.Failed? && CountFailures(SinceSuccess(all)) >= l.threshold
              else OpenedBy(l, ops, i) && op.Before? && op.now - ops[i].now < l.cooldown
    {
      OpenedBefore(l, ops, op, i);
    }
    assert all[|ops|] == op;
    if OpenSince(l, ops, t) && op.Before? && op.now - t < l.cooldown {
      var i: nat :| OpenedBy(l, ops, i) && ops[i].now == t;
      assert OpenedBy(l, all, i) && all[i].now == t;
    }
    if op == Failed(t) && CountFailures(SinceSuccess(all)) >= l.threshold {
      assert OpenedBy(l, all, |ops|) && all[|ops|].now == t;
    }
    if OpenSince(l, all, t) {
      var i: nat :| OpenedBy(l, all, i) && all[i].now == t;
      if i < |ops| {
        assert OpenedBy(l, ops, i) && ops[i].now == t;
      }
    }
  }

  lemma OpenedInside(l: Limits, ops: seq<Op>)
    ensures forall i: nat :: OpenedBy(l, ops, i) ==> i < |ops| && ops[i].Failed?
  {
  }

  /** However the sections of concurrent connects interleave: the counter is the
      number of failures since the last success, an open circuit has reached its
      threshold, and it is open exactly since the last such failure that no success,
      later failure or expired check has followed. */
  lemma {:induction false} InterleavingInvariant(l: Limits, ops: seq<Op>)
    requires ValidLimits(l)
    ensures var s := ApplyAll(l, ops);
            && s.failures == CountFailures(SinceSuccess(ops))
            && (s.openedAt.Some? ==> s.failures >= l.threshold)
            && (forall t :: s.openedAt == Some(t) <==> OpenSince(l, ops, t))
  {
    hide OpenSince;
    if ops == [] {
      forall t ensures !OpenSince(l, [], t) { NeverOpened(l, t); }
    } else {
      var last := |ops| - 1;
      var before, op := ops[..last], ops[last];
      assert ops == before + [op];
      InterleavingInvariant(l, before);
      SinceAppend(before, op);
      CountAppend(SinceSuccess(before), op);
      hide SinceSuccess;
      forall t
        ensures ApplyAll(l, ops).openedAt == Some(t) <==> OpenSince(l, ops, t)
      {
        OpenSinceNext(l, before, op, t);
      }
    }
  }

  lemma NeverOpened(l: Limits, t: real)
    ensures !OpenSince(l, [], t)
  {
  }

  // ---- Half open ----

  predicate OnlyChecks(ops: seq<Op>) {
    forall i :: 0 <= i < |ops| ==> ops[i].Before?
  }

  function ApplyFrom(l: Limits, s: State, ops: seq<Op>): State
    decreases |ops|
  {
    if ops == [] then s else ApplyFrom(l, Apply(l, s, ops[0]), ops[1..])
  }

  /** The "exactly one trial" of the source's comment is not what an expired circuit
      allows: once one check has passed, every further check passes until a result is
      recorded. */
  lemma {:induction false} HalfOpenAdmitsAll(l: Limits, s: State, now: real, checks: seq<Op>, again: real)
    requires Admits(l, s, now) && OnlyChecks(checks)
    ensures Admits(l, ApplyFrom(l, Apply(l, s, Before(now)), checks), again)
    decreases |checks|
  {
    if checks != [] {
      assert OnlyChecks(checks[1..]);
      HalfOpenAdmitsAll(l, Apply(l, s, Before(now)), checks[0].now, checks[1..], again);
    }
  }

  /** It is one trial when the result is recorded before the next check: a failed
      trial refuses every check of the following cooldown, and no other. */
  lemma SerialTrialIsSingle(l: Limits, s: State, now: real, failed: real, again: real)
    requires s.failures >= l.threshold && Admits(l, s, now)
    ensures Admits(l, Apply(l, Apply(l, s, Before(now)), Failed(failed)), again) <==> again - failed >= l.cooldown
  {
  }

  // ---- The rate bound ----

  /** One connect of a dead device: checked at `at`, and if admitted, failed at `until`. */
  datatype Dial = Dial(at: real, until: real)

  predicate InOrder(dials: seq<Dial>) {
    && (forall i :: 0 <= i < |dials| ==> dials[i].at <= dials[i].until)
    && (forall i, j :: 0 <= i < j < |dials| ==> dials[i].until <= dials[j].at)
  }

  function AfterDial(l: Limits, s: State, d: Dial): State {
    if Admits(l, s, d.at) then Apply(l, Apply(l, s, Before(d.at)), Failed(d.until)) else Apply(l, s, Before(d.at))
  }

  /** The real connect attempts of a failing streak. */
  function Attempts(l: Limits, s: State, dials: seq<Dial>): nat
    decreases |dials|
  {
    if dials == [] then 0
    else (if Admits(l, s, dials[0].at) then 1 else 0) + Attempts(l, AfterDial(l, s, dials[0]), dials[1..])
  }

  /** The attempts a closed circuit makes before it opens. */
  function Allowance(l: Limits, s: State): nat {
    if s.failures + 1 >= l.threshold then 1 else l.threshold - s.failures
  }

  lemma OrderTail(dials: seq<Dial>)
    requires InOrder(dials) && dials != []
    ensures InOrder(dials[1..])
    ensures dials[0].at <= dials[0].until <= dials[|dials| - 1].until && dials[0].at <= dials[|dials| - 1].at
    ensures |dials| > 1 ==> dials[0].until <= dials[1].at <= dials[|dials| - 1].at
  {
    assert forall i :: 0 <= i < |dials| - 1 ==> dials[1..][i] == dials[i + 1];
  }

  function Cost(k: nat, unit: real): real {
    k as real * unit
  }

  lemma CostSteps(k: nat, unit: real)
    requires unit >= 0.0
    ensures Cost(0, unit) == 0.0 && Cost(k + 1, unit) == Cost(k, unit) + unit && Cost(k, unit) >= 0.0
  {
    assert (k + 1) as real == k as real + 1.0;
  }

  /** Every attempt past the allowance costs a cooldown. */
  predicate Paid(l: Limits, s: State, first: real, end: real, attempts: nat) {
    match s.openedAt
    case None => attempts > Allowance(l, s) ==> Cost(attempts - Allowance(l, s), l.cooldown) <= end - first
    case Some(t) => attempts > 0 ==> Cost(attempts, l.cooldown) <= end - t
  }

  predicate Reachable(l: Limits, s: State) {
    s.openedAt.Some? ==> s.failures >= l.threshold
  }

  lemma DialPaid(l: Limits, s: State, d: Dial, first: real, end: real, later: nat)
    requires ValidLimits(l) && Reachable(l, s) && d.at <= d.until <= first <= end
    requires Paid(l, AfterDial(l, s, d), first, end, later)
    ensures Paid(l, s, d.at, end, later + if Admits(l, s, d.at) then 1 else 0)
  {
    CostSteps(later, l.cooldown);
    hide Cost;
  }

  lemma LastDialPaid(l: Limits, s: State, d: Dial)
    requires ValidLimits(l)
    ensures Paid(l, s, d.at, d.at, if Admits(l, s, d.at) then 1 else 0)
  {
    CostSteps(0, l.cooldown);
    hide Cost;
  }

  lemma {:induction false} AttemptsPaid(l: Limits, s: State, dials: seq<Dial>)
    requires ValidLimits(l) && InOrder(dials) && dials != [] && Reachable(l, s)
    ensures Paid(l, s, dials[0].at, dials[|dials| - 1].at, Attempts(l, s, dials))
    decreases |dials|
  {
    OrderTail(dials);
    var d, s1, rest := dials[0], AfterDial(l, s, dials[0]), dials[1..];
    hide Paid, InOrder, Admits;
    if rest == [] {
      LastDialPaid(l, s, d);
    } else {
      AttemptsPaid(l, s1, rest);
      DialPaid(l, s, d, rest[0].at, dials[|dials| - 1].at, Attempts(l, s1, rest));
    }
  }

  lemma FloorBound(k: nat, unit: real, span: real)
    requires unit > 0.0 && k as real * unit <= span
    ensures k <= (span / unit).Floor
  {
    assert k as real <= span / unit;
  }

  /** A device that never answers is dialled at most threshold + floor(W / cooldown)
      times within W seconds, from a fresh breaker. */
  lemma FailingStreakBound(l: Limits, dials: seq<Dial>)
    requires ValidLimits(l) && l.cooldown > 0.0 && InOrder(dials) && dials != []
    ensures Attempts(l, FRESH, dials) <=
            l.threshold + ((dials[|dials| - 1].at - dials[0].at) / l.cooldown).Floor
  {
    AttemptsPaid(l, FRESH, dials);
    OrderTail(dials);
    var a, span := Attempts(l, FRESH, dials), dials[|dials| - 1].at - dials[0].at;
    hide Attempts, InOrder;
    FloorBound(if a > l.threshold then a - l.threshold else 0, l.cooldown, span);
  }

  /** Dialling at every whole cooldown after the first `from`. */
  function Spaced(l: Limits, from: nat, extra: nat): seq<Dial>
    decreases extra
  {
    if extra == 0 then []
    else [Dial(Cost(from + 1, l.cooldown), Cost(from + 1, l.cooldown))] + Spaced(l, from + 1, extra - 1)
  }

  function AtOnce(n: nat, rest: seq<Dial>): seq<Dial> {
    if n == 0 then rest else [Dial(0.0, 0.0)] + AtOnce(n - 1, rest)
  }

  lemma {:induction false} SpacedAllPass(l: Limits, s: State, from: nat, extra: nat)
    requires ValidLimits(l) && s.failures >= l.threshold && s.openedAt == Some(Cost(from, l.cooldown))
    ensures Attempts(l, s, Spaced(l, from, extra)) == extra
    decreases extra
  {
    CostSteps(from, l.cooldown);
    hide Cost;
    if extra > 0 {
      var d := Spaced(l, from, extra)[0];
      assert Spaced(l, from, extra)[1..] == Spaced(l, from + 1, extra - 1);
      SpacedAllPass(l, AfterDial(l, s, d), from + 1, extra - 1);
    }
  }

  lemma {:induction false} BurstAllPass(l: Limits, s: State, n: nat, extra: nat)
    requires ValidLimits(l) && n >= 1 && s.openedAt.None? && s.failures + n == l.threshold
    ensures Attempts(l, s, AtOnce(n, Spaced(l, 0, extra))) == n + extra
    decreases n
  {
    CostSteps(0, l.cooldown);
    hide Cost;
    var dials := AtOnce(n, Spaced(l, 0, extra));
    assert dials[1..] == AtOnce(n - 1, Spaced(l, 0, extra));
    var s1 := AfterDial(l, s, dials[0]);
    if n == 1 {
      SpacedAllPass(l, s1, 0, extra);
    } else {
      BurstAllPass(l, s1, n - 1, extra);
    }
  }

  lemma {:induction false} SpacedOrder(l: Limits, from: nat, extra: nat)
    requires ValidLimits(l)
    ensures var dials := Spaced(l, from, extra);
            && |dials| == extra
            && forall i :: 0 <= i < extra ==>
                  dials[i] == Dial(Cost(from + i + 1, l.cooldown), Cost(from + i + 1, l.cooldown))
    decreases extra
  {
    if extra > 0 {
      SpacedOrder(l, from + 1, extra - 1);
    }
  }

  lemma {:induction false} BurstOrder(n: nat, rest: seq<Dial>)
    ensures |AtOnce(n, rest)| == n + |rest|
    ensures forall i :: 0 <= i < n + |rest| ==> AtOnce(n, rest)[i] == if i < n then Dial(0.0, 0.0) else rest[i - n]
  {
    if n > 0 {
      BurstOrder(n - 1, rest);
    }
  }

  lemma CostOrder(i: nat, j: nat, unit: real)
    requires i <= j && unit >= 0.0
    ensures 0.0 <= Cost(i, unit) <= Cost(j, unit)
  {
    assert Cost(j, unit) - Cost(i, unit) == (j as real - i as real) * unit;
  }

  /** The bound is met, for every threshold, cooldown and number of cooldowns: dial
      `threshold` times at once and then once a cooldown. */
  lemma BoundIsMet(l: Limits, extra: nat)
    requires ValidLimits(l) && l.cooldown > 0.0
    ensures var dials := AtOnce(l.threshold, Spaced(l, 0, extra));
            && InOrder(dials) && dials != []
            && ((dials[|dials| - 1].at - dials[0].at) / l.cooldown).Floor == extra
            && Attempts(l, FRESH, dials) == l.threshold + extra
  {
    var dials := AtOnce(l.threshold, Spaced(l, 0, extra));
    BurstAllPass(l, FRESH, l.threshold, extra);
    SpacedOrder(l, 0, extra);
    BurstOrder(l.threshold, Spaced(l, 0, extra));
    GreedyOrder(l, extra, dials);
    GreedySpan(l, extra, dials);
    hide Attempts, Spaced, AtOnce, InOrder, Cost;
    WholeCooldowns(extra, l.cooldown);
  }

  lemma WholeCooldowns(k: nat, unit: real)
    requires unit > 0.0
    ensures (Cost(k, unit) / unit).Floor == k
  {
    assert Cost(k, unit) / unit == k as real;
  }

  lemma GreedySpan(l: Limits, extra: nat, dials: seq<Dial>)
    requires ValidLimits(l) && |dials| == l.threshold + extra
    requires forall i :: 0 <= i < |dials| ==>
               dials[i] == if i < l.threshold then Dial(0.0, 0.0)
                           else Dial(Cost(i - l.threshold + 1, l.cooldown), Cost(i - l.threshold + 1, l.cooldown))
    ensures dials[|dials| - 1].at - dials[0].at == Cost(extra, l.cooldown)
  {
    CostSteps(0, l.cooldown);
    hide Cost;
    assert dials[0] == Dial(0.0, 0.0);
    assert dials[|dials| - 1] ==
           if extra == 0 then Dial(0.0, 0.0) else Dial(Cost(extra, l.cooldown), Cost(extra, l.cooldown));
  }

  lemma GreedyOrder(l: Limits, extra: nat, dials: seq<Dial>)
    requires ValidLimits(l) && |dials| == l.threshold + extra
    requires forall i :: 0 <= i < |dials| ==>
               dials[i] == if i < l.threshold then Dial(0.0, 0.0)
                           else Dial(Cost(i - l.threshold + 1, l.cooldown), Cost(i - l.threshold + 1, l.cooldown))
    ensures InOrder(dials)
  {
    hide Cost;
    forall i, j | 0 <= i < j < |dials|
      ensures dials[i].until <= dials[j].at
    {
      if j >= l.threshold {
        CostOrder(if i < l.threshold then 0 else i - l.threshold + 1, j - l.threshold + 1, l.cooldown);
      }
    }
  }
}
