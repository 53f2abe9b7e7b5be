/** Reads with retry over a lazily made connection guarded by the circuit breaker. */
module ReadRetry {
  import opened Text
  import opened Breaker

  // ---- One attempt ----

  /** What a command meets: a value, a rejection by RouterOS, or a dropped transport. */
  datatype Answer<T> = Value(value: T) | Rejection | Drop

  /** One attempt's surroundings: when it looks at the breaker, whether a connect made
      then succeeds, when a failed one is recorded, and what the command meets. */
  datatype Chance<T> = Chance(at: real, connects: bool, until: real, answer: Answer<T>)

  datatype Outcome<T> = Returned(value: T) | CircuitOpen | ConnectFailed | Rejected | Dropped

  datatype Client = Client(connected: bool, breaker: State)

  /** An attempt's end, the client after it, and whether it dialled and called. */
  datatype Once<T> = Once(outcome: Outcome<T>, client: Client, dialled: bool, called: bool)

  function Answered<T>(a: Answer<T>): Outcome<T> {
    match a
    case Value(v) => Returned(v)
    case Rejection => Rejected
    case Drop => Dropped
  }

  /** `_execute_once` over `_connect_guarded`. */
  function Execute<T>(l: Limits, c: Client, chance: Chance<T>): Once<T> {
    if c.connected then Once(Answered(chance.answer), c, false, true)
    else if !Admits(l, c.breaker, chance.at) then Once(CircuitOpen, c, false, false)
    else
      var trial := Apply(l, c.breaker, Before(chance.at));
      if chance.connects then
        Once(Answered(chance.answer), Client(true, Apply(l, trial, Succeeded)), true, true)
      else Once(ConnectFailed, Client(false, Apply(l, trial, Failed(chance.until))), true, false)
  }

  predicate Transient<T>(o: Outcome<T>) {
    o.ConnectFailed? || o.Dropped?
  }

  const DELAYS := [0.5, 1.0]

  /** `_read_retry_delay`. */
  function Delay(attempt: nat): real {
    if attempt < |DELAYS| then DELAYS[attempt] else DELAYS[|DELAYS| - 1]
  }

  // ---- The read ----

  datatype Read<T> = Read(outcome: Outcome<T>, client: Client, dials: nat, calls: nat, sleeps: seq<real>)

  function One(b: bool): nat {
    if b then 1 else 0
  }

  /** The read from its k-th attempt on. */
  function ReadFrom<T>(l: Limits, c: Client, retries: nat, k: nat, chances: nat -> Chance<T>): Read<T>
    requires k <= retries
    decreases retries - k
  {
    var o := Execute(l, c, chances(k));
    if !Transient(o.outcome) || k == retries then Read(o.outcome, o.client, One(o.dialled), One(o.called), [])
    else
      var rest := ReadFrom(l, o.client, retries, k + 1, chances);
      rest.(dials := One(o.dialled) + rest.dials, calls := One(o.called) + rest.calls,
            sleeps := [Delay(k)] + rest.sleeps)
  }

  /** `MikrotikClient`, as far as reads need it. */
  class MikrotikClient {
    const breaker: CircuitBreaker
    var connected: bool

    constructor (breaker: CircuitBreaker)
      ensures this.breaker == breaker && !connected
    {
      this.breaker, connected := breaker, false;
    }

    function View(): Client
      reads this, breaker
    {
      Client(connected, breaker.View())
    }

    method ExecuteOnce<T>(chance: Chance<T>) returns (o: Outcome<T>, dialled: bool, called: bool)
      modifies this`connected, breaker
      ensures Once(o, View(), dialled, called) == Execute(breaker.limits, old(View()), chance)
    {
      dialled := false;
      if !connected {
        var wait := breaker.BeforeConnect(chance.at);
        if wait.Some? {
          return CircuitOpen, false, false;
        }
        dialled := true;
        if !chance.connects {
          breaker.RecordFailure(chance.until);
          return ConnectFailed, true, false;
        }
        connected := true;
        breaker.RecordSuccess();
      }
      o, called := Answered(chance.answer), true;
    }

    method RunRead<T>(retries: nat, chances: nat -> Chance<T>)
      returns (outcome: Outcome<T>, dials: nat, calls: nat, sleeps: seq<real>)
      modifies this`connected, breaker
      ensures Read(outcome, View(), dials, calls, sleeps) ==
              ReadFrom(breaker.limits, old(View()), retries, 0, chances)
    {
      dials, calls, sleeps := 0, 0, [];
      var attempt := 0;
      while true
        invariant 0 <= attempt <= retries
        invariant var rest := ReadFrom(breaker.limits, View(), retries, attempt, chances);
                  ReadFrom(breaker.limits, old(View()), retries, 0, chances) ==
                  Read(rest.outcome, rest.client, dials + rest.dials, calls + rest.calls, sleeps + rest.sleeps)
        decreases retries - attempt
      {
        hide Execute, Transient, Delay;
        ghost var rest := ReadFrom(breaker.limits, View(), retries, attempt, chances);
        var o, dialled, called := ExecuteOnce(chances(attempt));
        dials, calls := dials + One(dialled), calls + One(called);
        if !Transient(o) || attempt >= retries {
          assert sleeps + [] == sleeps;
          outcome := o;
          return;
        }
        Associate(sleeps, [Delay(attempt)], ReadFrom(breaker.limits, View(), retries, attempt + 1, chances).sleeps);
        sleeps := sleeps + [Delay(attempt)];
        attempt := attempt + 1;
      }
    }
  }

  // ---- What a read amounts to ----

  /** The client before the k-th attempt, had every earlier one been made. */
  function Prior<T>(l: Limits, c: Client, chances: nat -> Chance<T>, k: nat): Client {
    if k == 0 then c else Execute(l, Prior(l, c, chances, k - 1), chances(k - 1)).client
  }

  function Nth<T>(l: Limits, c: Client, chances: nat -> Chance<T>, k: nat): Once<T> {
    Execute(l, Prior(l, c, chances, k), chances(k))
  }

  /** The read ends at its k-th attempt. */
  ghost predicate EndsAt<T>(l: Limits, c: Client, retries: nat, chances: nat -> Chance<T>, k: nat) {
    && k <= retries
    && (forall i: nat :: i < k ==> Transient(Nth(l, c, chances, i).outcome))
    && (k < retries ==> !Transient(Nth(l, c, chances, k).outcome))
  }

  lemma {:induction false} ReadFromStops<T>(l: Limits, c: Client, retries: nat, chances: nat -> Chance<T>,
                                           j: nat, k: nat)
    requires EndsAt(l, c, retries, chances, k) && j <= k
    ensures var r := ReadFrom(l, Prior(l, c, chances, j), retries, j, chances);
            && r.outcome == Nth(l, c, chances, k).outcome && r.client == Nth(l, c, chances, k).client
            && r.sleeps == seq(k - j, i requires 0 <= i => Delay(j + i))
            && r.calls <= k - j + 1 && r.dials <= k - j + 1
    decreases k - j
  {
    hide Execute, Delay, Transient;
    if j < k {
      assert Transient(Nth(l, c, chances, j).outcome);
      ReadFromStops(l, c, retries, chances, j + 1, k);
      assert [Delay(j)] + seq(k - j - 1, i requires 0 <= i => Delay(j + 1 + i)) ==
             seq(k - j, i requires 0 <= i => Delay(j + i));
    }
  }

  lemma {:induction false} SomeEnd<T>(l: Limits, c: Client, retries: nat, chances: nat -> Chance<T>, j: nat)
    returns (k: nat)
    requires j <= retries
    requires forall i: nat :: i < j ==> Transient(Nth(l, c, chances, i).outcome)
    ensures EndsAt(l, c, retries, chances, k)
    decreases retries - j
  {
    hide Nth, Transient;
    if j == retries || !Transient(Nth(l, c, chances, j).outcome) {
      k := j;
    } else {
      k := SomeEnd(l, c, retries, chances, j + 1);
    }
  }

  /** A read makes attempts up to the first that is not a transient failure, at most
      retries + 1 of them; it returns that attempt's outcome, so the first success, a
      rejected command and an open circuit all end it; it sleeps between attempts only. */
  lemma ReadStopsAtFirst<T>(l: Limits, c: Client, retries: nat, chances: nat -> Chance<T>)
    ensures var r := ReadFrom(l, c, retries, 0, chances);
            && r.calls <= retries + 1 && r.dials <= retries + 1
            && (forall i :: 0 <= i < |r.sleeps| ==> r.sleeps[i] == if i == 0 then 0.5 else 1.0)
            && exists k: nat ::
                 && EndsAt(l, c, retries, chances, k)
                 && r.outcome == Nth(l, c, chances, k).outcome && r.client == Nth(l, c, chances, k).client
                 && r.sleeps == seq(k, i requires 0 <= i => Delay(i))
                 && r.calls <= k + 1 && r.dials <= k + 1
  {
    var k := SomeEnd(l, c, retries, chances, 0);
    ReadFromStops(l, c, retries, chances, 0, k);
    hide Nth, ReadFrom;
    assert seq(k, i requires 0 <= i => Delay(0 + i)) == seq(k, i requires 0 <= i => Delay(i));
  }

  // ---- Connect attempts ----

  /** Each attempt looks at the breaker less than a cooldown after the last failed
      connect was recorded. */
  ghost predicate ShortGaps<T>(l: Limits, chances: nat -> Chance<T>) {
    forall k: nat :: chances(k + 1).at - chances(k).until < l.cooldown
  }

  function Least(a: nat, b: nat): nat {
    if a < b then a else b
  }

  /** The connects a read can still make. */
  function DialBound(l: Limits, c: Client, at: real, left: nat): nat {
    if c.connected || !Admits(l, c.breaker, at) then 0
    else if c.breaker.openedAt.Some? then 1
    else Least(left, Allowance(l, c.breaker))
  }

  /** With gaps shorter than the cooldown, a read dials at most min(retries + 1,
      threshold - failures) times from a closed circuit, once from an expired one and
      never during the cooldown; and exactly so often when no connect succeeds. */
  lemma {:induction false} DialsBounded<T>(l: Limits, c: Client, retries: nat, k: nat, chances: nat -> Chance<T>)
    requires ValidLimits(l) && ShortGaps(l, chances) && k <= retries && Reachable(l, c.breaker)
    ensures ReadFrom(l, c, retries, k, chances).dials <= DialBound(l, c, chances(k).at, retries - k + 1)
    ensures (forall i: nat :: !chances(i).connects) ==>
              ReadFrom(l, c, retries, k, chances).dials == DialBound(l, c, chances(k).at, retries - k + 1)
    decreases retries - k
  {
    var o := Execute(l, c, chances(k));
    if Transient(o.outcome) && k < retries {
      DialsBounded(l, o.client, retries, k + 1, chances);
      assert chances(k + 1).at - chances(k).until < l.cooldown;
    }
  }

  lemma {:induction false} ConnectedNeverDials<T>(l: Limits, c: Client, retries: nat, k: nat, chances: nat -> Chance<T>)
    requires c.connected && k <= retries
    ensures ReadFrom(l, c, retries, k, chances).dials == 0
    ensures ReadFrom(l, c, retries, k, chances).client == c
    decreases retries - k
  {
    if k < retries {
      ConnectedNeverDials(l, c, retries, k + 1, chances);
    }
  }
}
