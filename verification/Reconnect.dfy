/** Reconnection: the backoff policy and the engine loop that it drives. */
module Reconnect {
  import opened Basics
  import opened Words
  import opened Decimal

  const INT32_MIN: int := -0x8000_0000
  const INT64_MIN: int := -0x8000_0000_0000_0000

  datatype Config = Config(maxAttempts: Int32, initialDelay: Int32, maxDelay: Int32)

  /** Configurations without negative delays, the only ones the engine builds. */
  predicate Sound(c: Config)
  {
    0 <= c.initialDelay && 0 <= c.maxDelay
  }

  /** The initial delay doubled n times. */
  function Backoff(c: Config, n: nat): int
  {
    c.initialDelay * Pow2(n)
  }

  /** Conversion of a 64-bit number to 32 bits. */
  function ToInt32(x: int): (r: Int32)
    ensures (r - x) % 0x1_0000_0000 == 0
  {
    (x + 0x8000_0000) % 0x1_0000_0000 - 0x8000_0000
  }

  /** The delay with the attempt counter at n: the first two attempts both wait the initial delay.  A delay at
      or above the cap is never doubled; a negative one is doubled every time and may lose its high bits. */
  function Delay(c: Config, n: nat): Int32
  {
    if n == 0 then c.initialDelay
    else if c.initialDelay >= c.maxDelay then c.maxDelay
    else ToInt32(Min(Backoff(c, n - 1), c.maxDelay))
  }

  /** With the counter at n, the doubling stays within 64 bits. */
  predicate Doublable(c: Config, n: nat)
  {
    n == 0 || c.initialDelay >= c.maxDelay || Backoff(c, n - 1) >= INT64_MIN
  }

  /** Without negative delays nothing overflows and nothing is lost, whatever the counter. */
  lemma SoundDelay(c: Config, n: nat)
    requires Sound(c)
    ensures Doublable(c, n) && 0 <= Delay(c, n)
    ensures Delay(c, n) == if n == 0 then c.initialDelay else Min(Backoff(c, n - 1), c.maxDelay)
  {
    if n > 0 { BackoffMonotone(c, 0, n - 1); }
    assert Backoff(c, 0) == c.initialDelay;
  }

  /** The documented delay before attempt n, counting from 1. */
  function DocumentedDelay(c: Config, n: nat): int
    requires n >= 1
  {
    Min(Backoff(c, n - 1), c.maxDelay)
  }

  lemma BackoffStarts(c: Config)
    ensures Backoff(c, 0) == c.initialDelay
  {}

  lemma BackoffDoubles(c: Config, n: nat)
    ensures Backoff(c, n + 1) == 2 * Backoff(c, n)
    ensures c.initialDelay > 0 ==> Backoff(c, n) > 0
    ensures c.initialDelay == 0 ==> Backoff(c, n) == 0
    ensures c.initialDelay < 0 ==> Backoff(c, n) < 0
  {
    var x: int, p := c.initialDelay, Pow2(n);
    assert x * (2 * p) == 2 * (x * p);
    if x > 0 { AtLeastOnce(x, p); }
    if x < 0 {
      AtLeastOnce(-x, p);
      assert -x * p == -(x * p);
    }
  }

  lemma {:induction false} BackoffMonotone(c: Config, m: nat, n: nat)
    requires m <= n
    ensures c.initialDelay >= 0 ==> 0 <= Backoff(c, m) <= Backoff(c, n)
    ensures c.initialDelay <= 0 ==> 0 >= Backoff(c, m) >= Backoff(c, n)
    decreases n
  {
    BackoffDoubles(c, m);
    if m < n {
      BackoffMonotone(c, m, n - 1);
      BackoffDoubles(c, n - 1);
    }
  }

  /** The first attempt is as documented unless the initial delay exceeds the cap.  A later one is as documented,
      from an initial delay below the cap, only once the backoff of the attempt before it has reached the cap (or
      there is no backoff at all); from one at or above the cap, unless doubling a negative delay took it below. */
  lemma DelayAsDocumented(c: Config, n: nat)
    requires n >= 1
    ensures Delay(c, n - 1) == DocumentedDelay(c, n) <==>
            if n == 1 then c.initialDelay <= c.maxDelay
            else if c.initialDelay >= c.maxDelay then Backoff(c, n - 1) >= c.maxDelay
            else c.initialDelay == 0 || (c.initialDelay > 0 && Backoff(c, n - 2) >= c.maxDelay)
  {
    BackoffStarts(c);
    if n >= 2 {
      hide Backoff;
      BackoffMonotone(c, 0, n - 2);
      BackoffDoubles(c, n - 2);
      BackoffDoubles(c, n - 1);
    }
  }

  /** The shipped configuration waits 1 second, not the documented 2, before the second attempt. */
  lemma SecondAttemptIsEarly()
    ensures Delay(Config(10, 1000, 60000), 1) == 1000 && DocumentedDelay(Config(10, 1000, 60000), 2) == 2000
  {}

  // ----- The loop -----

  datatype ConnState = Disconnected | Connecting | Connected | Reconnecting

  datatype Event =
    | Sleep(ms: int)
    | ResetParser
    | Connect
    | Report(state: ConnState, attempt: int)
    | Error(attempts: int)

  /** What one round meets after its sleep. */
  datatype Round = Shutdown | Refused | Accepted

  /** The events of a failed round with the counter at n. */
  function FailedRound(c: Config, n: nat): seq<Event>
  {
    [Sleep(Delay(c, n)), ResetParser, Connect, Report(Reconnecting, n + 1)]
  }

  function FailedRounds(c: Config, from: nat, end: nat): seq<Event>
    requires from <= end
  {
    if from == end then [] else FailedRounds(c, from, end - 1) + FailedRound(c, end - 1)
  }

  /** The counter at which the loop stops trying: the first round that is not refused, or the limit. */
  function Stop(c: Config, world: nat -> Round, n: nat): (k: nat)
    ensures k >= n && (n <= c.maxAttempts ==> k <= c.maxAttempts)
    ensures forall i :: n <= i < k ==> world(i) == Refused
    ensures k < c.maxAttempts ==> world(k) != Refused
    decreases c.maxAttempts - n
  {
    if n >= c.maxAttempts || world(n) != Refused then n else Stop(c, world, n + 1)
  }

  function Ending(c: Config, world: nat -> Round, k: nat): seq<Event>
  {
    if k >= c.maxAttempts then [Report(Disconnected, 0), Error(c.maxAttempts)]
    else if world(k) == Accepted then [Sleep(Delay(c, k)), ResetParser, Connect, Report(Connected, 0)]
    else [Sleep(Delay(c, k))]
  }

  datatype Result = Result(state: ConnState, attempt: nat, reconnecting: bool, events: seq<Event>)

  /** How a lost connection ends, when the counter starts at `first`: with nothing tried and no verdict if the
      attempts were already used up; otherwise refused to the limit, connected, or shut down. */
  function Expected(c: Config, world: nat -> Round, first: nat): Result
  {
    var k := Stop(c, world, first);
    if first >= c.maxAttempts then Result(Reconnecting, first, true, [Report(Reconnecting, 0)])
    else
      var events := [Report(Reconnecting, 0)] + FailedRounds(c, first, k) + Ending(c, world, k);
      if k >= c.maxAttempts then Result(Disconnected, k, true, events)
      else if world(k) == Accepted then Result(Connected, 0, false, events)
      else Result(Reconnecting, k, true, events)
  }

  /** Unless it is shut down, the loop reaches a verdict exactly when attempts were left to begin with. */
  lemma VerdictReached(c: Config, world: nat -> Round, first: nat)
    requires forall n: nat :: world(n) != Shutdown
    ensures Expected(c, world, first).state != Reconnecting <==> first < c.maxAttempts
  {
    var k := Stop(c, world, first);
    assert k < c.maxAttempts ==> world(k) == Accepted;
  }

  class ReconnectPolicy {
    const config: Config
    var attempt: nat
    var reconnecting: bool

    constructor (config: Config)
      ensures this.config == config && attempt == 0 && !reconnecting
    {
      this.config := config;
      attempt, reconnecting := 0, false;
    }

    method OnDisconnected()
      modifies this
      ensures reconnecting && attempt == if old(reconnecting) then old(attempt) else 0
    {
      if !reconnecting {
        reconnecting := true;
        attempt := 0;
      }
    }

    predicate IsExhausted()
      reads this
    {
      attempt >= config.maxAttempts
    }

    method OnAttemptFailed() returns (more: bool)
      modifies this`attempt
      ensures attempt == old(attempt) + 1 && more == !IsExhausted()
    {
      attempt := attempt + 1;
      more := !IsExhausted();
    }

    method Reset()
      modifies this
      ensures attempt == 0 && !reconnecting
    {
      attempt, reconnecting := 0, false;
    }

    /** Doubling stops at the cap; only a negative delay doubled too often could leave 64 bits. */
    method GetNextDelayMs() returns (ms: int)
      requires Doublable(config, attempt)
      ensures ms == Delay(config, attempt)
    {
      if attempt <= 0 { return config.initialDelay; }
      var delay: int := config.initialDelay;
      var i := 1;
      while i < attempt && delay < config.maxDelay
        invariant 1 <= i <= attempt
        invariant delay == Backoff(config, i - 1)
        invariant i == 1 || config.initialDelay < config.maxDelay
      {
        BackoffDoubles(config, i - 1);
        BackoffMonotone(config, i, attempt - 1);
        BackoffMonotone(config, 0, i);
        assert INT64_MIN <= delay * 2 <= -(INT64_MIN + 1);
        delay := delay * 2;
        i := i + 1;
      }
      BackoffMonotone(config, 0, i - 1);
      BackoffMonotone(config, i - 1, attempt - 1);
      ms := ToInt32(Min(delay, config.maxDelay));
    }
  }

  /** The engine's handler of a lost connection, with its reconnect thread run to its end.
      `world(n)` says what the round with the counter at n meets. */
  method OnDisconnected(policy: ReconnectPolicy, world: nat -> Round) returns (state: ConnState, events: seq<Event>)
    requires forall n: nat :: n < policy.config.maxAttempts ==> Doublable(policy.config, n)
    modifies policy
    ensures Result(state, policy.attempt, policy.reconnecting, events)
         == Expected(policy.config, world, if old(policy.reconnecting) then old(policy.attempt) else 0)
  {
    hide Delay, Ending, FailedRound, Stop;
    state := Reconnecting;
    events := [Report(Reconnecting, 0)];
    policy.OnDisconnected();
    ghost var first, c := policy.attempt, policy.config;
    while policy.reconnecting && !policy.IsExhausted()
      invariant policy.reconnecting && state == Reconnecting && first <= policy.attempt
      invariant first < policy.attempt ==> policy.attempt < c.maxAttempts
      invariant Stop(c, world, first) == Stop(c, world, policy.attempt)
      invariant events == [Report(Reconnecting, 0)] + FailedRounds(c, first, policy.attempt)
      decreases c.maxAttempts - policy.attempt
    {
      ghost var n, before := policy.attempt, events;
      var done, round;
      done, state, round := Try(policy, world(policy.attempt));
      events := events + round;
      if done {
        Ends(c, world, first, n, before);
        return;
      }
      assert before + round == [Report(Reconnecting, 0)] + FailedRounds(c, first, n + 1);
    }
  }

  /** What the round with the counter at n brings. */
  function Tried(c: Config, met: Round, n: nat): (r: Result)
  {
    match met
    case Shutdown => Result(Reconnecting, n, true, [Sleep(Delay(c, n))])
    case Accepted => Result(Connected, 0, false, [Sleep(Delay(c, n)), ResetParser, Connect, Report(Connected, 0)])
    case Refused =>
      if n + 1 >= c.maxAttempts
      then Result(Disconnected, n + 1, true, FailedRound(c, n) + [Report(Disconnected, 0), Error(c.maxAttempts)])
      else Result(Reconnecting, n + 1, true, FailedRound(c, n))
  }

  lemma Ends(c: Config, world: nat -> Round, first: nat, n: nat, before: seq<Event>)
    requires first <= n < c.maxAttempts && Stop(c, world, first) == Stop(c, world, n)
    requires before == [Report(Reconnecting, 0)] + FailedRounds(c, first, n)
    requires world(n) == Refused ==> n + 1 >= c.maxAttempts
    ensures var t := Tried(c, world(n), n);
            Expected(c, world, first) == t.(events := before + t.events)
  {
    if world(n) == Refused {
      assert Stop(c, world, n) == n + 1;
      assert before + FailedRound(c, n) == [Report(Reconnecting, 0)] + FailedRounds(c, first, n + 1);
    }
  }

  /** One pass of the reconnect loop. */
  method Try(policy: ReconnectPolicy, met: Round) returns (done: bool, state: ConnState, events: seq<Event>)
    requires Doublable(policy.config, policy.attempt) && policy.reconnecting && !policy.IsExhausted()
    modifies policy
    ensures Result(state, policy.attempt, policy.reconnecting, events) == Tried(policy.config, met, old(policy.attempt))
    ensures done <==> met != Refused || state == Disconnected
  {
    var delay := policy.GetNextDelayMs();
    events := [Sleep(delay)];
    if met == Shutdown { return true, Reconnecting, events; }
    events := events + [ResetParser, Connect];
    if met == Accepted {
      policy.Reset();
      events := events + [Report(Connected, 0)];
      return true, Connected, events;
    }
    var more := policy.OnAttemptFailed();
    events := events + [Report(Reconnecting, policy.attempt)];
    if !more {
      events := events + [Report(Disconnected, 0)];
      events := events + [Error(policy.config.maxAttempts)];
      return true, Disconnected, events;
    }
    return false, Reconnecting, events;
  }

  // ----- What a run amounts to -----

  function Slept(events: seq<Event>): int
  {
    if events == [] then 0
    else
      var e := events[|events| - 1];
      Slept(events[..|events| - 1]) + if e.Sleep? then e.ms else 0
  }

  function Count(events: seq<Event>, e: Event): nat
  {
    if events == [] then 0
    else Count(events[..|events| - 1], e) + if events[|events| - 1] == e then 1 else 0
  }

  lemma {:induction false} CountAppend(a: seq<Event>, b: seq<Event>, e: Event)
    ensures Count(a + b, e) == Count(a, e) + Count(b, e)
    decreases |b|
  {
    if b == [] {
      assert a + b == a;
    } else {
      assert (a + b)[..|a + b| - 1] == a + b[..|b| - 1];
      CountAppend(a, b[..|b| - 1], e);
    }
  }

  lemma {:induction false} SleptAppend(a: seq<Event>, b: seq<Event>)
    ensures Slept(a + b) == Slept(a) + Slept(b)
    decreases |b|
  {
    if b == [] {
      assert a + b == a;
    } else {
      assert (a + b)[..|a + b| - 1] == a + b[..|b| - 1];
      SleptAppend(a, b[..|b| - 1]);
    }
  }

  lemma FailedRoundTally(c: Config, n: nat, e: Event)
    ensures Count(FailedRound(c, n), e)
         == Once(Sleep(Delay(c, n)), e) + Once(ResetParser, e) + Once(Connect, e) + Once(Report(Reconnecting, n + 1), e)
    ensures Slept(FailedRound(c, n)) == Delay(c, n)
  {
    var s := FailedRound(c, n);
    assert s[..3][..2] == s[..2] && s[..2][..1] == s[..1] && s[..1][..0] == [];
    assert Count(s[..1], e) == Once(s[0], e) && Slept(s[..1]) == Delay(c, n);
    assert Count(s[..2], e) == Count(s[..1], e) + Once(s[1], e) && Slept(s[..2]) == Delay(c, n);
    assert Count(s[..3], e) == Count(s[..2], e) + Once(s[2], e) && Slept(s[..3]) == Delay(c, n);
  }

  function Once(a: Event, e: Event): nat
  {
    if a == e then 1 else 0
  }

  lemma {:induction false} FailedRoundsTally(c: Config, end: nat, e: Event)
    requires !e.Sleep? && !e.ResetParser? && !(e.Report? && e.state == Reconnecting)
    ensures Count(FailedRounds(c, 0, end), e) == if e == Connect then end else 0
    ensures Slept(FailedRounds(c, 0, end)) == TotalDelay(c, end)
  {
    if end > 0 {
      FailedRoundsTally(c, end - 1, e);
      FailedRoundTally(c, end - 1, e);
      CountAppend(FailedRounds(c, 0, end - 1), FailedRound(c, end - 1), e);
      SleptAppend(FailedRounds(c, 0, end - 1), FailedRound(c, end - 1));
    }
  }

  /** Total time slept in the rounds from counter 0 to n. */
  function TotalDelay(c: Config, n: nat): int
  {
    if n == 0 then 0 else TotalDelay(c, n - 1) + Delay(c, n - 1)
  }

  /** With the counter at n, no delay so far has lost bits by the conversion to 32 bits. */
  predicate Representable(c: Config, n: nat)
  {
    n == 0 || c.initialDelay >= c.maxDelay || Backoff(c, n - 1) >= INT32_MIN
  }

  lemma RepresentableDelay(c: Config, n: nat)
    requires Representable(c, n)
    ensures Delay(c, n) == if n == 0 then c.initialDelay
                           else if c.initialDelay >= c.maxDelay then c.maxDelay
                           else Min(Backoff(c, n - 1), c.maxDelay)
    ensures n > 0 ==> Representable(c, n - 1)
  {
    hide Backoff;
    BackoffStarts(c);
    if n > 0 { BackoffMonotone(c, 0, n - 1); }
    if n > 1 { BackoffMonotone(c, n - 2, n - 1); }
  }

  lemma DelayBelowCap(c: Config, n: nat)
    requires n >= 1 && Representable(c, n) && Backoff(c, n - 1) <= c.maxDelay
    requires 0 <= c.initialDelay || c.initialDelay < c.maxDelay
    ensures Delay(c, n) == Backoff(c, n - 1)
  {
    hide Backoff, Delay;
    RepresentableDelay(c, n);
    BackoffStarts(c);
    BackoffMonotone(c, 0, n - 1);
  }

  lemma DelayAtCap(c: Config, n: nat, m: nat)
    requires 1 <= m <= n && Representable(c, n) && Backoff(c, m - 1) >= c.maxDelay
    ensures Delay(c, n) == c.maxDelay
  {
    hide Backoff, Delay;
    RepresentableDelay(c, n);
    BackoffStarts(c);
    BackoffMonotone(c, 0, m - 1);
    BackoffMonotone(c, m - 1, n - 1);
  }

  /** While the backoff is below the cap, n refused rounds take as long as the last backoff doubled;
      from then on each round adds the cap. */
  lemma {:induction false} TotalDelayClosed(c: Config, n: nat, m: nat)
    requires 1 <= m <= n && Representable(c, n - 1)
    requires m == 1 || (Backoff(c, m - 2) <= c.maxDelay && (0 <= c.initialDelay || c.initialDelay < c.maxDelay))
    requires Backoff(c, m - 1) >= c.maxDelay || m == n
    ensures TotalDelay(c, n) == Backoff(c, m - 1) + (n - m) * c.maxDelay
    decreases n
  {
    hide Delay, Backoff, Representable;
    RepresentableDelay(c, n - 1);
    if n == 1 {
      BackoffStarts(c);
      assert TotalDelay(c, 1) == TotalDelay(c, 0) + Delay(c, 0);
    } else if n == m {
      DelayBelowCap(c, n - 1);
      BackoffDoubles(c, n - 2);
      if n > 2 { HalfBelowCap(c, n - 2); }
      TotalDelayClosed(c, n - 1, n - 1);
    } else {
      DelayAtCap(c, n - 1, m);
      TotalDelayClosed(c, n - 1, m);
      Distribute(n - m, 1, c.maxDelay);
    }
  }

  lemma HalfBelowCap(c: Config, k: nat)
    requires k >= 1 && Backoff(c, k) <= c.maxDelay && (0 <= c.initialDelay || c.initialDelay < c.maxDelay)
    ensures Backoff(c, k - 1) <= c.maxDelay
  {
    hide Backoff;
    BackoffStarts(c);
    BackoffMonotone(c, 0, k - 1);
    BackoffMonotone(c, k - 1, k);
  }

  /** Exhaustion, as documented: when every connect is refused there are exactly `maxAttempts` connects, then
      one transition to DISCONNECTED with one error, after the total delay. */
  lemma Exhaustion(c: Config, world: nat -> Round)
    requires c.maxAttempts >= 1
    requires forall i: nat :: i < c.maxAttempts ==> world(i) == Refused
    ensures var r := Expected(c, world, 0);
            && r.state == Disconnected && r.attempt == c.maxAttempts
            && Count(r.events, Connect) == c.maxAttempts
            && Count(r.events, Report(Disconnected, 0)) == 1 && Count(r.events, Error(c.maxAttempts)) == 1
            && Slept(r.events) == TotalDelay(c, c.maxAttempts)
            && |r.events| >= 2 && r.events[|r.events| - 2..] == [Report(Disconnected, 0), Error(c.maxAttempts)]
  {
    var k := Stop(c, world, 0);
    ExhaustionTally(c, k, Connect);
    ExhaustionTally(c, k, Report(Disconnected, 0));
    ExhaustionTally(c, k, Error(c.maxAttempts));
    assert Expected(c, world, 0).events
        == [Report(Reconnecting, 0)] + FailedRounds(c, 0, k) + [Report(Disconnected, 0), Error(c.maxAttempts)];
  }

  /** A connect that succeeds after k refusals: k + 1 connects, one CONNECTED, no error and no DISCONNECTED, the
      policy reset, and the total wait of k + 1 rounds. */
  lemma Success(c: Config, world: nat -> Round)
    requires Stop(c, world, 0) < c.maxAttempts && world(Stop(c, world, 0)) == Accepted
    ensures var r, k := Expected(c, world, 0), Stop(c, world, 0);
            && r.state == Connected && r.attempt == 0 && !r.reconnecting
            && Count(r.events, Connect) == k + 1 && Count(r.events, Report(Connected, 0)) == 1
            && Count(r.events, Report(Disconnected, 0)) == 0 && Count(r.events, Error(c.maxAttempts)) == 0
            && Slept(r.events) == TotalDelay(c, k + 1)
            && |r.events| >= 2 && r.events[|r.events| - 2..] == [Connect, Report(Connected, 0)]
  {
    var k := Stop(c, world, 0);
    SuccessTally(c, k, Connect);
    SuccessTally(c, k, Report(Connected, 0));
    SuccessTally(c, k, Report(Disconnected, 0));
    SuccessTally(c, k, Error(c.maxAttempts));
  }

  /** A shutdown that is noticed after k refusals: the loop ends after the wait, with the k connects made so far and
      nothing reported, connected or given up since. */
  lemma AfterShutdown(c: Config, world: nat -> Round)
    requires Stop(c, world, 0) < c.maxAttempts && world(Stop(c, world, 0)) == Shutdown
    ensures var r, k := Expected(c, world, 0), Stop(c, world, 0);
            && r.state == Reconnecting && r.attempt == k
            && Count(r.events, Connect) == k && Count(r.events, Report(Connected, 0)) == 0
            && Count(r.events, Report(Disconnected, 0)) == 0 && Count(r.events, Error(c.maxAttempts)) == 0
            && Slept(r.events) == TotalDelay(c, k + 1)
            && r.events[|r.events| - 1] == Sleep(Delay(c, k))
  {
    var k := Stop(c, world, 0);
    ShutdownTally(c, k, Connect);
    ShutdownTally(c, k, Report(Connected, 0));
    ShutdownTally(c, k, Report(Disconnected, 0));
    ShutdownTally(c, k, Error(c.maxAttempts));
  }

  lemma ShutdownTally(c: Config, k: nat, e: Event)
    requires !e.Sleep? && !e.ResetParser? && !(e.Report? && e.state == Reconnecting)
    ensures var events := [Report(Reconnecting, 0)] + FailedRounds(c, 0, k) + [Sleep(Delay(c, k))];
            Count(events, e) == (if e == Connect then k else 0) && Slept(events) == TotalDelay(c, k + 1)
  {
    var last := [Sleep(Delay(c, k))];
    assert Count(last, e) == 0 && Slept(last) == Delay(c, k) by { assert last[..0] == []; }
    hide Count, Slept, FailedRounds, Delay;
    StartTally(e);
    FailedRoundsTally(c, k, e);
    ThreeParts([Report(Reconnecting, 0)], FailedRounds(c, 0, k), last, e);
    assert TotalDelay(c, k + 1) == TotalDelay(c, k) + Delay(c, k);
  }

  lemma SuccessTally(c: Config, k: nat, e: Event)
    requires !e.Sleep? && !e.ResetParser? && !(e.Report? && e.state == Reconnecting)
    ensures var last := [Sleep(Delay(c, k)), ResetParser, Connect, Report(Connected, 0)];
            var events := [Report(Reconnecting, 0)] + FailedRounds(c, 0, k) + last;
            && Count(events, e) == (if e == Connect then k + 1 else 0) + Once(Report(Connected, 0), e)
            && Slept(events) == TotalDelay(c, k + 1)
  {
    var start: seq<Event> := [Report(Reconnecting, 0)];
    var last := [Sleep(Delay(c, k)), ResetParser, Connect, Report(Connected, 0)];
    hide Count, Slept, FailedRounds, Delay;
    StartTally(e);
    LastRoundTally(c, k, e);
    FailedRoundsTally(c, k, e);
    ThreeParts(start, FailedRounds(c, 0, k), last, e);
    assert TotalDelay(c, k + 1) == TotalDelay(c, k) + Delay(c, k);
  }

  lemma StartTally(e: Event)
    requires !(e.Report? && e.state == Reconnecting)
    ensures Count([Report(Reconnecting, 0)], e) == 0 && Slept([Report(Reconnecting, 0)]) == 0
  {
    assert [Report(Reconnecting, 0)][..0] == [];
  }

  lemma ThreeParts(a: seq<Event>, b: seq<Event>, c: seq<Event>, e: Event)
    ensures Count(a + b + c, e) == Count(a, e) + Count(b, e) + Count(c, e)
    ensures Slept(a + b + c) == Slept(a) + Slept(b) + Slept(c)
  {
    CountAppend(a + b, c, e);
    CountAppend(a, b, e);
    SleptAppend(a + b, c);
    SleptAppend(a, b);
  }

  lemma LastRoundTally(c: Config, k: nat, e: Event)
    requires !e.Sleep? && !e.ResetParser?
    ensures var last := [Sleep(Delay(c, k)), ResetParser, Connect, Report(Connected, 0)];
            Count(last, e) == Once(Connect, e) + Once(Report(Connected, 0), e) && Slept(last) == Delay(c, k)
  {
    var last := [Sleep(Delay(c, k)), ResetParser, Connect, Report(Connected, 0)];
    assert last[..3][..2] == last[..2] && last[..2][..1] == last[..1] && last[..1][..0] == [];
    assert Count(last[..1], e) == 0 && Slept(last[..1]) == Delay(c, k);
    assert Count(last[..2], e) == 0 && Slept(last[..2]) == Delay(c, k);
    assert Count(last[..3], e) == Once(Connect, e) && Slept(last[..3]) == Delay(c, k);
  }

  /** Every connect directly follows a wait and a reset of the frame parser. */
  ghost predicate Prepared(events: seq<Event>)
  {
    forall i :: 0 <= i < |events| && events[i] == Connect ==> i >= 2 && events[i - 1] == ResetParser && events[i - 2].Sleep?
  }

  lemma PreparedAppend(a: seq<Event>, b: seq<Event>)
    requires Prepared(a) && Prepared(b)
    ensures Prepared(a + b)
  {
    forall i | 0 <= i < |a + b| && (a + b)[i] == Connect
      ensures i >= 2 && (a + b)[i - 1] == ResetParser && (a + b)[i - 2].Sleep?
    {
      assert i >= |a| ==> b[i - |a|] == Connect;
    }
  }

  lemma RoundPrepared(c: Config, n: nat)
    ensures Prepared(FailedRound(c, n))
  {
    hide Delay;
  }

  lemma {:induction false} FailedRoundsPrepared(c: Config, from: nat, end: nat)
    requires from <= end
    ensures Prepared(FailedRounds(c, from, end))
    decreases end
  {
    if from < end {
      RoundPrepared(c, end - 1);
      hide Prepared, FailedRound;
      FailedRoundsPrepared(c, from, end - 1);
      PreparedAppend(FailedRounds(c, from, end - 1), FailedRound(c, end - 1));
    }
  }

  /** In every run, the frame parser is reset after each wait and before each connect. */
  lemma ConnectsArePrepared(c: Config, world: nat -> Round, first: nat)
    ensures Prepared(Expected(c, world, first).events)
  {
    var k := Stop(c, world, first);
    FailedRoundsPrepared(c, first, k);
    PreparedAppend([Report(Reconnecting, 0)], FailedRounds(c, first, k));
    PreparedAppend([Report(Reconnecting, 0)] + FailedRounds(c, first, k), Ending(c, world, k));
  }

  /** The attempt numbers reported while reconnecting. */
  function Attempts(events: seq<Event>): seq<int>
  {
    if events == [] then []
    else
      var e := events[|events| - 1];
      Attempts(events[..|events| - 1]) + if e.Report? && e.state == Reconnecting then [e.attempt] else []
  }

  lemma {:induction false} AttemptsAppend(a: seq<Event>, b: seq<Event>)
    ensures Attempts(a + b) == Attempts(a) + Attempts(b)
    decreases |b|
  {
    if b == [] {
      assert a + b == a;
    } else {
      assert (a + b)[..|a + b| - 1] == a + b[..|b| - 1];
      AttemptsAppend(a, b[..|b| - 1]);
    }
  }

  lemma {:induction false} FailedRoundsCountUp(c: Config, k: nat)
    ensures Attempts([Report(Reconnecting, 0)] + FailedRounds(c, 0, k)) == seq(k + 1, i => i)
  {
    var start := [Report(Reconnecting, 0)];
    if k == 0 {
      assert start + [] == start && start[..0] == [];
    } else {
      FailedRoundsCountUp(c, k - 1);
      var s := FailedRound(c, k - 1);
      AttemptsAppend(start + FailedRounds(c, 0, k - 1), s);
      assert start + FailedRounds(c, 0, k) == start + FailedRounds(c, 0, k - 1) + s;
      assert Attempts(s[..3]) == [] by { NoAttempts(s[..3]); }
      assert Attempts(s) == [k];
    }
  }

  /** The reported attempt numbers are 0, 1, 2, ... without gaps, up to the refusals met. */
  lemma AttemptsCountUp(c: Config, world: nat -> Round)
    requires c.maxAttempts >= 1
    ensures Attempts(Expected(c, world, 0).events) == seq(Stop(c, world, 0) + 1, i => i)
  {
    var k := Stop(c, world, 0);
    var e := Ending(c, world, k);
    FailedRoundsCountUp(c, k);
    AttemptsAppend([Report(Reconnecting, 0)] + FailedRounds(c, 0, k), e);
    NoAttempts(e);
  }

  lemma {:induction false} NoAttempts(events: seq<Event>)
    requires forall e :: e in events ==> !(e.Report? && e.state == Reconnecting)
    ensures Attempts(events) == []
  {
    if events != [] {
      assert events[|events| - 1] in events;
      NoAttempts(events[..|events| - 1]);
    }
  }

  lemma ExhaustionTally(c: Config, k: nat, e: Event)
    requires !e.Sleep? && !e.ResetParser? && !(e.Report? && e.state == Reconnecting)
    ensures var last := [Report(Disconnected, 0), Error(c.maxAttempts)];
            var events := [Report(Reconnecting, 0)] + FailedRounds(c, 0, k) + last;
            && Count(events, e) == (if e == Connect then k else 0) + Once(last[0], e) + Once(last[1], e)
            && Slept(events) == TotalDelay(c, k)
  {
    var start, mid, last := [Report(Reconnecting, 0)], FailedRounds(c, 0, k), [Report(Disconnected, 0), Error(c.maxAttempts)];
    StartTally(e);
    FailedRoundsTally(c, k, e);
    ThreeParts(start, mid, last, e);
    assert last[..1] == [last[0]] && last[..1][..0] == [];
    assert Count(last[..1], e) == Once(last[0], e) && Slept(last[..1]) == 0;
  }

  // ----- The engine around the loop -----

  /** What the engine configures: the documented delays, and 10 attempts unless a positive number is asked for. */
  function EngineConfig(requestedAttempts: Int32): (c: Config)
    ensures Sound(c) && c.maxAttempts >= 1
  {
    Config(if requestedAttempts > 0 then requestedAttempts else 10, 1000, 60000)
  }

  datatype Call =
    | UserConnect(succeeds: bool)
    | UserDisconnect
    | ConnectionLost(world: nat -> Round)

  /** The policy, whether a read loop runs that can notice a lost connection, and what the TCP client believes:
      that it is connected, and (`flag`) that a read loop runs. */
  datatype Engine = Engine(config: Config, attempt: nat, reconnecting: bool, reading: bool, connected: bool, flag: bool)

  function Idle(c: Config): Engine
  {
    Engine(c, 0, false, false, false, false)
  }

  /** What the handler of a lost connection does in this engine. */
  function Loss(e: Engine, world: nat -> Round): Result
  {
    Expected(e.config, world, if e.reconnecting then e.attempt else 0)
  }

  /** Only a running read loop notices a loss.  A connect while one runs is left out: the client stops that loop,
      whose end starts a reconnect thread beside the new connection (see `CallReady`). */
  predicate Possible(e: Engine, call: Call)
  {
    match call
    case UserConnect(_) => !e.reading
    case UserDisconnect => true
    case ConnectionLost(_) => e.reading
  }

  function PolicyReset(e: Engine): Engine
  {
    e.(attempt := 0, reconnecting := false)
  }

  /** `startReadLoop` does nothing while the flag is set. */
  function ReadLoopStarted(e: Engine): Engine
  {
    if e.flag then e else e.(reading := true, flag := true)
  }

  /** The client's own disconnect.  A read loop that it stops still runs the handler of a lost connection. */
  function ClientDisconnected(e: Engine): Engine
  {
    var stopped :=
      if e.reading then e.(reading := false, reconnecting := true, attempt := if e.reconnecting then e.attempt else 0)
      else e;
    stopped.(connected := false, flag := false)
  }

  /** The client's connect disconnects first when it believes to be connected. */
  function Called(e: Engine, call: Call): Engine
  {
    match call
    case UserConnect(ok) =>
      var reset := PolicyReset(e);
      var free := if reset.connected then ClientDisconnected(reset) else reset;
      if ok then ReadLoopStarted(free.(connected := true)) else free
    case UserDisconnect => ClientDisconnected(PolicyReset(e))
    case ConnectionLost(world) => Lost(e, world)
  }

  /** A read loop that ends by itself leaves its flag set. */
  function Lost(e: Engine, world: nat -> Round): Engine
  {
    var r := Loss(e, world);
    var after := e.(attempt := r.attempt, reconnecting := r.reconnecting, reading := false, connected := false);
    if r.state == Connected then ReadLoopStarted(after.(connected := true)) else after
  }

  ghost predicate Session(start: Engine, calls: seq<Call>, end: Engine)
    decreases |calls|
  {
    if |calls| == 0 then start == end
    else Possible(start, calls[0]) && Session(Called(start, calls[0]), calls[1..], end)
  }

  /** A first connect that succeeds is read; a disconnect ends that and clears what the client believes. */
  lemma FirstConnection(c: Config)
    ensures var e := Called(Idle(c), UserConnect(true));
            && Session(Idle(c), [UserConnect(true)], e) && e.reading && e.connected && e.flag
            && Session(e, [UserDisconnect], Called(e, UserDisconnect))
            && !Called(e, UserDisconnect).reading && !Called(e, UserDisconnect).connected && !Called(e, UserDisconnect).flag
  {
    var e := Called(Idle(c), UserConnect(true));
    assert [UserConnect(true)][1..] == [];
    assert [UserDisconnect][1..] == [];
    assert Session(e, [], e) && Session(Called(e, UserDisconnect), [], Called(e, UserDisconnect));
  }

  /** A read loop only ever runs on a connection and with the policy idle; a connection has its flag set. */
  predicate Ready(e: Engine)
  {
    (e.reading ==> e.connected && e.attempt == 0 && !e.reconnecting) && (e.connected ==> e.flag)
  }

  lemma {:induction false} SessionReady(start: Engine, calls: seq<Call>, end: Engine)
    requires Ready(start) && Session(start, calls, end)
    ensures Ready(end) && end.config == start.config
    decreases |calls|
  {
    if |calls| > 0 {
      CallReady(start, calls[0]);
      hide Called;
      SessionReady(Called(start, calls[0]), calls[1..], end);
    }
  }

  /** The one call that breaks this is a successful connect while a read loop runs: it leaves the policy
      reconnecting under the new read loop. */
  lemma CallReady(e: Engine, call: Call)
    requires Ready(e) && (call.ConnectionLost? ==> e.reading)
    ensures Ready(Called(e, call)) <==> !(e.reading && call == UserConnect(true))
    ensures Called(e, call).config == e.config
  {
    hide Loss;
  }

  /** When nothing is being read, a connect starts a read loop exactly if it succeeds and the client either believes
      to be connected, and so disconnects first, or has its flag clear. */
  lemma ConnectReads(e: Engine, ok: bool)
    requires !e.reading
    ensures Called(e, UserConnect(ok)).reading <==> ok && (e.connected || !e.flag)
  {}

  /** A number of connects in a row that all fail. */
  function Failures(n: nat): seq<Call>
  {
    seq(n, _ => UserConnect(false))
  }

  function CalledAll(e: Engine, calls: seq<Call>): Engine
    decreases |calls|
  {
    if |calls| == 0 then e else CalledAll(Called(e, calls[0]), calls[1..])
  }

  /** A failed connect never makes the client believe more than it did, and never blocks a later one. */
  lemma {:induction false} FailuresKeep(e: Engine, n: nat)
    requires !e.reading
    ensures var f := CalledAll(e, Failures(n));
            !f.reading && (f.connected || !f.flag <==> e.connected || !e.flag)
    decreases n
  {
    if n > 0 {
      assert Failures(n)[1..] == Failures(n - 1);
      FailuresKeep(Called(e, UserConnect(false)), n - 1);
    }
  }

  /** In every session, after a lost connection nothing is read, even when the loss ended with a reported CONNECTED.
      The next successful connect of the user, whatever failed before it, starts a read loop if and only if the loss
      ended connected; if it did not, that connect only reports CONNECTED, and the one after it starts a read loop.
      A disconnect by the user always clears the way. */
  lemma ReadingAfterLoss(c: Config, calls: seq<Call>, e: Engine, world: nat -> Round, n: nat, m: nat)
    requires Session(Idle(c), calls, e) && e.reading
    ensures var lost := Called(e, ConnectionLost(world));
            var first := Called(CalledAll(lost, Failures(n)), UserConnect(true));
            var second := Called(CalledAll(first, Failures(m)), UserConnect(true));
            && !lost.reading && (lost.connected <==> Loss(e, world).state == Connected)
            && (first.reading <==> lost.connected)
            && (!first.reading ==> first.connected && second.reading)
            && Called(Called(lost, UserDisconnect), UserConnect(true)).reading
  {
    SessionReady(Idle(c), calls, e);
    hide Loss, Session, CalledAll, Failures;
    var lost := Called(e, ConnectionLost(world));
    FailuresKeep(lost, n);
    ConnectReads(CalledAll(lost, Failures(n)), true);
    var first := Called(CalledAll(lost, Failures(n)), UserConnect(true));
    if !first.reading {
      FailuresKeep(first, m);
      ConnectReads(CalledAll(first, Failures(m)), true);
    }
  }

  /** What the engine waits in all for n refused connects, in milliseconds: 1000, 2000, 4000, ... 64000, and a
      minute more for each further one.  Its limit is the number asked for, or 10. */
  lemma EngineWait(requestedAttempts: Int32, n: nat)
    ensures EngineConfig(requestedAttempts).maxAttempts == if requestedAttempts > 0 then requestedAttempts else 10
    ensures TotalDelay(EngineConfig(requestedAttempts), n) ==
            if n == 0 then 0 else if n <= 7 then 1000 * Pow2(n - 1) else 64000 + (n - 7) * 60000
  {
    var c := EngineConfig(requestedAttempts);
    if n > 0 {
      SoundDelay(c, n - 1);
      EngineBackoffs(c);
      hide Backoff, TotalDelay;
      if n <= 7 {
        if n >= 2 {
          BackoffMonotone(c, n - 2, 5);
        }
        assert Representable(c, n - 1);
        TotalDelayClosed(c, n, n);
        BackoffIsThousands(c, n - 1);
      } else {
        assert Representable(c, n - 1);
        TotalDelayClosed(c, n, 7);
      }
    }
  }

  lemma BackoffIsThousands(c: Config, n: nat)
    requires c.initialDelay == 1000
    ensures Backoff(c, n) == 1000 * Pow2(n)
  {}

  lemma EngineBackoffs(c: Config)
    requires c.initialDelay == 1000
    ensures Backoff(c, 5) == 32000 && Backoff(c, 6) == 64000
  {
    assert Pow2(3) == 8;
    assert Pow2(5) == 32;
    assert Pow2(6) == 64;
  }

  /** In every session of the engine, whatever number of attempts was asked for, a lost connection that is not shut
      down is either re-established, or given up after exactly the configured number of connects with one
      DISCONNECTED and one error, after the literal total wait. */
  lemma LossIsDecided(requestedAttempts: Int32, calls: seq<Call>, e: Engine, world: nat -> Round)
    requires Session(Idle(EngineConfig(requestedAttempts)), calls, e) && e.reading
    requires forall n: nat :: world(n) != Shutdown
    ensures var r, limit := Loss(e, world), if requestedAttempts > 0 then requestedAttempts else 10;
            || (r.state == Connected && Count(r.events, Report(Connected, 0)) == 1 && Count(r.events, Error(limit)) == 0)
            || (r.state == Disconnected && Count(r.events, Connect) == limit
                && Count(r.events, Report(Disconnected, 0)) == 1 && Count(r.events, Error(limit)) == 1
                && Slept(r.events) == if limit <= 7 then 1000 * Pow2(limit - 1) else 64000 + (limit - 7) * 60000)
  {
    var c := EngineConfig(requestedAttempts);
    SessionReady(Idle(c), calls, e);
    EngineWait(requestedAttempts, c.maxAttempts);
    hide Session, Count, Slept, FailedRounds, Ending, TotalDelay;
    VerdictReached(c, world, 0);
    var k := Stop(c, world, 0);
    if k < c.maxAttempts { Success(c, world); } else { Exhaustion(c, world); }
  }
}
