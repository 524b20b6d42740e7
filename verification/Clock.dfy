/** Time: periodic timers, the deadline of the next read, and the delays between
    reconnections. The clock is a number that never decreases. */
module Clock {
  import opened Common

  // ── Timers ────────────────────────────────────────────────────────────

  datatype Timer = Timer(period: nat, nextFire: nat)

  predicate Due(t: Timer, now: nat) {
    now >= t.nextFire
  }

  function Fired(t: Timer, now: nat): Timer {
    if Due(t, now) then t.(nextFire := now + t.period) else t
  }

  /** Fires every timer that is due, once each, and sets it to one period from now. */
  method FireTimers(timers: seq<Timer>, now: nat) returns (timers': seq<Timer>, calls: nat)
    ensures |timers'| == |timers| && forall i | 0 <= i < |timers| :: timers'[i] == Fired(timers[i], now)
    ensures calls == |set i | 0 <= i < |timers| && Due(timers[i], now)|
    ensures forall i | 0 <= i < |timers'| :: timers'[i].period > 0 ==> !Due(timers'[i], now)
  {
    timers', calls := timers, 0;
    ghost var due: set<int> := {};
    for i := 0 to |timers|
      invariant |timers'| == |timers|
      invariant forall k | 0 <= k < i :: timers'[k] == Fired(timers[k], now)
      invariant forall k | i <= k < |timers| :: timers'[k] == timers[k]
      invariant due == (set k | 0 <= k < i && Due(timers[k], now)) && calls == |due|
    {
      if now >= timers'[i].nextFire {
        timers' := timers'[i := timers'[i].(nextFire := now + timers'[i].period)];
        due := due + {i};
        calls := calls + 1;
      }
    }
  }

  /** How long the next read may take: until the keepalive is due or a timer is. */
  method NextDeadline(timers: seq<Timer>, keepalive: nat, now: nat) returns (wait: nat)
    ensures wait <= keepalive
    ensures forall i | 0 <= i < |timers| :: if Due(timers[i], now) then wait == 0 else now + wait <= timers[i].nextFire
    ensures wait < keepalive ==> exists i | 0 <= i < |timers| :: Due(timers[i], now + wait)
  {
    wait := keepalive;
    for i := 0 to |timers|
      invariant wait <= keepalive
      invariant forall k | 0 <= k < i :: timers[k].nextFire >= now + wait && timers[k].nextFire > now
      invariant wait < keepalive ==> exists k | 0 <= k < i :: Due(timers[k], now + wait)
    {
      if timers[i].nextFire > now {
        var remaining := timers[i].nextFire - now;
        if remaining < wait {
          wait := remaining;
          assert Due(timers[i], now + wait);
        }
      } else {
        assert Due(timers[i], now + 0);
        return 0;
      }
    }
  }

  predicate Increasing(nows: seq<nat>) {
    forall i, j | 0 <= i < j < |nows| :: nows[i] <= nows[j]
  }

  /** The times at which a timer fires when it is looked at, at the times `nows`. */
  function FireTimes(t: Timer, nows: seq<nat>): seq<nat>
    decreases |nows|
  {
    if nows == [] then []
    else (if Due(t, nows[0]) then [nows[0]] else []) + FireTimes(Fired(t, nows[0]), nows[1..])
  }

  /** However often and however irregularly it is looked at, a timer never fires before its time, and
      two of its calls are at least one period apart. */
  lemma {:induction false} TimerSpacing(t: Timer, nows: seq<nat>)
    requires Increasing(nows)
    ensures var times := FireTimes(t, nows);
      && (times != [] ==> times[0] >= t.nextFire)
      && forall k | 0 <= k < |times| - 1 :: times[k + 1] >= times[k] + t.period
    decreases |nows|
  {
    if nows != [] {
      TimerSpacing(Fired(t, nows[0]), nows[1..]);
    }
  }

  // ── How long nothing is sent ──────────────────────────────────────────

  /** One round of spinning: whether its first drain sends frames, how long it waits for a message, and
      whether the wait ends with a timeout, which sends a keepalive. */
  datatype Round = Round(sends: bool, waited: nat, timeout: bool)

  function Max(a: nat, b: nat): nat {
    if a < b then b else a
  }

  /** The longest time without anything sent, when there was nothing for `since` before. */
  function LongestSilence(rounds: seq<Round>, since: nat): nat {
    if rounds == [] then since
    else
      var silence := (if rounds[0].sends then 0 else since) + rounds[0].waited;
      Max(Max(since, silence), LongestSilence(rounds[1..], if rounds[0].timeout then 0 else silence))
  }

  function Waited(rounds: seq<Round>): nat {
    if rounds == [] then 0 else rounds[0].waited + Waited(rounds[1..])
  }

  /** From the drain of round `i` to the end of the wait of round `j - 1` nothing is sent. */
  predicate Quiet(rounds: seq<Round>, i: nat, j: nat) {
    && i < j <= |rounds|
    && (forall k | i < k < j :: !rounds[k].sends)
    && (forall k | i <= k < j - 1 :: !rounds[k].timeout)
  }

  /** The first `j` rounds send nothing before the end of the last wait. */
  predicate QuietStart(rounds: seq<Round>, j: nat) {
    Quiet(rounds, 0, j) && !rounds[0].sends
  }

  lemma StretchOfRest(rounds: seq<Round>, i: nat, j: nat)
    requires rounds != [] && i < j < |rounds|
    ensures Quiet(rounds[1..], i, j) <==> Quiet(rounds, i + 1, j + 1)
    ensures rounds[i + 1..j + 1] == rounds[1..][i..j]
  {
    var rest := rounds[1..];
    assert forall k | 0 <= k < |rest| :: rest[k] == rounds[k + 1];
    assert forall k | 0 < k < |rounds| :: rounds[k] == rest[k - 1];
  }

  lemma StretchFromFirst(rounds: seq<Round>, j: nat)
    requires rounds != [] && 0 < j < |rounds|
    ensures Quiet(rounds, 0, j + 1) <==> !rounds[0].timeout && QuietStart(rounds[1..], j)
    ensures Waited(rounds[..j + 1]) == Waited(rounds[0..j + 1]) == rounds[0].waited + Waited(rounds[1..][..j])
  {
    var rest := rounds[1..];
    assert forall k | 0 <= k < |rest| :: rest[k] == rounds[k + 1];
    assert forall k | 0 < k < |rounds| :: rounds[k] == rest[k - 1];
    assert rounds[..j + 1] == rounds[0..j + 1] && rounds[..j + 1][1..] == rest[..j];
  }

  lemma StretchOfOne(rounds: seq<Round>)
    requires rounds != []
    ensures Quiet(rounds, 0, 1) && Waited(rounds[..1]) == Waited(rounds[0..1]) == rounds[0].waited
  {
    assert rounds[..1] == rounds[0..1] && rounds[..1][1..] == [];
  }

  /** No quiet stretch waits longer than `bound`, not even with a time `since` before those at the start. */
  ghost predicate ShortStretches(rounds: seq<Round>, since: nat, bound: nat) {
    && since <= bound
    && (forall i: nat, j: nat | Quiet(rounds, i, j) :: Waited(rounds[i..j]) <= bound)
    && (forall j: nat | QuietStart(rounds, j) :: since + Waited(rounds[..j]) <= bound)
  }

  lemma {:induction false} SilenceIsStretches(rounds: seq<Round>, since: nat, bound: nat)
    ensures LongestSilence(rounds, since) <= bound <==> ShortStretches(rounds, since, bound)
    decreases |rounds|
  {
    if rounds != [] {
      var first, rest := rounds[0], rounds[1..];
      var silence := (if first.sends then 0 else since) + first.waited;
      var next := if first.timeout then 0 else silence;
      SilenceIsStretches(rest, next, bound);
      if ShortStretches(rounds, since, bound) {
        StretchesGo(rounds, since, bound);
      }
      if since <= bound && silence <= bound && ShortStretches(rest, next, bound) {
        StretchesCome(rounds, since, bound);
      }
    }
  }

  lemma StretchesGo(rounds: seq<Round>, since: nat, bound: nat)
    requires rounds != [] && ShortStretches(rounds, since, bound)
    ensures var silence := (if rounds[0].sends then 0 else since) + rounds[0].waited;
      silence <= bound && ShortStretches(rounds[1..], if rounds[0].timeout then 0 else silence, bound)
  {
    hide Waited;
    var rest := rounds[1..];
    StretchOfOne(rounds);
    assert !rounds[0].sends ==> QuietStart(rounds, 1);
    forall i: nat, j: nat | Quiet(rest, i, j)
      ensures Waited(rest[i..j]) <= bound
    {
      StretchOfRest(rounds, i, j);
    }
    var next := if rounds[0].timeout then 0 else (if rounds[0].sends then 0 else since) + rounds[0].waited;
    forall j: nat | QuietStart(rest, j)
      ensures next + Waited(rest[..j]) <= bound
    {
      StretchFromFirst(rounds, j);
      assert rest[0..j] == rest[..j];
      assert !rounds[0].timeout && !rounds[0].sends ==> QuietStart(rounds, j + 1);
    }
  }

  lemma StretchesCome(rounds: seq<Round>, since: nat, bound: nat)
    requires rounds != [] && since <= bound
    requires var silence := (if rounds[0].sends then 0 else since) + rounds[0].waited;
      silence <= bound && ShortStretches(rounds[1..], if rounds[0].timeout then 0 else silence, bound)
    ensures ShortStretches(rounds, since, bound)
  {
    hide Waited;
    StretchOfOne(rounds);
    forall i: nat, j: nat | Quiet(rounds, i, j)
      ensures Waited(rounds[i..j]) <= bound
    {
      if i > 0 {
        StretchOfRest(rounds, i - 1, j - 1);
      } else if j > 1 {
        StretchFromFirst(rounds, j - 1);
      }
    }
    forall j: nat | QuietStart(rounds, j)
      ensures since + Waited(rounds[..j]) <= bound
    {
      if j > 1 {
        StretchFromFirst(rounds, j - 1);
      }
    }
  }

  /** The longest silence of a run is within a bound if and only if no quiet stretch of rounds waits longer. */
  lemma SilenceBound(rounds: seq<Round>, bound: nat)
    ensures LongestSilence(rounds, 0) <= bound
       <==> forall i: nat, j: nat | Quiet(rounds, i, j) :: Waited(rounds[i..j]) <= bound
  {
    hide Waited, LongestSilence;
    SilenceIsStretches(rounds, 0, bound);
    forall j: nat | QuietStart(rounds, j)
      ensures Waited(rounds[..j]) == Waited(rounds[0..j])
    {
      assert rounds[0..j] == rounds[..j];
    }
  }

  /** A wait takes at most the keepalive interval, and all of it before a timeout. */
  predicate Paced(rounds: seq<Round>, interval: nat) {
    forall i | 0 <= i < |rounds| :: rounds[i].waited <= interval && (rounds[i].timeout ==> rounds[i].waited == interval)
  }

  /** The same rounds, with every message as late as possible. */
  function Slowest(rounds: seq<Round>, interval: nat): (slow: seq<Round>)
    ensures |slow| == |rounds| && Paced(slow, interval)
  {
    seq(|rounds|, i requires 0 <= i < |rounds| => rounds[i].(waited := interval))
  }

  predicate SameShape(a: seq<Round>, b: seq<Round>) {
    |a| == |b| && forall i | 0 <= i < |a| :: a[i].sends == b[i].sends && a[i].timeout == b[i].timeout
  }

  predicate ThreeQuiet(rounds: seq<Round>, i: nat) {
    Quiet(rounds, i, i + 3)
  }

  lemma {:induction false} WaitedAtMost(rounds: seq<Round>, interval: nat)
    requires forall i | 0 <= i < |rounds| :: rounds[i].waited <= interval
    ensures Waited(rounds) <= |rounds| * interval
    ensures (forall i | 0 <= i < |rounds| :: rounds[i].waited == interval) ==> Waited(rounds) == |rounds| * interval
  {
    if rounds != [] {
      WaitedAtMost(rounds[1..], interval);
      assert |rounds| * interval == interval + (|rounds| - 1) * interval;
    }
  }

  /** The keepalive interval is half the lease. The silence stays within the lease, however the messages are
      timed, if and only if no three rounds in a row are quiet: two messages, in rounds of which at most the
      first drains anything, and then a third round that drains nothing. Steady incoming messages
      with nothing to send break the promise. */
  lemma SilenceWithinLease(rounds: seq<Round>, lease: nat)
    requires lease >= 4
    ensures (forall other | SameShape(rounds, other) && Paced(other, lease / 2) :: LongestSilence(other, 0) <= lease)
       <==> forall i: nat :: !ThreeQuiet(rounds, i)
  {
    hide LongestSilence, Waited;
    if forall i: nat :: !ThreeQuiet(rounds, i) {
      forall other | SameShape(rounds, other) && Paced(other, lease / 2)
        ensures LongestSilence(other, 0) <= lease
      {
        QuietPairs(rounds, other, lease);
      }
    } else {
      var i: nat :| ThreeQuiet(rounds, i);
      var slow := Slowest(rounds, lease / 2);
      assert Quiet(slow, i, i + 3);
      WaitedAtMost(slow[i..i + 3], lease / 2);
      SilenceBound(slow, lease);
      assert SameShape(rounds, slow);
    }
  }

  lemma LongHasThree(rounds: seq<Round>, other: seq<Round>, i: nat, j: nat)
    requires SameShape(rounds, other) && Quiet(other, i, j)
    ensures j >= i + 3 ==> ThreeQuiet(rounds, i)
  {
  }

  lemma QuietPairs(rounds: seq<Round>, other: seq<Round>, lease: nat)
    requires SameShape(rounds, other) && Paced(other, lease / 2) && forall i: nat :: !ThreeQuiet(rounds, i)
    ensures LongestSilence(other, 0) <= lease
  {
    hide LongestSilence, Waited;
    forall i: nat, j: nat | Quiet(other, i, j)
      ensures Waited(other[i..j]) <= lease
    {
      LongHasThree(rounds, other, i, j);
      WaitedAtMost(other[i..j], lease / 2);
      assert (j - i) * (lease / 2) <= 2 * (lease / 2);
    }
    SilenceBound(other, lease);
  }

  // ── Reconnection ──────────────────────────────────────────────────────

  function Power(b: nat, k: nat): nat {
    if k == 0 then 1 else b * Power(b, k - 1)
  }

  class ReconnectPolicy {
    const initialDelay: nat
    const maxDelay: nat
    const backoffFactor: nat
    const maxAttempts: nat
    var currentDelay: nat
    var attempts: nat

    /** The delay after `attempts` failed attempts: the initial delay, times the factor for each of them, at
        most the maximum. */
    ghost predicate Valid()
      reads this
    {
      currentDelay
      == if attempts == 0 then initialDelay else Min(initialDelay * Power(backoffFactor, attempts), maxDelay)
    }

    constructor (initialDelay: nat, maxDelay: nat, backoffFactor: nat, maxAttempts: nat)
      ensures Valid() && attempts == 0
      ensures this.initialDelay == initialDelay && this.maxDelay == maxDelay
      ensures this.backoffFactor == backoffFactor && this.maxAttempts == maxAttempts
    {
      this.initialDelay, this.maxDelay := initialDelay, maxDelay;
      this.backoffFactor, this.maxAttempts := backoffFactor, maxAttempts;
      currentDelay, attempts := initialDelay, 0;
    }

    method Reset()
      modifies this
      ensures Valid() && attempts == 0
    {
      currentDelay, attempts := initialDelay, 0;
    }

    predicate ShouldRetry()
      reads this
    {
      maxAttempts == 0 || attempts < maxAttempts
    }

    /** Waits for the current delay, which it returns, and moves on to the next one. */
    method WaitAndAdvance() returns (waited: nat)
      requires Valid()
      modifies this
      ensures Valid() && attempts == old(attempts) + 1
      ensures waited == if old(attempts) == 0 then initialDelay
                        else Min(initialDelay * Power(backoffFactor, old(attempts)), maxDelay)
    {
      waited := currentDelay;
      attempts := attempts + 1;
      CappedTwice(initialDelay * Power(backoffFactor, attempts - 1), maxDelay, backoffFactor);
      Shift(initialDelay, backoffFactor, attempts - 1);
      currentDelay := Min(currentDelay * backoffFactor, maxDelay);
    }
  }

  /** Capping before multiplying and capping again changes nothing. */
  lemma CappedTwice(x: nat, cap: nat, factor: nat)
    ensures Min(Min(x, cap) * factor, cap) == Min(x * factor, cap)
  {
    if cap < x && factor > 0 {
      assert cap * factor >= cap;
      assert x * factor >= cap * factor;
    }
  }

  lemma Shift(x: nat, factor: nat, k: nat)
    ensures x * Power(factor, k) * factor == x * Power(factor, k + 1)
    ensures Power(factor, 0) == 1
  {
    assert x * (factor * Power(factor, k)) == x * Power(factor, k) * factor;
  }
}
