/** The per-peer token bucket with bans and idle cleanup (p2p_ratelimit.go). */
module RateLimiter {
  import opened Prelude

  datatype Config = Config(rate: nat, burst: nat, maxBytes: int)

  datatype Limit = Limit(tokens: int, lastRefill: int, bytes: int, lastByteReset: int,
                         violations: int, lastViolation: int, banned: bool, banExpiry: int)

  type Limits = map<string, Limit>

  /** Go's zero time, far before any clock reading, and the longest duration a subtraction yields. */
  const ZERO_TIME: int := -62_135_596_800 * SECOND
  const MAX_DURATION: int := U64 / 2 - 1

  const IDLE: int := 10 * MINUTE

  function Elapsed(now: int, since: int): int {
    if now - since > MAX_DURATION then MAX_DURATION else now - since
  }

  /** int(elapsed.Minutes() * rate) without rounding error. */
  function Refill(rate: nat, elapsed: int): int {
    rate * elapsed / MINUTE
  }

  function NewLimit(c: Config, now: int): Limit {
    Limit(c.burst, now, 0, now, 0, ZERO_TIME, false, ZERO_TIME)
  }

  /** The refill step of AllowRequest. */
  function Refilled(c: Config, l: Limit, now: int): Limit {
    var added := Refill(c.rate, Elapsed(now, l.lastRefill));
    if added > 0
    then l.(tokens := if l.tokens + added > c.burst then c.burst else l.tokens + added, lastRefill := now)
    else l
  }

  /** A request of a peer whose entry exists. */
  function RequestOn(c: Config, entry: Limit, now: int): (Limit, bool) {
    if entry.banned && now < entry.banExpiry then (entry, false)
    else
      var l := Refilled(c, if entry.banned then entry.(banned := false, violations := 0) else entry, now);
      if l.tokens <= 0 then
        var punished := l.(violations := l.violations + 1, lastViolation := now);
        (if punished.violations >= 5 then punished.(banned := true, banExpiry := now + 10 * MINUTE) else punished,
         false)
      else (l.(tokens := l.tokens - 1), true)
  }

  function Request(c: Config, limits: Limits, p: string, now: int): (Limits, bool) {
    var (l, allowed) := RequestOn(c, if p in limits then limits[p] else NewLimit(c, now), now);
    (limits[p := l], allowed)
  }

  function SendBytes(c: Config, limits: Limits, p: string, n: int, now: int): (Limits, bool) {
    if p !in limits then (limits, false)
    else
      var entry := limits[p];
      var l := if now - entry.lastByteReset > SECOND then entry.(bytes := 0, lastByteReset := now) else entry;
      if l.bytes + n > c.maxBytes then
        var punished := l.(violations := l.violations + 1, lastViolation := now);
        (limits[p := if punished.violations >= 3 then punished.(banned := true, banExpiry := now + 5 * MINUTE)
                     else punished], false)
      else (limits[p := l.(bytes := l.bytes + n)], true)
  }

  function Ban(limits: Limits, p: string, duration: int, now: int): Limits {
    var l := if p in limits then limits[p] else Limit(0, ZERO_TIME, 0, ZERO_TIME, 0, ZERO_TIME, false, ZERO_TIME);
    limits[p := l.(banned := true, banExpiry := now + duration)]
  }

  predicate IsIdle(l: Limit, now: int) {
    !l.banned && Elapsed(now, l.lastRefill) > IDLE
  }

  function Cleanup(limits: Limits, now: int): Limits {
    map p | p in limits && !IsIdle(limits[p], now) :: limits[p]
  }

  class Limiter {
    var limits: Limits
    const config: Config

    constructor (config: Config)
      ensures this.config == config && limits == map[]
    {
      this.config, limits := config, map[];
    }

    method AllowRequest(p: string, now: int) returns (allowed: bool)
      modifies this
      ensures (limits, allowed) == Request(config, old(limits), p, now)
    {
      if p !in limits {
        limits := limits[p := Limit(config.burst, now, 0, now, 0, ZERO_TIME, false, ZERO_TIME)];
      }
      var limit := limits[p];
      if limit.banned {
        if now < limit.banExpiry {
          assert limits == limits[p := limit];
          return false;
        }
        limit := limit.(banned := false, violations := 0);
      }
      var tokensToAdd := Refill(config.rate, Elapsed(now, limit.lastRefill));
      if tokensToAdd > 0 {
        limit := limit.(tokens := limit.tokens + tokensToAdd);
        if limit.tokens > config.burst {
          limit := limit.(tokens := config.burst);
        }
        limit := limit.(lastRefill := now);
      }
      if limit.tokens <= 0 {
        limit := limit.(violations := limit.violations + 1, lastViolation := now);
        if limit.violations >= 5 {
          limit := limit.(banned := true, banExpiry := now + 10 * MINUTE);
        }
        limits := limits[p := limit];
        assert limits == old(limits)[p := limit];
        return false;
      }
      limit := limit.(tokens := limit.tokens - 1);
      limits := limits[p := limit];
      assert limits == old(limits)[p := limit];
      return true;
    }

    method AllowBytes(p: string, n: int, now: int) returns (allowed: bool)
      modifies this
      ensures (limits, allowed) == SendBytes(config, old(limits), p, n, now)
    {
      if p !in limits {
        return false;
      }
      var limit := limits[p];
      if now - limit.lastByteReset > SECOND {
        limit := limit.(bytes := 0, lastByteReset := now);
      }
      if limit.bytes + n > config.maxBytes {
        limit := limit.(violations := limit.violations + 1, lastViolation := now);
        if limit.violations >= 3 {
          limit := limit.(banned := true, banExpiry := now + 5 * MINUTE);
        }
        limits := limits[p := limit];
        return false;
      }
      limits := limits[p := limit.(bytes := limit.bytes + n)];
      return true;
    }

    method BanPeer(p: string, duration: int, now: int)
      modifies this
      ensures limits == Ban(old(limits), p, duration, now)
    {
      if p !in limits {
        limits := limits[p := Limit(0, ZERO_TIME, 0, ZERO_TIME, 0, ZERO_TIME, false, ZERO_TIME)];
      }
      limits := limits[p := limits[p].(banned := true, banExpiry := now + duration)];
    }

    method CleanupOldLimits(now: int)
      modifies this
      ensures limits == Cleanup(old(limits), now)
    {
      var todo := limits.Keys;
      while todo != {}
        invariant todo <= limits.Keys <= old(limits).Keys
        invariant forall p :: p in limits ==> limits[p] == old(limits)[p]
        invariant forall p :: p in old(limits).Keys - todo ==> (p in limits <==> !IsIdle(old(limits)[p], now))
        decreases todo
      {
        var p :| p in todo;
        todo := todo - {p};
        if !limits[p].banned && Elapsed(now, limits[p].lastRefill) > 10 * MINUTE {
          limits := limits - {p};
        }
      }
    }
  }

  // ---- Runs ----

  datatype Event =
    | RequestEvent(peer: string, time: int)
    | BytesEvent(peer: string, n: int, time: int)
    | BanEvent(peer: string, duration: int, time: int)
    | CleanupEvent(time: int)

  function Step(c: Config, limits: Limits, e: Event): Limits {
    match e
    case RequestEvent(p, now) => Request(c, limits, p, now).0
    case BytesEvent(p, n, now) => SendBytes(c, limits, p, n, now).0
    case BanEvent(p, duration, now) => Ban(limits, p, duration, now)
    case CleanupEvent(now) => Cleanup(limits, now)
  }

  /** 1 for a request of the peer that is let through. */
  function Granted(c: Config, limits: Limits, e: Event, p: string): int {
    if e.RequestEvent? && e.peer == p && Request(c, limits, p, e.time).1 then 1 else 0
  }

  function Run(c: Config, limits: Limits, es: seq<Event>): Limits
    decreases |es|
  {
    if es == [] then limits else Run(c, Step(c, limits, es[0]), es[1..])
  }

  /** How many requests of the peer a run lets through. */
  function Count(c: Config, limits: Limits, es: seq<Event>, p: string): int
    decreases |es|
  {
    if es == [] then 0 else Granted(c, limits, es[0], p) + Count(c, Step(c, limits, es[0]), es[1..], p)
  }

  /** The clock never runs backwards and stays in [from, to]. */
  predicate Timed(es: seq<Event>, from: int, to: int) {
    if es == [] then from <= to else from <= es[0].time <= to && Timed(es[1..], es[0].time, to)
  }

  /** Entries hold between zero and burst tokens, count violations and were refilled in the past. */
  ghost predicate LimitsOk(c: Config, limits: Limits, now: int) {
    forall p :: p in limits ==>
      0 <= limits[p].tokens <= c.burst && limits[p].lastRefill <= now && limits[p].violations >= 0
  }

  /** The time after which an idle entry is deleted refills a whole burst. */
  predicate RefillsBurst(c: Config) {
    Refill(c.rate, IDLE + 1) >= c.burst
  }

  /** A clock that has been running for a while since year one. */
  predicate ClockStarted(now: int) {
    now > ZERO_TIME + IDLE
  }

  lemma StepKeepsLimitsOk(c: Config, limits: Limits, e: Event, now: int)
    requires LimitsOk(c, limits, now) && now <= e.time && ClockStarted(now)
    ensures LimitsOk(c, Step(c, limits, e), e.time)
  {
  }

  lemma {:induction false} RunKeepsLimitsOk(c: Config, limits: Limits, es: seq<Event>, from: int, to: int)
    requires LimitsOk(c, limits, from) && Timed(es, from, to) && ClockStarted(from)
    ensures LimitsOk(c, Run(c, limits, es), to)
    decreases |es|
  {
    if es != [] {
      StepKeepsLimitsOk(c, limits, es[0], from);
      RunKeepsLimitsOk(c, Step(c, limits, es[0]), es[1..], es[0].time, to);
    }
  }

  // ---- The potential of a peer's entry ----

  lemma RefillSplits(rate: nat, x: int, y: int)
    requires x >= 0 && y >= 0
    ensures Refill(rate, x) + Refill(rate, y) <= Refill(rate, x + y)
    ensures Refill(rate, x) >= 0
  {
    var a, b := rate * x, rate * y;
    assert rate * (x + y) == a + b;
    FloorSplits(a, b);
    assert a >= 0;
  }

  lemma FloorSplits(a: int, b: int)
    ensures a / MINUTE + b / MINUTE <= (a + b) / MINUTE
  {
  }

  lemma RefillMonotone(rate: nat, x: int, y: int)
    requires 0 <= x <= y
    ensures Refill(rate, x) <= Refill(rate, y)
  {
    RefillSplits(rate, x, y - x);
    RefillSplits(rate, y - x, x);
  }

  /** The next request would fill the bucket to the brim. */
  predicate IsFull(c: Config, l: Limit, now: int) {
    var added := Refill(c.rate, Elapsed(now, l.lastRefill));
    added > 0 && l.tokens + added >= c.burst
  }

  /** An upper bound on the requests the peer can still get through between now and the end. */
  function Potential(c: Config, limits: Limits, p: string, now: int, end: int): int {
    if p !in limits || IsFull(c, limits[p], now) then c.burst + Refill(c.rate, end - now)
    else limits[p].tokens + Refill(c.rate, end - limits[p].lastRefill)
  }

  /** An idle entry is full, or nobody ever gets a token. */
  lemma IdleIsFull(c: Config, l: Limit, now: int)
    requires RefillsBurst(c) && 0 <= l.tokens <= c.burst && now - l.lastRefill > IDLE
    ensures IsFull(c, l, now) || (c.rate == 0 && c.burst == 0 && l.tokens == 0)
  {
    RefillMonotone(c.rate, IDLE + 1, Elapsed(now, l.lastRefill));
  }

  lemma RefillZeroRate(x: int)
    ensures Refill(0, x) == 0
  {
  }

  lemma PotentialAges(c: Config, limits: Limits, p: string, now: int, later: int, end: int)
    requires LimitsOk(c, limits, now) && now <= later <= end
    ensures Potential(c, limits, p, later, end) <= Potential(c, limits, p, now, end)
  {
    RefillMonotone(c.rate, end - later, end - now);
    if p in limits {
      var last := limits[p].lastRefill;
      RefillMonotone(c.rate, Elapsed(now, last), Elapsed(later, last));
      RefillMonotone(c.rate, Elapsed(later, last), later - last);
      RefillSplits(c.rate, later - last, end - later);
    }
  }

  /** A request spends from the potential what it lets through. */
  lemma RequestSpends(c: Config, limits: Limits, p: string, now: int, end: int)
    requires LimitsOk(c, limits, now) && now <= end
    ensures var (after, allowed) := Request(c, limits, p, now);
            Potential(c, after, p, now, end) + (if allowed then 1 else 0) <= Potential(c, limits, p, now, end)
  {
    var entry := if p in limits then limits[p] else NewLimit(c, now);
    assert Refill(c.rate, 0) == 0;
    if !(entry.banned && now < entry.banExpiry) {
      var last := entry.lastRefill;
      RefillMonotone(c.rate, Elapsed(now, last), now - last);
      RefillSplits(c.rate, now - last, end - now);
    }
  }

  /** No other event raises a peer's potential: idle deletion and a ban of a new peer leave it as it is. */
  lemma OtherStepKeepsPotential(c: Config, limits: Limits, e: Event, p: string, end: int)
    requires LimitsOk(c, limits, e.time) && e.time <= end && ClockStarted(e.time) && RefillsBurst(c)
    requires !(e.RequestEvent? && e.peer == p)
    ensures Potential(c, Step(c, limits, e), p, e.time, end) == Potential(c, limits, p, e.time, end)
  {
    match e
    case BanEvent(q, duration, now) =>
      if q == p && p !in limits {
        IdleIsFull(c, Ban(limits, p, duration, now)[p], now);
        RefillZeroRate(end - ZERO_TIME);
        RefillZeroRate(end - now);
      }
    case CleanupEvent(now) =>
      if p in limits && IsIdle(limits[p], now) {
        IdleIsFull(c, limits[p], now);
        RefillZeroRate(end - limits[p].lastRefill);
        RefillZeroRate(end - now);
      }
    case _ =>
  }

  lemma PotentialNonNegative(c: Config, limits: Limits, p: string, now: int, end: int)
    requires LimitsOk(c, limits, now) && now <= end
    ensures Potential(c, limits, p, now, end) >= 0
  {
    RefillSplits(c.rate, end - now, 0);
    if p in limits {
      RefillSplits(c.rate, end - limits[p].lastRefill, 0);
    }
  }

  lemma {:induction false} CountWithinPotential(c: Config, limits: Limits, es: seq<Event>, p: string,
                                                now: int, end: int)
    requires LimitsOk(c, limits, now) && Timed(es, now, end) && ClockStarted(now) && RefillsBurst(c)
    ensures now <= end
    ensures Count(c, limits, es, p) <= Potential(c, limits, p, now, end)
    decreases |es|
  {
    if es == [] {
      PotentialNonNegative(c, limits, p, now, end);
    } else {
      var e, next := es[0], Step(c, limits, es[0]);
      StepKeepsLimitsOk(c, limits, e, now);
      CountWithinPotential(c, next, es[1..], p, e.time, end);
      PotentialAges(c, limits, p, now, e.time, end);
      if e.RequestEvent? && e.peer == p {
        RequestSpends(c, limits, p, e.time, end);
      } else {
        OtherStepKeepsPotential(c, limits, e, p, end);
      }
    }
  }

  // ---- The window bound ----

  /** The allowance of an interval, rounded up. */
  function Allowance(rate: nat, x: int): int {
    (rate * x + MINUTE - 1) / MINUTE
  }

  lemma AllowanceMonotone(rate: nat, x: int, y: int)
    requires x <= y
    ensures Allowance(rate, x) <= Allowance(rate, y)
  {
    assert rate * x <= rate * y;
  }

  lemma AllowanceNonNegative(rate: nat, x: int)
    requires x >= 0
    ensures Allowance(rate, x) >= 0
  {
    assert rate * x >= 0;
  }

  /** A refill that starts less than one token early brings at most the rounded-up allowance. */
  lemma RefillWithinAllowance(rate: nat, last: int, now: int, end: int)
    requires last <= now <= end && Refill(rate, Elapsed(now, last)) == 0
    ensures Refill(rate, end - last) <= Allowance(rate, end - now)
  {
    if rate == 0 {
      RefillZeroRate(end - last);
    } else {
      var a, b := rate * (now - last), rate * (end - now);
      assert rate * (end - last) == a + b;
      if now - last <= MAX_DURATION {
        assert a < MINUTE;
      }
    }
  }

  /** After a request that was not cut off by a ban, what was granted and the rest of the window fit the bound. */
  lemma FirstRequestFitsWindow(c: Config, limits: Limits, p: string, now: int, end: int)
    requires LimitsOk(c, limits, now) && now <= end
    requires p in limits ==> !(limits[p].banned && now < limits[p].banExpiry)
    ensures var (after, allowed) := Request(c, limits, p, now);
            Potential(c, after, p, now, end) + (if allowed then 1 else 0) <= c.burst + Allowance(c.rate, end - now)
  {
    var after := Request(c, limits, p, now).0;
    assert Refill(c.rate, 0) == 0;
    if p in limits {
      RefillSplits(c.rate, Elapsed(now, limits[p].lastRefill), 0);
    }
    RefillWithinAllowance(c.rate, after[p].lastRefill, now, end);
  }

  /** From any reachable state, a window lets through at most the burst plus the rounded-up allowance. */
  lemma {:induction false} WindowBound(c: Config, limits: Limits, es: seq<Event>, p: string, from: int, to: int)
    requires LimitsOk(c, limits, from) && Timed(es, from, to) && ClockStarted(from) && RefillsBurst(c)
    ensures from <= to
    ensures Count(c, limits, es, p) <= c.burst + Allowance(c.rate, to - from)
    decreases |es|
  {
    if es == [] {
      AllowanceNonNegative(c.rate, to - from);
    } else {
      var e, next := es[0], Step(c, limits, es[0]);
      StepKeepsLimitsOk(c, limits, e, from);
      TimedRest(es, from, to);
      AllowanceMonotone(c.rate, to - e.time, to - from);
      if e.RequestEvent? && e.peer == p && !(p in limits && limits[p].banned && e.time < limits[p].banExpiry) {
        FirstRequestFitsWindow(c, limits, p, e.time, to);
        CountWithinPotential(c, next, es[1..], p, e.time, to);
      } else {
        WindowBound(c, next, es[1..], p, e.time, to);
      }
    }
  }

  lemma {:induction false} TimedRest(es: seq<Event>, from: int, to: int)
    requires Timed(es, from, to)
    ensures from <= to
    ensures es != [] ==> from <= es[0].time <= to
    decreases |es|
  {
    if es != [] {
      TimedRest(es[1..], es[0].time, to);
    }
  }

  /** The limit promised for every peer, every run and every window in it. */
  ghost predicate LimitHolds(c: Config) {
    forall before, window, start, from, to, p ::
      ClockStarted(start) && Timed(before, start, from) && Timed(window, from, to) ==>
        Count(c, Run(c, map[], before), window, p) <= c.burst + Allowance(c.rate, to - from)
  }

  // ---- Bursts ----

  /** n requests of one peer at one moment. */
  function Burst(p: string, n: nat, time: int): seq<Event> {
    seq(n, _ => RequestEvent(p, time))
  }

  lemma {:induction false} BurstIsGranted(c: Config, limits: Limits, p: string, n: nat, time: int)
    requires p in limits && !limits[p].banned && limits[p].tokens == n && limits[p].lastRefill == time
    ensures Count(c, limits, Burst(p, n, time), p) == n
    ensures Run(c, limits, Burst(p, n, time)) == limits[p := limits[p].(tokens := 0)]
    decreases n
  {
    if n == 0 {
      assert limits == limits[p := limits[p].(tokens := 0)];
    } else {
      var es := Burst(p, n, time);
      var next := Step(c, limits, es[0]);
      assert Refill(c.rate, 0) == 0;
      assert next == limits[p := limits[p].(tokens := n - 1)];
      assert es[1..] == Burst(p, n - 1, time);
      BurstIsGranted(c, next, p, n - 1, time);
    }
  }

  /** A peer without an entry gets a whole burst through at once, and is left with an empty bucket. */
  lemma NewPeerBurst(c: Config, p: string, time: int)
    requires c.burst > 0
    ensures Count(c, map[], Burst(p, c.burst, time), p) == c.burst
    ensures Run(c, map[], Burst(p, c.burst, time)) == map[p := NewLimit(c, time).(tokens := 0)]
  {
    var es := Burst(p, c.burst, time);
    var started: Limits := map[p := NewLimit(c, time)];
    BurstIsGranted(c, started, p, c.burst, time);
    assert Step(c, map[], es[0]) == Step(c, started, es[0]);
  }

  lemma {:induction false} CountConcat(c: Config, limits: Limits, es: seq<Event>, more: seq<Event>, p: string)
    ensures Count(c, limits, es + more, p) == Count(c, limits, es, p) + Count(c, Run(c, limits, es), more, p)
    ensures Run(c, limits, es + more) == Run(c, Run(c, limits, es), more)
    decreases |es|
  {
    if es == [] {
      assert es + more == more;
    } else {
      assert (es + more)[1..] == es[1..] + more;
      CountConcat(c, Step(c, limits, es[0]), es[1..], more, p);
    }
  }

  lemma {:induction false} TimedBurst(p: string, n: nat, from: int, time: int, to: int, more: seq<Event>)
    requires from <= time <= to && Timed(more, time, to)
    ensures Timed(Burst(p, n, time) + more, from, to)
    decreases n
  {
    if n == 0 {
      assert Burst(p, 0, time) + more == more;
      if more == [] {
      } else {
        assert more[0].time >= from;
      }
    } else {
      var es := Burst(p, n, time) + more;
      assert es[1..] == Burst(p, n - 1, time) + more;
      TimedBurst(p, n - 1, time, time, to, more);
    }
  }

  /** A burst, then ten minutes of silence, a cleanup, and again. */
  function Pulse(c: Config, p: string, time: int): seq<Event> {
    Burst(p, c.burst, time) + [CleanupEvent(time + IDLE + 1)]
  }

  lemma PulseEffect(c: Config, p: string, time: int)
    requires c.burst > 0
    ensures Count(c, map[], Pulse(c, p, time), p) == c.burst
    ensures Run(c, map[], Pulse(c, p, time)) == map[]
  {
    NewPeerBurst(c, p, time);
    var drained := Run(c, map[], Burst(p, c.burst, time));
    CountConcat(c, map[], Burst(p, c.burst, time), [CleanupEvent(time + IDLE + 1)], p);
    assert Step(c, drained, CleanupEvent(time + IDLE + 1)) == map[];
    assert [CleanupEvent(time + IDLE + 1)][1..] == [];
  }

  /** n pulses and a last burst. */
  function Train(c: Config, p: string, n: nat, time: int): seq<Event> {
    if n == 0 then Burst(p, c.burst, time) else Pulse(c, p, time) + Train(c, p, n - 1, time + IDLE + 1)
  }

  lemma {:induction false} TrainCount(c: Config, p: string, n: nat, time: int)
    requires c.burst > 0
    ensures Count(c, map[], Train(c, p, n, time), p) == n * c.burst + c.burst
    decreases n
  {
    if n == 0 {
      NewPeerBurst(c, p, time);
    } else {
      PulseEffect(c, p, time);
      TrainCount(c, p, n - 1, time + IDLE + 1);
      CountConcat(c, map[], Pulse(c, p, time), Train(c, p, n - 1, time + IDLE + 1), p);
      OneMore(n, c.burst);
    }
  }

  lemma OneMore(n: int, k: int)
    ensures (n - 1) * k + k == n * k
  {
  }

  lemma {:induction false} TrainTimed(c: Config, p: string, n: nat, time: int)
    ensures Timed(Train(c, p, n, time), time, time + n * (IDLE + 1))
    decreases n
  {
    if n == 0 {
      assert Burst(p, c.burst, time) + [] == Burst(p, c.burst, time);
      TimedBurst(p, c.burst, time, time, time, []);
    } else {
      var to := time + n * (IDLE + 1);
      TrainTimed(c, p, n - 1, time + IDLE + 1);
      assert to == time + IDLE + 1 + (n - 1) * (IDLE + 1);
      PulseTimed(c, p, time, time, to, Train(c, p, n - 1, time + IDLE + 1));
    }
  }

  /** When a burst is more than an idle time refills, enough pulses beat the limit: each gains at least one
      unrefilled nanosecond's worth, and a minute's worth of nanoseconds is a token. */
  lemma PulsesBeatLimit(c: Config, p: string)
    requires !RefillsBurst(c)
    ensures !LimitHolds(c)
  {
    assert Refill(c.rate, IDLE + 1) >= 0;
    TrainCount(c, p, MINUTE, 0);
    TrainTimed(c, p, MINUTE, 0);
    AllowanceOfMinutes(c.rate, IDLE + 1);
    assert Run(c, map[], []) == map[] && Timed([], 0, 0);
    assert ClockStarted(0);
  }

  lemma AllowanceOfMinutes(rate: nat, x: nat)
    ensures Allowance(rate, MINUTE * x) == rate * x
  {
    var a := rate * x;
    assert rate * (MINUTE * x) == MINUTE * a;
    FloorOfMultiple(a);
  }

  lemma FloorOfMultiple(a: nat)
    ensures (MINUTE * a + MINUTE - 1) / MINUTE == a
  {
  }

  lemma PulseTimed(c: Config, p: string, from: int, time: int, to: int, more: seq<Event>)
    requires from <= time && time + IDLE + 1 <= to && Timed(more, time + IDLE + 1, to)
    ensures Timed(Pulse(c, p, time) + more, from, to)
  {
    var rest := [CleanupEvent(time + IDLE + 1)] + more;
    assert rest[1..] == more;
    assert Timed(rest, time, to);
    assert Pulse(c, p, time) + more == Burst(p, c.burst, time) + rest;
    TimedBurst(p, c.burst, from, time, to, rest);
  }

  /** The limit holds over every run and window exactly when the time after which an idle entry is deleted
      refills a whole burst. */
  lemma LimitHoldsIff(c: Config)
    ensures LimitHolds(c) <==> RefillsBurst(c)
  {
    if RefillsBurst(c) {
      forall before, window, start, from, to, p |
        ClockStarted(start) && Timed(before, start, from) && Timed(window, from, to)
        ensures Count(c, Run(c, map[], before), window, p) <= c.burst + Allowance(c.rate, to - from)
      {
        RunKeepsLimitsOk(c, map[], before, start, from);
        TimedRest(before, start, from);
        WindowBound(c, Run(c, map[], before), window, p, from, to);
      }
    } else {
      PulsesBeatLimit(c, "");
    }
  }

  // ---- What a cleanup changes for later decisions ----

  ghost predicate OnlyRequests(es: seq<Event>) {
    forall e :: e in es ==> e.RequestEvent?
  }

  /** Two limiters let the same requests of a run through and leave the same tokens after each. */
  ghost predicate SameDecisions(c: Config, a: Limits, b: Limits, es: seq<Event>)
    decreases |es|
  {
    es == [] ||
    (&& SameDecision(c, a, b, es[0])
     && SameDecisions(c, Step(c, a, es[0]), Step(c, b, es[0]), es[1..]))
  }

  ghost predicate SameDecision(c: Config, a: Limits, b: Limits, e: Event) {
    e.RequestEvent? ==>
      var (after, allowed) := Request(c, a, e.peer, e.time);
      var (after', allowed') := Request(c, b, e.peer, e.time);
      allowed == allowed' && after[e.peer].tokens == after'[e.peer].tokens
  }

  /** No run of requests after the cleanup shows that it took place. */
  ghost predicate CleanupIsInvisible(c: Config, limits: Limits, now: int) {
    forall es, to :: Timed(es, now, to) && OnlyRequests(es) ==> SameDecisions(c, limits, Cleanup(limits, now), es)
  }

  /** Two entries that differ at most in their byte budget and in times that no longer matter. */
  ghost predicate Alike(a: Limit, b: Limit) {
    && a.tokens == b.tokens && a.lastRefill == b.lastRefill && a.violations == b.violations
    && a.banned == b.banned && (a.banned ==> a.banExpiry == b.banExpiry)
  }

  /** The second limiter has forgotten at most full entries without violations. */
  ghost predicate ForgotOnlyFull(c: Config, a: Limits, b: Limits, now: int) {
    forall p ::
      && (p in b ==> p in a && Alike(a[p], b[p]))
      && (p in a && p !in b ==> !a[p].banned && a[p].violations == 0 && IsFull(c, a[p], now))
  }

  lemma FullStaysFull(c: Config, l: Limit, now: int, later: int)
    requires IsFull(c, l, now) && l.lastRefill <= now <= later
    ensures IsFull(c, l, later)
  {
    RefillMonotone(c.rate, Elapsed(now, l.lastRefill), Elapsed(later, l.lastRefill));
  }

  lemma RequestOnAlike(c: Config, a: Limit, b: Limit, now: int)
    requires Alike(a, b)
    ensures RequestOn(c, a, now).1 == RequestOn(c, b, now).1
    ensures Alike(RequestOn(c, a, now).0, RequestOn(c, b, now).0)
  {
  }

  lemma RequestOnFull(c: Config, l: Limit, now: int)
    requires !l.banned && l.violations == 0 && IsFull(c, l, now)
    ensures RequestOn(c, l, now).1 == RequestOn(c, NewLimit(c, now), now).1
    ensures Alike(RequestOn(c, l, now).0, RequestOn(c, NewLimit(c, now), now).0)
  {
    assert Refill(c.rate, 0) == 0;
  }

  lemma {:induction false} ForgettingFullIsInvisible(c: Config, a: Limits, b: Limits, es: seq<Event>, now: int, to: int)
    requires ForgotOnlyFull(c, a, b, now) && LimitsOk(c, a, now) && ClockStarted(now)
    requires Timed(es, now, to) && OnlyRequests(es)
    ensures SameDecisions(c, a, b, es)
    decreases |es|
  {
    if es != [] {
      var e := es[0];
      assert e in es;
      forall p | p in a && p !in b ensures IsFull(c, a[p], e.time) {
        FullStaysFull(c, a[p], now, e.time);
      }
      if e.peer in b {
        RequestOnAlike(c, a[e.peer], b[e.peer], e.time);
      } else if e.peer in a {
        RequestOnFull(c, a[e.peer], e.time);
      }
      StepKeepsLimitsOk(c, a, e, now);
      ForgettingFullIsInvisible(c, Step(c, a, e), Step(c, b, e), es[1..], e.time, to);
    }
  }

  /** Without tokens nothing is ever let through, whatever was forgotten. */
  lemma {:induction false} NoBurstNoDifference(c: Config, a: Limits, b: Limits, es: seq<Event>, now: int, to: int)
    requires c.burst == 0 && LimitsOk(c, a, now) && LimitsOk(c, b, now) && ClockStarted(now) && Timed(es, now, to)
    ensures SameDecisions(c, a, b, es)
    decreases |es|
  {
    if es != [] {
      StepKeepsLimitsOk(c, a, es[0], now);
      StepKeepsLimitsOk(c, b, es[0], now);
      NoBurstNoDifference(c, Step(c, a, es[0]), Step(c, b, es[0]), es[1..], es[0].time, to);
    }
  }

  lemma {:induction false} AnswersAfter(c: Config, a: Limits, b: Limits, es: seq<Event>, e: Event)
    requires SameAnswers(c, a, b, es + [e])
    ensures SameAnswer(c, Run(c, a, es), Run(c, b, es), e)
    decreases |es|
  {
    if es == [] {
      assert es + [e] == [e];
    } else {
      assert (es + [e])[1..] == es[1..] + [e];
      AnswersAfter(c, Step(c, a, es[0]), Step(c, b, es[0]), es[1..], e);
    }
  }

  /** Refused requests at one moment count as violations, and the fifth bans. */
  lemma {:induction false} BurstIsPunished(c: Config, limits: Limits, p: string, n: nat, time: int)
    requires p in limits && !limits[p].banned && limits[p].tokens == 0 && limits[p].lastRefill == time
    requires n > 0 && (n > 1 ==> limits[p].violations + n <= 5)
    ensures var after := Run(c, limits, Burst(p, n, time));
            && p in after && after[p].tokens == 0 && after[p].lastRefill == time
            && after[p].violations == limits[p].violations + n
            && (after[p].banned <==> after[p].violations >= 5)
            && (after[p].banned ==> after[p].banExpiry == time + 10 * MINUTE)
    decreases n
  {
    var es := Burst(p, n, time);
    assert Refill(c.rate, 0) == 0;
    assert es[1..] == Burst(p, n - 1, time);
    if n > 1 {
      BurstIsPunished(c, Step(c, limits, es[0]), p, n - 1, time);
    }
  }

  /** A burst and some refused requests from a full entry, or from none. */
  lemma DrainedAndPunished(c: Config, limits: Limits, p: string, m: nat, time: int)
    requires c.burst > 0 && m > 0
    requires p in limits ==> !limits[p].banned && limits[p].lastRefill <= time && IsFull(c, limits[p], time)
    requires var v := if p in limits then limits[p].violations else 0; v >= 0 && (m > 1 ==> v + m <= 5)
    ensures var v := if p in limits then limits[p].violations else 0;
            var after := Run(c, limits, Burst(p, c.burst + m, time));
            && p in after && after[p].tokens == 0 && after[p].lastRefill == time
            && (after[p].banned <==> v + m >= 5)
            && (after[p].banned ==> after[p].banExpiry == time + 10 * MINUTE)
  {
    var entry := if p in limits then limits[p].(tokens := c.burst, lastRefill := time) else NewLimit(c, time);
    var started := limits[p := entry];
    var es := Burst(p, c.burst, time);
    assert Refill(c.rate, 0) == 0;
    assert Step(c, limits, es[0]) == Step(c, started, es[0]);
    BurstIsGranted(c, started, p, c.burst, time);
    var drained := Run(c, limits, es);
    assert drained == Run(c, started, es);
    BurstIsPunished(c, drained, p, m, time);
    assert Burst(p, c.burst + m, time) == es + Burst(p, m, time);
    CountConcat(c, limits, es, Burst(p, m, time), p);
  }

  /** A deleted entry with violations shows: after a burst and a few refused requests the kept peer is banned and
      the forgotten one is not, and a minute later only the forgotten one is served. */
  function Telltale(c: Config, p: string, violations: nat, now: int): seq<Event> {
    Burst(p, c.burst + Refusals(violations), now) + [RequestEvent(p, now + MINUTE)]
  }

  function Refusals(violations: nat): nat {
    if violations >= 5 then 1 else 5 - violations
  }

  /** A banned peer is refused where one that is only drained is served again a minute later. */
  lemma BannedUnlikeDrained(c: Config, a: Limits, b: Limits, p: string, now: int)
    requires c.burst > 0 && Refill(c.rate, MINUTE) > 0 && p in a && p in b
    requires a[p].banned && a[p].banExpiry == now + 10 * MINUTE
    requires !b[p].banned && b[p].tokens == 0 && b[p].lastRefill == now
    ensures !SameAnswer(c, a, b, RequestEvent(p, now + MINUTE))
  {
    assert Elapsed(now + MINUTE, now) == MINUTE;
  }

  lemma ForgottenViolationsShow(c: Config, limits: Limits, p: string, now: int)
    requires LimitsOk(c, limits, now) && ClockStarted(now) && RefillsBurst(c) && c.burst > 0
    requires p in limits && IsIdle(limits[p], now) && limits[p].violations > 0
    ensures Timed(Telltale(c, p, limits[p].violations, now), now, now + MINUTE)
    ensures OnlyRequests(Telltale(c, p, limits[p].violations, now))
    ensures !SameAnswers(c, limits, Cleanup(limits, now), Telltale(c, p, limits[p].violations, now))
  {
    var m, last := Refusals(limits[p].violations), RequestEvent(p, now + MINUTE);
    var es := Burst(p, c.burst + m, now);
    IdleIsFull(c, limits[p], now);
    DrainedAndPunished(c, limits, p, m, now);
    DrainedAndPunished(c, Cleanup(limits, now), p, m, now);
    assert c.rate > 0 && Refill(c.rate, MINUTE) == c.rate by {
      RefillZeroRate(IDLE + 1);
    }
    if SameAnswers(c, limits, Cleanup(limits, now), es + [last]) {
      AnswersAfter(c, limits, Cleanup(limits, now), es, last);
      BannedUnlikeDrained(c, Run(c, limits, es), Run(c, Cleanup(limits, now), es), p, now);
    }
    TelltaleIsTimed(c, p, limits[p].violations, now);
  }

  lemma TelltaleIsTimed(c: Config, p: string, violations: nat, now: int)
    ensures Timed(Telltale(c, p, violations, now), now, now + MINUTE) && OnlyRequests(Telltale(c, p, violations, now))
  {
    TimedBurst(p, c.burst + Refusals(violations), now, now, now + MINUTE, [RequestEvent(p, now + MINUTE)]);
  }

  /** A cleanup changes no later decision on requests exactly when no deleted entry remembers a violation, or
      nobody is ever served anyway. */
  lemma CleanupIsInvisibleIff(c: Config, limits: Limits, now: int)
    requires LimitsOk(c, limits, now) && ClockStarted(now) && RefillsBurst(c)
    ensures CleanupIsInvisible(c, limits, now)
            <==> c.burst == 0 || forall p :: p in limits && IsIdle(limits[p], now) ==> limits[p].violations == 0
  {
    var cleaned := Cleanup(limits, now);
    if c.burst == 0 {
      forall es, to | Timed(es, now, to) && OnlyRequests(es) ensures SameDecisions(c, limits, cleaned, es) {
        NoBurstNoDifference(c, limits, cleaned, es, now, to);
      }
    } else if p :| p in limits && IsIdle(limits[p], now) && limits[p].violations != 0 {
      ForgottenViolationsShow(c, limits, p, now);
      var es := Telltale(c, p, limits[p].violations, now);
      if SameDecisions(c, limits, cleaned, es) {
        SameDecisionsSameAnswers(c, limits, cleaned, es);
      }
    } else {
      forall p | p in limits && IsIdle(limits[p], now) ensures IsFull(c, limits[p], now) {
        IdleIsFull(c, limits[p], now);
      }
      forall es, to | Timed(es, now, to) && OnlyRequests(es) ensures SameDecisions(c, limits, cleaned, es) {
        ForgettingFullIsInvisible(c, limits, cleaned, es, now, to);
      }
    }
  }

  // ---- Bans and further cleanups after a cleanup ----

  ghost predicate NoBytes(es: seq<Event>) {
    forall e :: e in es ==> !e.BytesEvent?
  }

  ghost predicate SameAnswer(c: Config, a: Limits, b: Limits, e: Event) {
    e.RequestEvent? ==> Request(c, a, e.peer, e.time).1 == Request(c, b, e.peer, e.time).1
  }

  /** Two limiters let the same requests of a run through. */
  ghost predicate SameAnswers(c: Config, a: Limits, b: Limits, es: seq<Event>)
    decreases |es|
  {
    es == [] || (SameAnswer(c, a, b, es[0]) && SameAnswers(c, Step(c, a, es[0]), Step(c, b, es[0]), es[1..]))
  }

  /** No run of requests, bans and further cleanups is answered otherwise than without the cleanup. */
  ghost predicate CleanupKeepsAnswers(c: Config, limits: Limits, now: int) {
    forall es, to :: Timed(es, now, to) && NoBytes(es) ==> SameAnswers(c, limits, Cleanup(limits, now), es)
  }

  /** Two entries under the same ban that both refill to the brim when it ends. */
  ghost predicate BannedFull(c: Config, a: Limit, b: Limit, now: int) {
    a.banned && b.banned && a.banExpiry == b.banExpiry && IsFull(c, a, now) && IsFull(c, b, now)
  }

  /** The second limiter has forgotten at most full entries without violations, and some of them were banned since. */
  ghost predicate ForgotHarmlessly(c: Config, a: Limits, b: Limits, now: int) {
    forall p ::
      && (p in b ==> p in a && (Alike(a[p], b[p]) || BannedFull(c, a[p], b[p], now)))
      && (p in a && p !in b ==> !a[p].banned && a[p].violations == 0 && IsFull(c, a[p], now))
  }

  lemma HarmlessStays(c: Config, a: Limits, b: Limits, now: int, later: int)
    requires ForgotHarmlessly(c, a, b, now) && LimitsOk(c, a, now) && LimitsOk(c, b, now) && now <= later
    ensures ForgotHarmlessly(c, a, b, later)
  {
    forall p | p in a && IsFull(c, a[p], now) ensures IsFull(c, a[p], later) {
      FullStaysFull(c, a[p], now, later);
    }
    forall p | p in b && IsFull(c, b[p], now) ensures IsFull(c, b[p], later) {
      FullStaysFull(c, b[p], now, later);
    }
  }

  lemma RequestOnBanned(c: Config, a: Limit, b: Limit, now: int)
    requires BannedFull(c, a, b, now)
    ensures RequestOn(c, a, now).1 == RequestOn(c, b, now).1
    ensures Alike(RequestOn(c, a, now).0, RequestOn(c, b, now).0)
            || (RequestOn(c, a, now).0 == a && RequestOn(c, b, now).0 == b)
  {
  }

  lemma RequestKeepsHarmless(c: Config, a: Limits, b: Limits, e: Event)
    requires ForgotHarmlessly(c, a, b, e.time) && e.RequestEvent?
    ensures SameAnswer(c, a, b, e) && ForgotHarmlessly(c, Step(c, a, e), Step(c, b, e), e.time)
  {
    if e.peer in b {
      if Alike(a[e.peer], b[e.peer]) {
        RequestOnAlike(c, a[e.peer], b[e.peer], e.time);
      } else {
        RequestOnBanned(c, a[e.peer], b[e.peer], e.time);
      }
    } else if e.peer in a {
      RequestOnFull(c, a[e.peer], e.time);
    }
  }

  lemma BanKeepsHarmless(c: Config, a: Limits, b: Limits, e: Event)
    requires ForgotHarmlessly(c, a, b, e.time) && e.BanEvent?
    requires RefillsBurst(c) && c.burst > 0 && ClockStarted(e.time)
    ensures ForgotHarmlessly(c, Step(c, a, e), Step(c, b, e), e.time)
  {
    if e.peer !in b {
      IdleIsFull(c, Ban(b, e.peer, e.duration, e.time)[e.peer], e.time);
    }
  }

  lemma CleanupKeepsHarmless(c: Config, a: Limits, b: Limits, e: Event)
    requires ForgotHarmlessly(c, a, b, e.time) && e.CleanupEvent?
    ensures ForgotHarmlessly(c, Step(c, a, e), Step(c, b, e), e.time)
  {
    forall p | p in b && Alike(a[p], b[p]) ensures IsIdle(a[p], e.time) == IsIdle(b[p], e.time) {}
  }

  lemma {:induction false} HarmlessKeepsAnswers(c: Config, a: Limits, b: Limits, es: seq<Event>, now: int, to: int)
    requires ForgotHarmlessly(c, a, b, now) && LimitsOk(c, a, now) && LimitsOk(c, b, now)
    requires RefillsBurst(c) && c.burst > 0 && ClockStarted(now) && Timed(es, now, to) && NoBytes(es)
    ensures SameAnswers(c, a, b, es)
    decreases |es|
  {
    if es != [] {
      var e := es[0];
      assert e in es;
      HarmlessStays(c, a, b, now, e.time);
      if e.RequestEvent? {
        RequestKeepsHarmless(c, a, b, e);
      } else if e.BanEvent? {
        BanKeepsHarmless(c, a, b, e);
      } else {
        CleanupKeepsHarmless(c, a, b, e);
      }
      StepKeepsLimitsOk(c, a, e, now);
      StepKeepsLimitsOk(c, b, e, now);
      HarmlessKeepsAnswers(c, Step(c, a, e), Step(c, b, e), es[1..], e.time, to);
    }
  }

  lemma {:induction false} SameDecisionsSameAnswers(c: Config, a: Limits, b: Limits, es: seq<Event>)
    requires SameDecisions(c, a, b, es)
    ensures SameAnswers(c, a, b, es)
    decreases |es|
  {
    if es != [] {
      SameDecisionsSameAnswers(c, Step(c, a, es[0]), Step(c, b, es[0]), es[1..]);
    }
  }

  /** With bans and further cleanups among the requests the answers stay the same under the same condition. */
  lemma CleanupKeepsAnswersIff(c: Config, limits: Limits, now: int)
    requires LimitsOk(c, limits, now) && ClockStarted(now) && RefillsBurst(c)
    ensures CleanupKeepsAnswers(c, limits, now)
            <==> c.burst == 0 || forall p :: p in limits && IsIdle(limits[p], now) ==> limits[p].violations == 0
  {
    var cleaned := Cleanup(limits, now);
    if c.burst == 0 {
      forall es, to | Timed(es, now, to) && NoBytes(es) ensures SameAnswers(c, limits, cleaned, es) {
        NoBurstNoDifference(c, limits, cleaned, es, now, to);
        SameDecisionsSameAnswers(c, limits, cleaned, es);
      }
    } else if p :| p in limits && IsIdle(limits[p], now) && limits[p].violations != 0 {
      ForgottenViolationsShow(c, limits, p, now);
      var es := Telltale(c, p, limits[p].violations, now);
      assert NoBytes(es) && Timed(es, now, now + MINUTE);
    } else {
      forall p | p in limits && IsIdle(limits[p], now) ensures IsFull(c, limits[p], now) {
        IdleIsFull(c, limits[p], now);
      }
      forall es, to | Timed(es, now, to) && NoBytes(es) ensures SameAnswers(c, limits, cleaned, es) {
        HarmlessKeepsAnswers(c, limits, cleaned, es, now, to);
      }
    }
  }

  // ---- Byte traffic after a cleanup ----

  /** Three refused sends ban a kept peer; without an entry nothing is charged. */
  function ThreeSends(p: string, n: int, now: int): seq<Event> {
    [BytesEvent(p, n, now), BytesEvent(p, n, now), BytesEvent(p, n, now)]
  }

  lemma RunThree(c: Config, limits: Limits, e: Event)
    ensures Run(c, limits, [e, e, e]) == Step(c, Step(c, Step(c, limits, e), e), e)
  {
    assert [e, e, e][1..] == [e, e] && [e, e][1..] == [e] && [e][1..] == [];
    var once := Step(c, limits, e);
    assert Run(c, Step(c, once, e), [e]) == Step(c, Step(c, once, e), e);
    assert Run(c, once, [e, e]) == Run(c, Step(c, once, e), [e]);
  }

  /** Events at one moment follow each other. */
  lemma {:induction false} TimedAtOnce(es: seq<Event>, now: int)
    requires forall e :: e in es ==> e.time == now
    ensures Timed(es, now, now)
    decreases |es|
  {
    if es != [] {
      assert es[0] in es;
      TimedAtOnce(es[1..], now);
    }
  }

  /** More than the rest of any byte budget of the entry. */
  function TooMany(c: Config, l: Limit): int {
    (if c.maxBytes > 0 then c.maxBytes else 0) + (if l.bytes < 0 then -l.bytes else 0) + 1
  }

  lemma ForgottenPeerIsNotCharged(c: Config, limits: Limits, p: string, now: int)
    requires c.burst > 0 && p in limits && IsIdle(limits[p], now) && limits[p].violations >= 0
    ensures !SameAnswers(c, limits, Cleanup(limits, now),
                         ThreeSends(p, TooMany(c, limits[p]), now) + [RequestEvent(p, now)])
  {
    var n := TooMany(c, limits[p]);
    var e := BytesEvent(p, n, now);
    RunThree(c, limits, e);
    RunThree(c, Cleanup(limits, now), e);
    var kept := Run(c, limits, ThreeSends(p, n, now));
    assert kept[p].banned && kept[p].banExpiry == now + 5 * MINUTE;
    assert Run(c, Cleanup(limits, now), ThreeSends(p, n, now)) == Cleanup(limits, now);
    assert Refill(c.rate, 0) == 0;
    if SameAnswers(c, limits, Cleanup(limits, now), ThreeSends(p, n, now) + [RequestEvent(p, now)]) {
      AnswersAfter(c, limits, Cleanup(limits, now), ThreeSends(p, n, now), RequestEvent(p, now));
    }
  }

  /** No run at all after the cleanup shows that it took place. */
  ghost predicate CleanupIsInvisibleInTraffic(c: Config, limits: Limits, now: int) {
    forall es, to :: Timed(es, now, to) ==> SameDecisions(c, limits, Cleanup(limits, now), es)
  }

  /** With byte traffic among the requests a cleanup stays invisible only if it deletes nothing or nobody is ever
      served: a kept peer can run itself into a ban by its bytes, a forgotten one has no entry to be charged. */
  lemma CleanupIsInvisibleInTrafficIff(c: Config, limits: Limits, now: int)
    requires LimitsOk(c, limits, now) && ClockStarted(now)
    ensures CleanupIsInvisibleInTraffic(c, limits, now)
            <==> c.burst == 0 || forall p :: p in limits ==> !IsIdle(limits[p], now)
  {
    var cleaned := Cleanup(limits, now);
    if c.burst == 0 {
      forall es, to | Timed(es, now, to) ensures SameDecisions(c, limits, cleaned, es) {
        NoBurstNoDifference(c, limits, cleaned, es, now, to);
      }
    } else if p :| p in limits && IsIdle(limits[p], now) {
      ForgottenPeerIsNotCharged(c, limits, p, now);
      var es := ThreeSends(p, TooMany(c, limits[p]), now) + [RequestEvent(p, now)];
      TimedAtOnce(es, now);
      if SameDecisions(c, limits, cleaned, es) {
        SameDecisionsSameAnswers(c, limits, cleaned, es);
      }
      assert Timed(es, now, now) && !SameDecisions(c, limits, cleaned, es);
    } else {
      assert cleaned == limits;
      forall es ensures SameDecisions(c, limits, limits, es) {
        AlwaysSame(c, limits, es);
      }
    }
  }

  lemma {:induction false} AlwaysSame(c: Config, limits: Limits, es: seq<Event>)
    ensures SameDecisions(c, limits, limits, es)
    decreases |es|
  {
    if es != [] {
      AlwaysSame(c, Step(c, limits, es[0]), es[1..]);
    }
  }

  // ---- The byte budget ----

  /** The bytes of the peer that an event lets through. */
  function Sent(c: Config, limits: Limits, e: Event, p: string): int {
    if e.BytesEvent? && e.peer == p && SendBytes(c, limits, p, e.n, e.time).1 then e.n else 0
  }

  /** The bytes of the peer that a run lets through. */
  function ByteCount(c: Config, limits: Limits, es: seq<Event>, p: string): int
    decreases |es|
  {
    if es == [] then 0 else Sent(c, limits, es[0], p) + ByteCount(c, Step(c, limits, es[0]), es[1..], p)
  }

  /** How often a run deletes the peer's entry. */
  function Deletions(c: Config, limits: Limits, es: seq<Event>, p: string): nat
    decreases |es|
  {
    if es == [] then 0
    else
      var next := Step(c, limits, es[0]);
      (if p in limits && p !in next then 1 else 0) + Deletions(c, next, es[1..], p)
  }

  ghost predicate SizesOk(es: seq<Event>) {
    forall e :: e in es && e.BytesEvent? ==> e.n >= 0
  }

  /** The budget per second; a negative one lets nothing through. */
  function Budget(c: Config): nat {
    if c.maxBytes > 0 then c.maxBytes else 0
  }

  /** What holds in every reachable state. */
  ghost predicate BytesOk(c: Config, limits: Limits) {
    forall p :: p in limits ==> 0 <= limits[p].bytes <= Budget(c)
  }

  lemma StepKeepsBytesOk(c: Config, limits: Limits, e: Event)
    requires BytesOk(c, limits) && (e.BytesEvent? ==> e.n >= 0)
    ensures BytesOk(c, Step(c, limits, e))
  {
  }

  lemma {:induction false} RunKeepsBytesOk(c: Config, limits: Limits, es: seq<Event>)
    requires BytesOk(c, limits) && SizesOk(es)
    ensures BytesOk(c, Run(c, limits, es))
    decreases |es|
  {
    if es != [] {
      assert es[0] in es;
      StepKeepsBytesOk(c, limits, es[0]);
      RunKeepsBytesOk(c, Step(c, limits, es[0]), es[1..]);
    }
  }

  /** What the peer can still send from now to the end of a window of at most one second: the rest of its current
      budget, and one more budget if its counter can be reset before the end. */
  function ByteRoom(c: Config, limits: Limits, p: string, now: int, end: int): int {
    if p !in limits || now - limits[p].lastByteReset > SECOND then Budget(c)
    else if end - limits[p].lastByteReset > SECOND then 2 * Budget(c) - limits[p].bytes
    else Budget(c) - limits[p].bytes
  }

  lemma ByteRoomStep(c: Config, limits: Limits, e: Event, p: string, end: int)
    requires BytesOk(c, limits) && (e.BytesEvent? ==> e.n >= 0)
    requires e.time <= end <= e.time + SECOND && ClockStarted(e.time)
    ensures var next := Step(c, limits, e);
            Sent(c, limits, e, p) + ByteRoom(c, next, p, e.time, end)
            <= ByteRoom(c, limits, p, e.time, end) + if p in limits && p !in next then Budget(c) else 0
  {
  }

  lemma ByteRoomAges(c: Config, limits: Limits, p: string, now: int, later: int, end: int)
    requires BytesOk(c, limits) && now <= later <= end
    ensures 0 <= ByteRoom(c, limits, p, later, end) <= ByteRoom(c, limits, p, now, end) <= 2 * Budget(c)
  {
  }

  lemma {:induction false} BytesWithinRoom(c: Config, limits: Limits, es: seq<Event>, p: string, now: int, end: int)
    requires BytesOk(c, limits) && SizesOk(es) && Timed(es, now, end) && ClockStarted(now) && end <= now + SECOND
    ensures now <= end
    ensures ByteCount(c, limits, es, p)
            <= ByteRoom(c, limits, p, now, end) + Deletions(c, limits, es, p) * Budget(c)
    decreases |es|
  {
    TimedRest(es, now, end);
    ByteRoomAges(c, limits, p, now, now, end);
    if es != [] {
      var e, next := es[0], Step(c, limits, es[0]);
      assert e in es;
      StepKeepsBytesOk(c, limits, e);
      BytesWithinRoom(c, next, es[1..], p, e.time, end);
      ByteRoomAges(c, limits, p, now, e.time, end);
      ByteRoomStep(c, limits, e, p, end);
      OneMore(Deletions(c, next, es[1..], p) + 1, Budget(c));
    }
  }

  /** From any reachable state, a window of at most one second lets at most two budgets of bytes through, and one
      more for every time the peer's entry is deleted in it. */
  lemma ByteWindowBound(c: Config, limits: Limits, es: seq<Event>, p: string, from: int, to: int)
    requires BytesOk(c, limits) && SizesOk(es) && Timed(es, from, to) && ClockStarted(from)
    requires to <= from + 1_000_000_000
    ensures ByteCount(c, limits, es, p)
            <= (2 + Deletions(c, limits, es, p)) * if c.maxBytes > 0 then c.maxBytes else 0
  {
    BytesWithinRoom(c, limits, es, p, from, to);
    ByteRoomAges(c, limits, p, from, from, to);
    TwoMore(Deletions(c, limits, es, p), Budget(c));
  }

  lemma TwoMore(d: int, m: int)
    ensures (2 + d) * m == 2 * m + d * m
  {
  }

  /** A peer that has just been entered, or whose last reset is over a second ago and that sends now. */
  ghost predicate StartsAfresh(limits: Limits, p: string, first: Event) {
    if p in limits then first.BytesEvent? && first.peer == p && first.time - limits[p].lastByteReset > 1_000_000_000
    else first.RequestEvent? && first.peer == p
  }

  /** The counter holds exactly what went through since the last reset, as long as no second has passed. */
  lemma {:induction false} CounterIsExact(c: Config, limits: Limits, es: seq<Event>, p: string,
                                          from: int, now: int, to: int)
    requires p in limits && limits[p].lastByteReset == from
    requires Timed(es, now, to) && from <= now && to <= from + SECOND
    requires Deletions(c, limits, es, p) == 0
    ensures var after := Run(c, limits, es);
            && p in after && after[p].lastByteReset == from
            && after[p].bytes == limits[p].bytes + ByteCount(c, limits, es, p)
    decreases |es|
  {
    if es != [] {
      TimedRest(es, now, to);
      CounterStep(c, limits, es[0], p, from);
      CounterIsExact(c, Step(c, limits, es[0]), es[1..], p, from, es[0].time, to);
    }
  }

  lemma CounterStep(c: Config, limits: Limits, e: Event, p: string, from: int)
    requires p in limits && limits[p].lastByteReset == from && from <= e.time <= from + SECOND
    requires p in Step(c, limits, e)
    ensures var next := Step(c, limits, e);
            && next[p].lastByteReset == from
            && next[p].bytes == limits[p].bytes + Sent(c, limits, e, p)
  {
  }

  /** Within a second of starting afresh, and without a deletion, a send goes through exactly when it fits what the
      budget has left after what went through before; so no more than the budget ever does, and all of it can. */
  lemma SendGoesThroughIff(c: Config, limits: Limits, es: seq<Event>, p: string, n: int, from: int, now: int)
    requires es != [] && es[0].time == from && StartsAfresh(limits, p, es[0])
    requires Timed(es, from, now) && now <= from + 1_000_000_000 && Deletions(c, limits, es, p) == 0
    ensures SendBytes(c, Run(c, limits, es), p, n, now).1 <==> ByteCount(c, limits, es, p) + n <= c.maxBytes
  {
    var next := Step(c, limits, es[0]);
    assert p in next && next[p].lastByteReset == from;
    assert next[p].bytes == Sent(c, limits, es[0], p);
    CounterIsExact(c, next, es[1..], p, from, from, now);
  }

  /** And the very first send after a second's silence goes through exactly when it fits the whole budget. */
  lemma FirstSendGoesThroughIff(c: Config, limits: Limits, p: string, n: int, now: int)
    requires p in limits && now - limits[p].lastByteReset > 1_000_000_000
    ensures SendBytes(c, limits, p, n, now).1 <==> n <= c.maxBytes
  {
  }

  /** Between two resets at most the budget goes through: in the second after the last one. */
  lemma OneBudgetPerReset(c: Config, limits: Limits, es: seq<Event>, p: string, from: int, to: int)
    requires BytesOk(c, limits) && SizesOk(es) && Timed(es, from, to) && ClockStarted(from)
    requires p in limits && limits[p].lastByteReset <= from && to <= limits[p].lastByteReset + 1_000_000_000
    requires Deletions(c, limits, es, p) == 0
    ensures ByteCount(c, limits, es, p) <= if c.maxBytes > 0 then c.maxBytes else 0
  {
    BytesWithinRoom(c, limits, es, p, from, to);
  }

  // ---- What a peer gets ----

  /** A drained peer that waits is given back the whole tokens its rate brings in the time, up to the burst: so many
      requests go through and the next one does not. */
  lemma WaitingRefills(c: Config, limits: Limits, p: string, last: int, wait: nat, k: nat)
    requires p in limits && !limits[p].banned && limits[p].tokens == 0 && limits[p].lastRefill == last
    requires wait <= MAX_DURATION && k == (if c.rate * wait / 60_000_000_000 < c.burst
                                           then c.rate * wait / 60_000_000_000 else c.burst)
    requires k > 0
    ensures Count(c, limits, Burst(p, k, last + wait), p) == k
    ensures !Request(c, Run(c, limits, Burst(p, k, last + wait)), p, last + wait).1
  {
    var time := last + wait;
    var started := limits[p := limits[p].(tokens := k, lastRefill := time)];
    var es := Burst(p, k, time);
    assert Refill(c.rate, 0) == 0;
    assert Step(c, limits, es[0]) == Step(c, started, es[0]);
    BurstIsGranted(c, started, p, k, time);
    assert Run(c, limits, es) == Run(c, started, es);
    assert Count(c, limits, es, p) == Count(c, started, es, p);
  }

  /** A banned peer is refused until the ban ends, and one that was new is served a whole burst right after. */
  lemma BanHolds(c: Config, limits: Limits, p: string, duration: int, now: int, later: int)
    requires ClockStarted(now) && now <= later
    ensures later < now + duration ==> !Request(c, Ban(limits, p, duration, now), p, later).1
    ensures later >= now + duration && p !in limits && RefillsBurst(c) && c.burst > 0 ==>
              Request(c, Ban(limits, p, duration, now), p, later).1
              && Request(c, Ban(limits, p, duration, now), p, later).0[p].tokens == c.burst - 1
  {
    if p !in limits && RefillsBurst(c) {
      IdleIsFull(c, Ban(limits, p, duration, now)[p], later);
    }
  }

  /** The fifth refused request in a row bans for ten minutes: no request passes before, whatever the tokens. */
  lemma FifthRefusalBans(c: Config, limits: Limits, p: string, time: int, later: int)
    requires p in limits && !limits[p].banned && limits[p].tokens == 0 && limits[p].lastRefill == time
    requires limits[p].violations == 0 && time <= later < time + 600_000_000_000
    ensures Request(c, Run(c, limits, Burst(p, 4, time)), p, time).0[p].banned
    ensures !Run(c, limits, Burst(p, 4, time))[p].banned
    ensures !Request(c, Run(c, limits, Burst(p, 5, time)), p, later).1
  {
    BurstIsPunished(c, limits, p, 4, time);
    BurstIsPunished(c, limits, p, 5, time);
    assert Refill(c.rate, 0) == 0;
  }

  /** A cleanup deletes exactly the entries without a ban that were last refilled over ten minutes ago. */
  lemma CleanupDeletes(c: Config, limits: Limits, p: string, now: int)
    requires p in limits
    ensures p in Step(c, limits, CleanupEvent(now))
            <==> limits[p].banned || now - limits[p].lastRefill <= 600_000_000_000
    ensures p in Step(c, limits, CleanupEvent(now)) ==> Step(c, limits, CleanupEvent(now))[p] == limits[p]
  {
  }

  /** Three sends in a row that do not fit ban for five minutes. */
  lemma ThirdOverrunBans(c: Config, limits: Limits, p: string, n: int, now: int, later: int)
    requires p in limits && limits[p].violations == 0 && !limits[p].banned
    requires n > c.maxBytes && limits[p].bytes >= 0 && now <= later < now + 300_000_000_000
    ensures !Request(c, Run(c, limits, ThreeSends(p, n, now)), p, later).1
    ensures var twice := Run(c, limits, [BytesEvent(p, n, now), BytesEvent(p, n, now)]);
            p in twice && !twice[p].banned
  {
    var e := BytesEvent(p, n, now);
    RunThree(c, limits, e);
    assert [e, e][1..] == [e] && [e][1..] == [];
    assert Run(c, Step(c, limits, e), [e]) == Step(c, Step(c, limits, e), e);
  }

  /** Two budgets within a nanosecond: the second after a reset is not over at its last nanosecond. */
  lemma TwoBudgetsAtOnce(c: Config, limits: Limits, p: string, reset: int)
    requires p in limits && limits[p].lastByteReset == reset && limits[p].bytes == 0 && c.maxBytes > 0
    ensures var es := [BytesEvent(p, c.maxBytes, reset + 1_000_000_000),
                       BytesEvent(p, c.maxBytes, reset + 1_000_000_001)];
            ByteCount(c, limits, es, p) == 2 * c.maxBytes
  {
    var first, second := BytesEvent(p, c.maxBytes, reset + 1_000_000_000),
                         BytesEvent(p, c.maxBytes, reset + 1_000_000_001);
    assert [first, second][1..] == [second] && [second][1..] == [];
    var next := Step(c, limits, first);
    assert ByteCount(c, next, [second], p) == c.maxBytes + ByteCount(c, Step(c, next, second), [], p);
  }
}
