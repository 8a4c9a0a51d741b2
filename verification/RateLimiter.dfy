// Limiting and sampling firewall log entries (plugins/core/firewall/capture.go, parser.go).
module RateLimiter {
  import opened FirewallConfig

  // Time is a monotonic clock in nanoseconds.
  const SECOND := 1_000_000_000

  datatype Limiter = Limiter(maxPerSec: int, tokens: int, lastReset: int)

  // One call at time `now`: the bucket is refilled when a second has passed since the last refill.
  function Refilled(l: Limiter, now: int): Limiter {
    if now - l.lastReset >= SECOND then l.(tokens := l.maxPerSec, lastReset := now) else l
  }

  function Allows(l: Limiter, now: int): bool {
    l.maxPerSec <= 0 || Refilled(l, now).tokens > 0
  }

  function After(l: Limiter, now: int): Limiter {
    if l.maxPerSec <= 0 then l
    else
      var r := Refilled(l, now);
      if r.tokens > 0 then r.(tokens := r.tokens - 1) else r
  }

  // How many of the calls at these times are allowed.
  function Allowed(l: Limiter, times: seq<int>): nat
    decreases |times|
  {
    if times == [] then 0
    else (if Allows(l, times[0]) then 1 else 0) + Allowed(After(l, times[0]), times[1..])
  }

  function Final(l: Limiter, times: seq<int>): Limiter
    decreases |times|
  {
    if times == [] then l else Final(After(l, times[0]), times[1..])
  }

  // The calls made in the interval [a, b] that are allowed.
  function AllowedIn(l: Limiter, times: seq<int>, a: int, b: int): nat
    decreases |times|
  {
    if times == [] then 0
    else
      (if a <= times[0] <= b && Allows(l, times[0]) then 1 else 0) + AllowedIn(After(l, times[0]), times[1..], a, b)
  }

  ghost predicate Ordered(times: seq<int>) {
    forall i, j | 0 <= i < j < |times| :: times[i] <= times[j]
  }

  ghost predicate Sound(l: Limiter) {
    l.maxPerSec > 0 && 0 <= l.tokens <= l.maxPerSec
  }

  // Refills still possible up to time b, once the last one is at `last`.
  function RefillsUntil(last: int, b: int): int {
    if b < last then 0 else (b - last) / SECOND
  }

  lemma RefillCounts(last: int, now: int, b: int)
    requires now - last >= SECOND && now <= b
    ensures RefillsUntil(now, b) + 1 <= RefillsUntil(last, b)
  {
    assert (b - now + SECOND) / SECOND == (b - now) / SECOND + 1;
    DivMonotone(b - now + SECOND, b - last);
  }

  lemma DivMonotone(x: int, y: int)
    requires x <= y
    ensures x / SECOND <= y / SECOND
  {
  }

  // What is left to spend up to time b: the tokens held and what refills bring.
  function Budget(l: Limiter, b: int): int {
    l.tokens + l.maxPerSec * RefillsUntil(l.lastReset, b)
  }

  lemma OneCallSpends(l: Limiter, now: int, b: int)
    requires Sound(l) && now <= b
    ensures Sound(After(l, now)) && After(l, now).maxPerSec == l.maxPerSec
    ensures Budget(After(l, now), b) + (if Allows(l, now) then 1 else 0) <= Budget(l, b)
  {
    if now - l.lastReset >= SECOND {
      RefillCounts(l.lastReset, now, b);
      var x, y := RefillsUntil(now, b), RefillsUntil(l.lastReset, b);
      MulMonotone(l.maxPerSec, x + 1, y);
      MulMonotone(l.maxPerSec, x, x);
      assert After(l, now) == Limiter(l.maxPerSec, l.maxPerSec - 1, now);
    }
  }

  lemma {:induction false} SpendsTokensAndRefills(l: Limiter, times: seq<int>, b: int)
    requires Sound(l) && forall t <- times :: t <= b
    ensures Allowed(l, times) <= Budget(l, b)
    decreases |times|
  {
    if times == [] {
      if b >= l.lastReset { DivMonotone(0, b - l.lastReset); }
      MulMonotone(l.maxPerSec, 0, RefillsUntil(l.lastReset, b));
    } else {
      assert times[0] in times && forall t <- times[1..] :: t in times;
      OneCallSpends(l, times[0], b);
      SpendsTokensAndRefills(After(l, times[0]), times[1..], b);
    }
  }

  lemma MulMonotone(m: int, x: int, y: int)
    requires m >= 0 && x <= y
    ensures m * x <= m * y && m * (x + 1) == m * x + m
  {
  }

  // Within [a, b] the bucket can be refilled once and then once per second.
  lemma {:induction false} AllowedWithin(l: Limiter, times: seq<int>, a: int, b: int)
    requires Sound(l) && a <= b && forall t <- times :: a <= t <= b
    ensures Allowed(l, times) <= l.tokens + l.maxPerSec * ((b - a) / SECOND + 1)
    decreases |times|
  {
    var m, bound := l.maxPerSec, (b - a) / SECOND;
    if times == [] {
      MulMonotone(m, 0, bound + 1);
    } else {
      var now, next := times[0], After(l, times[0]);
      assert now in times && forall t <- times[1..] :: t in times;
      if now - l.lastReset >= SECOND {
        SpendsTokensAndRefills(next, times[1..], b);
        DivMonotone(b - now, b - a);
        assert next.lastReset == now && next.tokens == m - 1;
        MulMonotone(m, RefillsUntil(now, b), bound);
        MulMonotone(m, bound, bound);
      } else {
        AllowedWithin(next, times[1..], a, b);
      }
    }
  }

  // The calls of an ordered trace that lie in [a, b] are consecutive.
  lemma {:induction false} AllowedInIsAllowed(l: Limiter, times: seq<int>, a: int, b: int) returns (m: Limiter, middle: seq<int>)
    requires Ordered(times) && Sound(l)
    ensures Sound(m) && m.maxPerSec == l.maxPerSec && (forall t <- middle :: a <= t <= b)
    ensures AllowedIn(l, times, a, b) == Allowed(m, middle)
    ensures times != [] && times[0] >= a ==> m == l
    ensures times != [] && times[0] >= a && middle != [] ==> middle[0] == times[0]
    decreases |times|
  {
    if times == [] {
      m, middle := l, [];
    } else {
      var rest := times[1..];
      forall i, j | 0 <= i < j < |rest| ensures rest[i] <= rest[j] { assert times[i + 1] <= times[j + 1]; }
      if times[0] > b {
        NothingAfter(l, times, a, b);
        m, middle := l, [];
      } else if times[0] < a {
        m, middle := AllowedInIsAllowed(After(l, times[0]), rest, a, b);
      } else {
        var m1, mid1 := AllowedInIsAllowed(After(l, times[0]), rest, a, b);
        if rest != [] {
          assert rest[0] == times[1] && times[0] <= times[1];
          m, middle := l, [times[0]] + mid1;
          assert middle[1..] == mid1;
        } else {
          m, middle := l, [times[0]];
          assert middle[1..] == [];
        }
      }
    }
  }

  lemma {:induction false} NothingAfter(l: Limiter, times: seq<int>, a: int, b: int)
    requires Ordered(times) && (times != [] ==> times[0] > b)
    ensures AllowedIn(l, times, a, b) == 0
    decreases |times|
  {
    if times != [] {
      var rest := times[1..];
      if rest != [] { assert rest[0] == times[1] >= times[0]; }
      forall i, j | 0 <= i < j < |rest| ensures rest[i] <= rest[j] { assert times[i + 1] <= times[j + 1]; }
      NothingAfter(After(l, times[0]), rest, a, b);
    }
  }

  // Over any trace and any interval, the limiter allows at most maxPerSec calls for every second
  // begun in the interval, and maxPerSec more.
  lemma RateBound(l: Limiter, times: seq<int>, a: int, b: int)
    requires Sound(l) && Ordered(times) && a <= b
    ensures AllowedIn(l, times, a, b) <= l.maxPerSec * ((b - a) / SECOND + 2)
  {
    var m, middle := AllowedInIsAllowed(l, times, a, b);
    AllowedWithin(m, middle, a, b);
    MulMonotone(l.maxPerSec, (b - a) / SECOND + 1, (b - a) / SECOND + 1);
    assert l.maxPerSec * ((b - a) / SECOND + 2) == l.maxPerSec * ((b - a) / SECOND + 1 + 1);
  }

  function Burst(n: nat, t: int): seq<int> {
    if n == 0 then [] else [t] + Burst(n - 1, t)
  }

  // Calls at one time, as long as tokens last and before the next refill.
  lemma {:induction false} BurstPasses(l: Limiter, n: nat, t: int, rest: seq<int>, a: int, b: int)
    requires Sound(l) && n <= l.tokens && t - l.lastReset < SECOND && a <= t <= b
    ensures AllowedIn(l, Burst(n, t) + rest, a, b) == n + AllowedIn(l.(tokens := l.tokens - n), rest, a, b)
    decreases n
  {
    if n == 0 {
      assert [] + rest == rest;
    } else {
      assert (Burst(n, t) + rest)[1..] == Burst(n - 1, t) + rest;
      BurstPasses(l.(tokens := l.tokens - 1), n - 1, t, rest, a, b);
    }
  }

  // The bound is met, whatever the rate: a full bucket is emptied just before it is refilled, and
  // again right after, which is twice the rate within an interval of less than a second.
  lemma RateBoundIsTight(maxPerSec: nat)
    requires maxPerSec > 0
    ensures AllowedIn(Limiter(maxPerSec, maxPerSec, 0), Burst(maxPerSec, 999_999_999) + Burst(maxPerSec, 1_000_000_000),
                      999_999_999, 1_000_000_000) == 2 * maxPerSec
  {
    var a, b, n := 999_999_999, 1_000_000_000, maxPerSec;
    BurstPasses(Limiter(n, n, 0), n, a, Burst(n, b), a, b);
    RefilledBurst(n, a, b);
  }

  lemma RefilledBurst(n: nat, a: int, b: int)
    requires n > 0 && a <= b && b >= SECOND
    ensures AllowedIn(Limiter(n, 0, 0), Burst(n, b), a, b) == n
  {
    assert After(Limiter(n, 0, 0), b) == Limiter(n, n - 1, b) && Burst(n, b)[1..] == Burst(n - 1, b);
    BurstPasses(Limiter(n, n - 1, b), n - 1, b, [], a, b);
    assert Burst(n - 1, b) + [] == Burst(n - 1, b);
  }

  // Without a rate nothing is refused.
  lemma {:induction false} NoRateNoLimit(l: Limiter, times: seq<int>)
    requires l.maxPerSec <= 0
    ensures Allowed(l, times) == |times|
    decreases |times|
  {
    if times != [] { NoRateNoLimit(l, times[1..]); }
  }

  // What has been spent since the last refill counts for a second.
  lemma {:induction false} SpentBeforeRefusal(l: Limiter, times: seq<int>, t: int)
    requires Sound(l) && Ordered(times) && (times != [] ==> l.lastReset <= times[0]) && forall x <- times :: x <= t
    requires !Allows(Final(l, times), t)
    ensures AllowedIn(l, times, t - SECOND + 1, t) + (if l.lastReset > t - SECOND then l.maxPerSec - l.tokens else 0) >= l.maxPerSec
    decreases |times|
  {
    if times != [] {
      var now, rest := times[0], times[1..];
      assert now in times && forall x <- rest :: x in times;
      forall i, j | 0 <= i < j < |rest| ensures rest[i] <= rest[j] { assert times[i + 1] <= times[j + 1]; }
      if rest != [] { assert rest[0] == times[1] >= times[0]; }
      SpentBeforeRefusal(After(l, now), rest, t);
    }
  }

  // A call is refused only if the full rate has been allowed within the second before it.
  lemma RefusedOnlyAtTheRate(maxPerSec: int, start: int, times: seq<int>, t: int)
    requires maxPerSec > 0 && Ordered([start] + times + [t])
    requires !Allows(Final(Limiter(maxPerSec, maxPerSec, start), times), t)
    ensures AllowedIn(Limiter(maxPerSec, maxPerSec, start), times, t - 999_999_999, t) >= maxPerSec
  {
    var all := [start] + times + [t];
    assert all[0] == start && all[|all| - 1] == t && forall i | 0 <= i < |times| :: times[i] == all[i + 1];
    assert times != [] ==> all[0] <= all[1];
    forall x | x in times ensures x <= t {
      var i :| 0 <= i < |times| && times[i] == x;
      assert all[i + 1] <= all[|all| - 1];
    }
    forall i, j | 0 <= i < j < |times| ensures times[i] <= times[j] { assert all[i + 1] <= all[j + 1]; }
    SpentBeforeRefusal(Limiter(maxPerSec, maxPerSec, start), times, t);
  }

  // ----- sampling -----

  predicate ApplySampling(counter: int, rate: int) {
    if rate <= 1 then true else counter % rate == 0
  }

  // How many of the entries numbered 1 to n pass.
  function Sampled(n: nat, rate: int): nat {
    if n == 0 then 0 else Sampled(n - 1, rate) + if ApplySampling(n, rate) then 1 else 0
  }

  // One entry in `rate` passes, exactly.
  lemma {:induction false} SamplesExactly(n: nat, rate: int)
    requires rate >= 1
    ensures Sampled(n, rate) == n / rate
  {
    if n > 0 {
      SamplesExactly(n - 1, rate);
      if rate > 1 { DivStep(n, rate); }
    }
  }

  lemma DivStep(n: int, k: int)
    requires n > 0 && k > 1
    ensures n / k == (n - 1) / k + if n % k == 0 then 1 else 0
  {
    var q, r := (n - 1) / k, (n - 1) % k;
    assert n - 1 == q * k + r;
    if r == k - 1 {
      assert n == (q + 1) * k by { assert (q + 1) * k == q * k + k; }
      DivUnique(n, k, q + 1, 0);
    } else {
      DivUnique(n, k, q, r + 1);
    }
  }

  lemma DivUnique(n: int, k: int, q: int, r: int)
    requires k > 0 && n == q * k + r && 0 <= r < k
    ensures n / k == q && n % k == r
  {
    var q', r' := n / k, n % k;
    assert n == q' * k + r' && 0 <= r' < k;
    if q > q' { StepMultiple(q', q, k); }
    if q < q' { StepMultiple(q, q', k); }
  }

  lemma StepMultiple(x: int, y: int, k: int)
    requires x < y && k > 0
    ensures x * k + k <= y * k
  {
    var d := y - x - 1;
    assert d * k >= 0;
    assert y * k == (x + 1 + d) * k == x * k + k + d * k;
  }

  // ----- the pipeline -----

  class TokenBucket {
    const maxPerSec: int
    var tokens: int
    var lastReset: int

    constructor (maxPerSec: int, now: int)
      ensures State() == Limiter(maxPerSec, maxPerSec, now)
    {
      this.maxPerSec, tokens, lastReset := maxPerSec, maxPerSec, now;
    }

    function State(): Limiter
      reads this
    {
      Limiter(maxPerSec, tokens, lastReset)
    }

    method Allow(now: int) returns (allowed: bool)
      modifies this
      ensures allowed == Allows(old(State()), now) && State() == After(old(State()), now)
      ensures maxPerSec <= 0 ==> allowed && tokens == old(tokens) && lastReset == old(lastReset)
      ensures maxPerSec > 0 ==>
                var due := now - old(lastReset) >= 1_000_000_000;
                var held := if due then maxPerSec else old(tokens);
                && (allowed <==> held > 0)
                && tokens == (if allowed then held - 1 else held) && lastReset == (if due then now else old(lastReset))
    {
      if maxPerSec <= 0 { return true; }
      if now - lastReset >= SECOND { tokens, lastReset := maxPerSec, now; }
      if tokens > 0 {
        tokens := tokens - 1;
        return true;
      }
      allowed := false;
    }
  }

  // An entry that was parsed, with its action, its arrival time and whether the database takes it.
  datatype Entry = Entry(accepted: bool, now: int, insertable: bool)

  predicate ShouldLogEntry(e: Entry, l: LoggingConfig) {
    l.enabled && if e.accepted then l.logAccepts else l.logDrops
  }

  // The arrival times of the entries that get as far as the limiter, of those wanted at all.
  function Offered(es: seq<Entry>, l: LoggingConfig, counter: nat, rate: int): seq<int>
    decreases |es|
  {
    if es == [] then []
    else if !ShouldLogEntry(es[0], l) then Offered(es[1..], l, counter, rate)
    else (if ApplySampling(counter + 1, rate) then [es[0].now] else []) + Offered(es[1..], l, counter + 1, rate)
  }

  function Wanted(es: seq<Entry>, l: LoggingConfig): nat
    decreases |es|
  {
    if es == [] then 0 else (if ShouldLogEntry(es[0], l) then 1 else 0) + Wanted(es[1..], l)
  }

  lemma {:induction false} OfferedCount(es: seq<Entry>, l: LoggingConfig, counter: nat, rate: int)
    requires rate >= 1
    ensures |Offered(es, l, counter, rate)| == Sampled(counter + Wanted(es, l), rate) - Sampled(counter, rate)
    decreases |es|
  {
    if es != [] {
      if ShouldLogEntry(es[0], l) {
        OfferedCount(es[1..], l, counter + 1, rate);
        assert counter + Wanted(es, l) == counter + 1 + Wanted(es[1..], l);
      } else {
        OfferedCount(es[1..], l, counter, rate);
      }
    }
  }

  // The limiter is asked about exactly one in `rate` of the entries the configuration wants logged.
  lemma OfferedIsSampled(es: seq<Entry>, l: LoggingConfig, rate: int)
    requires rate >= 1
    ensures |Offered(es, l, 0, rate)| == Wanted(es, l) / rate
  {
    OfferedCount(es, l, 0, rate);
    SamplesExactly(Wanted(es, l), rate);
  }

  // The entries that get as far as the database.
  function Passed(es: seq<Entry>, l: LoggingConfig, counter: nat, rate: int, limiter: Limiter): seq<Entry>
    decreases |es|
  {
    if es == [] then []
    else if !ShouldLogEntry(es[0], l) then Passed(es[1..], l, counter, rate, limiter)
    else if !ApplySampling(counter + 1, rate) then Passed(es[1..], l, counter + 1, rate, limiter)
    else
      (if Allows(limiter, es[0].now) then [es[0]] else []) + Passed(es[1..], l, counter + 1, rate, After(limiter, es[0].now))
  }

  // They are as many as the limiter allows of the entries offered to it.
  lemma {:induction false} PassedAreAllowed(es: seq<Entry>, l: LoggingConfig, counter: nat, rate: int, limiter: Limiter)
    ensures |Passed(es, l, counter, rate, limiter)| == Allowed(limiter, Offered(es, l, counter, rate))
    decreases |es|
  {
    if es != [] {
      if !ShouldLogEntry(es[0], l) {
        PassedAreAllowed(es[1..], l, counter, rate, limiter);
      } else if !ApplySampling(counter + 1, rate) {
        PassedAreAllowed(es[1..], l, counter + 1, rate, limiter);
        assert Offered(es, l, counter, rate) == Offered(es[1..], l, counter + 1, rate);
      } else {
        PassedAreAllowed(es[1..], l, counter + 1, rate, After(limiter, es[0].now));
        assert Offered(es, l, counter, rate)[1..] == Offered(es[1..], l, counter + 1, rate);
      }
    }
  }

  // The entries that end up in the database.
  function Stored(es: seq<Entry>): nat
    decreases |es|
  {
    if es == [] then 0 else (if es[0].insertable then 1 else 0) + Stored(es[1..])
  }

  class LogCapture {
    const config: LoggingConfig
    const samplingRate: int
    const rateLimiter: TokenBucket
    var samplingCounter: nat
    var inserted: nat

    constructor (config: LoggingConfig, samplingRate: int, rateLimitPerSec: int, now: int)
      ensures fresh(rateLimiter) && samplingCounter == 0 && inserted == 0
      ensures this.config == config && this.samplingRate == samplingRate
      ensures rateLimiter.State() == Limiter(rateLimitPerSec, rateLimitPerSec, now)
    {
      this.config, this.samplingRate, samplingCounter, inserted := config, samplingRate, 0, 0;
      this.rateLimiter := new TokenBucket(rateLimitPerSec, now);
    }

    // A failing insert is passed over; its token is spent.
    method Process(e: Entry)
      modifies this, rateLimiter
      ensures samplingCounter == old(samplingCounter) + if ShouldLogEntry(e, config) then 1 else 0
      ensures var wanted := config.enabled && if e.accepted then config.logAccepts else config.logDrops;
              var passes := wanted && (samplingRate <= 1 || (old(samplingCounter) + 1) % samplingRate == 0);
              && samplingCounter == old(samplingCounter) + (if wanted then 1 else 0)
              && (!passes ==> rateLimiter.State() == old(rateLimiter.State()))
              && inserted == old(inserted) + if passes && Allows(old(rateLimiter.State()), e.now) && e.insertable then 1 else 0
      ensures var offered := ShouldLogEntry(e, config) && ApplySampling(samplingCounter, samplingRate);
              && rateLimiter.State() == (if offered then After(old(rateLimiter.State()), e.now) else old(rateLimiter.State()))
              && inserted == old(inserted) + if offered && Allows(old(rateLimiter.State()), e.now) && e.insertable then 1 else 0
    {
      if !ShouldLogEntry(e, config) { return; }
      samplingCounter := samplingCounter + 1;
      if !ApplySampling(samplingCounter, samplingRate) { return; }
      var allowed := rateLimiter.Allow(e.now);
      if !allowed { return; }
      if e.insertable { inserted := inserted + 1; }
    }

    // A whole stream: stored is what the database takes of the sampled entries the limiter allows.
    method ProcessAll(es: seq<Entry>)
      requires samplingCounter == 0
      modifies this, rateLimiter
      ensures inserted == old(inserted) + Stored(Passed(es, config, 0, samplingRate, old(rateLimiter.State())))
    {
      ghost var start := rateLimiter.State();
      for i := 0 to |es|
        invariant inserted + Stored(Passed(es[i..], config, samplingCounter, samplingRate, rateLimiter.State())) ==
                  old(inserted) + Stored(Passed(es, config, 0, samplingRate, start))
      {
        assert es[i..][0] == es[i] && es[i..][1..] == es[i + 1..];
        StoredStep(es[i..], config, samplingCounter, samplingRate, rateLimiter.State());
        Process(es[i]);
      }
    }
  }

  lemma StoredStep(es: seq<Entry>, l: LoggingConfig, counter: nat, rate: int, limiter: Limiter)
    requires es != []
    ensures var wanted := ShouldLogEntry(es[0], l);
            var offered := wanted && ApplySampling(counter + 1, rate);
            Stored(Passed(es, l, counter, rate, limiter)) ==
            (if offered && Allows(limiter, es[0].now) && es[0].insertable then 1 else 0) +
            Stored(Passed(es[1..], l, if wanted then counter + 1 else counter, rate,
                          if offered then After(limiter, es[0].now) else limiter))
  {
    if ShouldLogEntry(es[0], l) && ApplySampling(counter + 1, rate) {
      var rest := Passed(es[1..], l, counter + 1, rate, After(limiter, es[0].now));
      assert ([es[0]] + rest)[1..] == rest && [] + rest == rest;
    }
  }
}
