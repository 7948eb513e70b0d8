/** The fixed-window rate limiter: window arithmetic in nanoseconds and
    milliseconds, and a counter store whose keys expire.

    Clock readings are at or after the Unix epoch and do not decrease, and the
    counter script runs in the millisecond of the reading.  A key is live up to
    and including its expiry millisecond. */
module RateLimit {
  import opened Text

  /** Nanoseconds since the Unix epoch. */
  type Time = nat

  const MILLI := 1_000_000

  datatype Policy = Policy(limit: int, window: int) {
    /** Accepted by the limiter: the window is at least a millisecond. */
    predicate Valid() {
      limit > 0 && window >= MILLI
    }

    /** The window the limiter really uses, in milliseconds. */
    function WindowMs(): (ms: nat)
      requires Valid()
      ensures ms >= 1 && ms * MILLI <= window < (ms + 1) * MILLI
    {
      window / MILLI
    }
  }

  /** The policy of each route. */
  type Policies = string -> Policy

  datatype Call = Call(route: string, client: string, now: Time)

  predicate ValidCall(policies: Policies, call: Call) {
    policies(call.route).Valid() && TrimSpace(call.route) != "" && TrimSpace(call.client) != ""
  }

  function UnixMilli(now: Time): (ms: nat)
    ensures ms * MILLI <= now < (ms + 1) * MILLI
  {
    now / MILLI
  }

  function WindowOf(policy: Policy, now: Time): nat
    requires policy.Valid()
  {
    UnixMilli(now) / policy.WindowMs()
  }

  /** The first millisecond after the window. */
  function EndMs(policy: Policy, window: nat): nat
    requires policy.Valid()
  {
    (window + 1) * policy.WindowMs()
  }

  lemma WindowBounds(policy: Policy, now: Time)
    requires policy.Valid()
    ensures var w := WindowOf(policy, now);
            && EndMs(policy, w) - policy.WindowMs() <= UnixMilli(now) < EndMs(policy, w)
            && now < EndMs(policy, w) * MILLI
  {}

  lemma WindowUnique(policy: Policy, now: Time, w: nat)
    requires policy.Valid()
    requires EndMs(policy, w) - policy.WindowMs() <= UnixMilli(now) < EndMs(policy, w)
    ensures WindowOf(policy, now) == w
  {
    var d := policy.WindowMs();
    assert EndMs(policy, w) == w * d + d;
    DivModUnique(UnixMilli(now), d, w, UnixMilli(now) - w * d);
  }

  lemma WindowMonotone(policy: Policy, a: Time, b: Time)
    requires policy.Valid() && a <= b
    ensures WindowOf(policy, a) <= WindowOf(policy, b)
  {
    WindowBounds(policy, a);
    WindowBounds(policy, b);
    Ordering(policy.WindowMs(), WindowOf(policy, a), WindowOf(policy, b));
  }

  lemma Ordering(d: nat, wa: nat, wb: nat)
    requires d > 0 && (wa + 1) * d - d < (wb + 1) * d
    ensures wa <= wb
  {
    assert (wa - wb) * d < d;
    assert wa - wb >= 1 ==> (wa - wb) * d >= d;
  }

  // ----------------------------------------------------------- the counters

  datatype CounterKey = CounterKey(route: string, client: string, window: nat)

  datatype Counter = Counter(count: nat, expiresMs: int)

  type Store = map<CounterKey, Counter>

  function KeyOf(policies: Policies, call: Call): CounterKey
    requires ValidCall(policies, call)
  {
    CounterKey(call.route, call.client, WindowOf(policies(call.route), call.now))
  }

  /** The time to live the limiter asks for, cut down to milliseconds. */
  function TtlMs(policy: Policy, now: Time): int
    requires policy.Valid()
  {
    Max(EndMs(policy, WindowOf(policy, now)) * MILLI - now, MILLI) / MILLI
  }

  predicate Live(store: Store, key: CounterKey, ms: int) {
    key in store && ms <= store[key].expiresMs
  }

  /** The script: INCR, and PEXPIRE for a new key. */
  function Count(policies: Policies, store: Store, call: Call): Counter
    requires ValidCall(policies, call)
  {
    var key, ms := KeyOf(policies, call), UnixMilli(call.now);
    if Live(store, key, ms)
    then Counter(store[key].count + 1, store[key].expiresMs)
    else Counter(1, ms + TtlMs(policies(call.route), call.now))
  }

  function Tick(policies: Policies, store: Store, call: Call): Store
    requires ValidCall(policies, call)
  {
    store[KeyOf(policies, call) := Count(policies, store, call)]
  }

  datatype Verdict = Verdict(allowed: bool, limit: int, remaining: int, resetAt: int, retryAfter: int)

  datatype LimitError = InvalidPolicy | InvalidClient | StoreFailed

  /** What PTTL answers. */
  function PttlMs(counter: Counter, now: Time): int {
    Max(counter.expiresMs - UnixMilli(now), 0)
  }

  function ResetAt(policy: Policy, counter: Counter, now: Time): int
    requires policy.Valid()
  {
    if PttlMs(counter, now) > 0 then now + PttlMs(counter, now) * MILLI
    else EndMs(policy, WindowOf(policy, now)) * MILLI
  }

  function Judge(policy: Policy, counter: Counter, now: Time): Verdict
    requires policy.Valid()
  {
    var resetAt := ResetAt(policy, counter, now);
    Verdict(counter.count <= policy.limit, policy.limit,
            if counter.count < policy.limit then policy.limit - counter.count else 0,
            resetAt, Max(resetAt - now, MILLI))
  }

  class Limiter {
    var store: Store

    constructor ()
      ensures store == map[]
    {
      store := map[];
    }

    /** `Allow`.  `fails` says whether the store is unreachable, and then whether
        the script had run nevertheless. */
    method Allow(policies: Policies, call: Call, fails: bool, ran: bool) returns (r: Result<Verdict, LimitError>)
      modifies this
      ensures !ValidCall(policies, call) ==>
                && store == old(store)
                && r == Err(if policies(call.route).limit <= 0 || policies(call.route).window <= 0 then InvalidPolicy
                            else if TrimSpace(call.route) == "" || TrimSpace(call.client) == "" then InvalidClient
                            else InvalidPolicy)
      ensures ValidCall(policies, call) ==>
                && store == (if fails && !ran then old(store) else Tick(policies, old(store), call))
                && (fails ==> r == Err(StoreFailed))
                && (!fails ==> r == Ok(Judge(policies(call.route), Count(policies, old(store), call), call.now)))
    {
      var policy := policies(call.route);
      if policy.limit <= 0 || policy.window <= 0 {
        return Err(InvalidPolicy);
      }
      if TrimSpace(call.route) == "" || TrimSpace(call.client) == "" {
        return Err(InvalidClient);
      }
      if policy.window / MILLI <= 0 {
        return Err(InvalidPolicy);
      }
      if fails && !ran {
        return Err(StoreFailed);
      }
      var ms := UnixMilli(call.now);
      var current := ms / policy.WindowMs();
      var ttl := (current + 1) * policy.WindowMs() * MILLI - call.now;
      if ttl < MILLI {
        ttl := MILLI;
      }
      var key := CounterKey(call.route, call.client, current);
      var counter;
      if key in store && ms <= store[key].expiresMs {
        counter := Counter(store[key].count + 1, store[key].expiresMs);
      } else {
        counter := Counter(1, ms + ttl / MILLI);
      }
      store := store[key := counter];
      r := if fails then Err(StoreFailed) else Ok(Judge(policy, counter, call.now));
    }
  }

  // ----------------------------------------------------------- expiry times

  /** Rounding never lets a counter die inside its window, nor live past it by
      more than the closing millisecond. */
  lemma ExpiryNearWindowEnd(policy: Policy, now: Time)
    requires policy.Valid()
    ensures var end := EndMs(policy, WindowOf(policy, now));
            end - 1 <= UnixMilli(now) + TtlMs(policy, now) <= end
  {}

  // -------------------------------------------------------------------- runs

  /** The store answers a call, or drops a key whose time is over. */
  datatype Step = Request(call: Call) | Evict(key: CounterKey, at: Time) {
    function Now(): Time {
      if Request? then call.now else at
    }
  }

  predicate Enabled(policies: Policies, store: Store, step: Step) {
    match step
    case Request(call) => ValidCall(policies, call)
    case Evict(key, at) => key in store && store[key].expiresMs < UnixMilli(at)
  }

  function Apply(policies: Policies, store: Store, step: Step): Store
    requires Enabled(policies, store, step)
  {
    match step
    case Request(call) => Tick(policies, store, call)
    case Evict(key, _) => store - {key}
  }

  /** The latest reading of the clock. */
  function Clock(run: seq<Step>): Time {
    if run == [] then 0 else Last(run).Now()
  }

  /** A run under a clock that never goes back. */
  ghost predicate Legal(policies: Policies, run: seq<Step>)
    decreases |run|, 0
  {
    run == [] ||
    (&& Legal(policies, Init(run))
     && Clock(Init(run)) <= Last(run).Now()
     && Enabled(policies, After(policies, Init(run)), Last(run)))
  }

  ghost function After(policies: Policies, run: seq<Step>): Store
    requires Legal(policies, run)
    decreases |run|, 1
  {
    if run == [] then map[] else Apply(policies, After(policies, Init(run)), Last(run))
  }

  /** The step is a call that counts under the key. */
  predicate Counts(policies: Policies, step: Step, key: CounterKey) {
    step.Request? && ValidCall(policies, step.call) && KeyOf(policies, step.call) == key
  }

  ghost predicate Allows(policies: Policies, store: Store, step: Step) {
    && step.Request? && ValidCall(policies, step.call)
    && Count(policies, store, step.call).count <= policies(step.call.route).limit
  }

  /** How many calls of the run belong to the key. */
  ghost function CallsIn(policies: Policies, run: seq<Step>, key: CounterKey): nat {
    if run == [] then 0 else
    CallsIn(policies, Init(run), key) + if Counts(policies, Last(run), key) then 1 else 0
  }

  ghost function AllowedIn(policies: Policies, run: seq<Step>, key: CounterKey): nat
    requires Legal(policies, run)
  {
    if run == [] then 0 else
    AllowedIn(policies, Init(run), key)
    + if Counts(policies, Last(run), key) && Allows(policies, After(policies, Init(run)), Last(run)) then 1 else 0
  }

  /** A counter in the store is exact; a counter that is gone will not be needed again. */
  ghost predicate CounterOk(policies: Policies, store: Store, clock: Time, calls: nat, key: CounterKey) {
    if key in store then
      && policies(key.route).Valid()
      && store[key].count == calls
      && EndMs(policies(key.route), key.window) - 1 <= store[key].expiresMs <= EndMs(policies(key.route), key.window)
    else
      calls == 0 || (policies(key.route).Valid() && EndMs(policies(key.route), key.window) <= UnixMilli(clock))
  }

  lemma RequestKeepsCounter(policies: Policies, store: Store, clock: Time, calls: nat, key: CounterKey, call: Call)
    requires CounterOk(policies, store, clock, calls, key)
    requires ValidCall(policies, call) && clock <= call.now && KeyOf(policies, call) == key
    ensures Count(policies, store, call).count == calls + 1
    ensures CounterOk(policies, Tick(policies, store, call), call.now, calls + 1, key)
  {
    ExpiryNearWindowEnd(policies(call.route), call.now);
    WindowBounds(policies(call.route), call.now);
    hide TtlMs, Policy.WindowMs, EndMs, UnixMilli, WindowOf;
  }

  lemma OtherStepKeepsCounter(policies: Policies, store: Store, clock: Time, calls: nat, key: CounterKey, step: Step)
    requires CounterOk(policies, store, clock, calls, key)
    requires Enabled(policies, store, step) && clock <= step.Now() && !Counts(policies, step, key)
    ensures CounterOk(policies, Apply(policies, store, step), step.Now(), calls, key)
  {}

  /** For every run, a counter holds the number of calls so far in its window,
      whatever was rounded, clamped or dropped in between. */
  lemma {:induction false} CountersAreExact(policies: Policies, run: seq<Step>, key: CounterKey)
    requires Legal(policies, run)
    ensures CounterOk(policies, After(policies, run), Clock(run), CallsIn(policies, run, key), key)
  {
    if run != [] {
      hide CounterOk;
      CountersAreExact(policies, Init(run), key);
      var store, clock, calls := After(policies, Init(run)), Clock(Init(run)), CallsIn(policies, Init(run), key);
      if Counts(policies, Last(run), key) {
        RequestKeepsCounter(policies, store, clock, calls, key, Last(run).call);
      } else {
        OtherStepKeepsCounter(policies, store, clock, calls, key, Last(run));
      }
    }
  }

  /** The number the limiter judges is the number of calls of the window, this one included. */
  lemma CountIsExact(policies: Policies, run: seq<Step>)
    requires Legal(policies, run) && run != [] && Last(run).Request?
    ensures Count(policies, After(policies, Init(run)), Last(run).call).count
         == CallsIn(policies, run, KeyOf(policies, Last(run).call))
  {
    hide CounterOk, Tick, Count;
    var key := KeyOf(policies, Last(run).call);
    CountersAreExact(policies, Init(run), key);
    RequestKeepsCounter(policies, After(policies, Init(run)), Clock(Init(run)), CallsIn(policies, Init(run), key), key,
                        Last(run).call);
  }

  /** In each window the first `limit` calls are allowed, and no more. */
  lemma {:induction false} AllowedPerWindow(policies: Policies, run: seq<Step>, key: CounterKey)
    requires Legal(policies, run) && policies(key.route).Valid()
    ensures AllowedIn(policies, run, key) == Min(CallsIn(policies, run, key), policies(key.route).limit)
  {
    if run != [] {
      AllowedPerWindow(policies, Init(run), key);
      if Last(run).Request? { CountIsExact(policies, run); }
    }
  }

  // ------------------------------------------------------- sliding intervals

  predicate Between(step: Step, route: string, client: string, lo: int, hi: int) {
    step.Request? && step.call.route == route && step.call.client == client && lo <= step.call.now < hi
  }

  /** Allowed calls of a client with a time in the half-open interval. */
  ghost function AllowedBetween(policies: Policies, run: seq<Step>, route: string, client: string, lo: int, hi: int): nat
    requires Legal(policies, run)
  {
    if run == [] then 0 else
    AllowedBetween(policies, Init(run), route, client, lo, hi)
    + if Between(Last(run), route, client, lo, hi) && Allows(policies, After(policies, Init(run)), Last(run)) then 1 else 0
  }

  /** An interval that only meets two consecutive windows. */
  ghost predicate TwoWindows(policy: Policy, lo: int, hi: int, w: nat)
    requires policy.Valid()
  {
    forall now: Time :: lo <= now < hi ==> WindowOf(policy, now) == w || WindowOf(policy, now) == w + 1
  }

  lemma {:induction false} TwoWindowsBound(policies: Policies, run: seq<Step>, route: string, client: string,
                                           lo: int, hi: int, w: nat)
    requires Legal(policies, run) && policies(route).Valid() && TwoWindows(policies(route), lo, hi, w)
    ensures AllowedBetween(policies, run, route, client, lo, hi)
         <= AllowedIn(policies, run, CounterKey(route, client, w)) + AllowedIn(policies, run, CounterKey(route, client, w + 1))
  {
    if run != [] {
      hide Apply, Count;
      TwoWindowsBound(policies, Init(run), route, client, lo, hi, w);
      if Between(Last(run), route, client, lo, hi) {
        var now: Time := Last(run).call.now;
        assert WindowOf(policies(route), now) == w || WindowOf(policies(route), now) == w + 1;
      }
    }
  }

  /** What is left of the window below a millisecond. */
  function Spare(policy: Policy): nat
    requires policy.Valid()
  {
    policy.window % MILLI
  }

  lemma WindowAtMost(policy: Policy, now: Time, w: nat)
    requires policy.Valid() && now < EndMs(policy, w) * MILLI
    ensures WindowOf(policy, now) <= w
  {
    WindowBounds(policy, now);
    assert UnixMilli(now) < EndMs(policy, w);
    Ordering(policy.WindowMs(), WindowOf(policy, now), w);
  }

  lemma EndsAdd(policy: Policy, w: nat)
    requires policy.Valid()
    ensures EndMs(policy, w + 1) == EndMs(policy, w) + policy.WindowMs()
    ensures policy.window == policy.WindowMs() * MILLI + Spare(policy)
  {}

  /** An interval of the policy's length meets at most two windows when less than
      two nanoseconds of the length were cut off. */
  lemma MeetsTwoWindows(policy: Policy, lo: int) returns (w: nat)
    requires policy.Valid() && Spare(policy) < 2
    ensures TwoWindows(policy, lo, lo + policy.window, w)
  {
    var start: Time := Max(lo, 0);
    w := WindowOf(policy, start);
    WindowBounds(policy, start);
    EndsAdd(policy, w);
    forall now: Time | lo <= now < lo + policy.window
      ensures WindowOf(policy, now) == w || WindowOf(policy, now) == w + 1
    {
      assert now < start + policy.window;
      assert now < EndMs(policy, w + 1) * MILLI;
      WindowAtMost(policy, now, w + 1);
      WindowMonotone(policy, start, now);
    }
  }

  lemma IntervalBound(policies: Policies, run: seq<Step>, route: string, client: string, lo: int)
    requires Legal(policies, run) && policies(route).Valid() && Spare(policies(route)) < 2
    ensures AllowedBetween(policies, run, route, client, lo, lo + policies(route).window) <= 2 * policies(route).limit
  {
    var w := MeetsTwoWindows(policies(route), lo);
    TwoWindowsBound(policies, run, route, client, lo, lo + policies(route).window, w);
    AllowedPerWindow(policies, run, CounterKey(route, client, w));
    AllowedPerWindow(policies, run, CounterKey(route, client, w + 1));
  }

  /** The same call, made again and again in a window not used before. */
  lemma {:induction false} Burst(policies: Policies, run: seq<Step>, call: Call, n: nat) returns (run': seq<Step>)
    requires Legal(policies, run) && ValidCall(policies, call) && Clock(run) <= call.now
    requires CallsIn(policies, run, KeyOf(policies, call)) == 0 && n <= policies(call.route).limit
    ensures Legal(policies, run') && Clock(run') == if n == 0 then Clock(run) else call.now
    ensures CallsIn(policies, run', KeyOf(policies, call)) == n
    ensures forall key :: key != KeyOf(policies, call) ==> CallsIn(policies, run', key) == CallsIn(policies, run, key)
    ensures forall lo, hi :: lo <= call.now < hi ==>
              AllowedBetween(policies, run', call.route, call.client, lo, hi)
                == AllowedBetween(policies, run, call.route, call.client, lo, hi) + n
  {
    if n == 0 {
      run' := run;
    } else {
      var before := Burst(policies, run, call, n - 1);
      run' := before + [Request(call)];
      assert Init(run') == before;
      hide Apply, Count;
      CountIsExact(policies, run');
    }
  }

  ghost predicate AtMostTwice(policies: Policies, run: seq<Step>, route: string, client: string, lo: int)
    requires policies(route).Valid()
  {
    Legal(policies, run) ==>
      AllowedBetween(policies, run, route, client, lo, lo + policies(route).window) <= 2 * policies(route).limit
  }

  /** The bound over every run and every interval. */
  ghost predicate TwiceTheLimit(policies: Policies, route: string, client: string)
    requires policies(route).Valid()
  {
    forall run, lo :: AtMostTwice(policies, run, route, client, lo)
  }

  /** Three bursts within one interval of the policy's length: at the last
      nanosecond of a window, in the next, and in the one after. */
  lemma ThreeBursts(policies: Policies, route: string, client: string) returns (run: seq<Step>, lo: int)
    requires ValidCall(policies, Call(route, client, 0)) && Spare(policies(route)) >= 2
    ensures Legal(policies, run)
    ensures AllowedBetween(policies, run, route, client, lo, lo + policies(route).window) == 3 * policies(route).limit
  {
    var policy := policies(route);
    var size := policy.WindowMs() * MILLI;
    EndsAdd(policy, 0);
    EndsAdd(policy, 1);
    lo := size - 1;
    var hi := lo + policy.window;
    var a, b, c := Call(route, client, size - 1), Call(route, client, size), Call(route, client, 2 * size);
    WindowUnique(policy, a.now, 0);
    WindowUnique(policy, b.now, 1);
    WindowUnique(policy, c.now, 2);
    run := Burst(policies, [], a, policy.limit);
    assert AllowedBetween(policies, run, route, client, lo, hi) == policy.limit;
    run := Burst(policies, run, b, policy.limit);
    assert AllowedBetween(policies, run, route, client, lo, hi) == 2 * policy.limit;
    run := Burst(policies, run, c, policy.limit);
  }

  /** At most twice the limit passes in any half-open interval of the policy's
      length, exactly when the length exceeds whole milliseconds by less than
      two nanoseconds. */
  lemma TwiceTheLimitIff(policies: Policies, route: string, client: string)
    requires ValidCall(policies, Call(route, client, 0))
    ensures TwiceTheLimit(policies, route, client) <==> Spare(policies(route)) < 2
  {
    if Spare(policies(route)) < 2 {
      forall run, lo ensures AtMostTwice(policies, run, route, client, lo) {
        if Legal(policies, run) { IntervalBound(policies, run, route, client, lo); }
      }
    } else {
      var run, lo := ThreeBursts(policies, route, client);
      assert !AtMostTwice(policies, run, route, client, lo);
    }
  }

  // ------------------------------------------------ what the caller is told

  /** The counter a call leaves behind in a run. */
  ghost predicate Reported(policies: Policies, run: seq<Step>, counter: Counter)
    requires Legal(policies, run)
  {
    && run != [] && Last(run).Request?
    && counter == Count(policies, After(policies, Init(run)), Last(run).call)
  }

  lemma ReportedExpiry(policies: Policies, run: seq<Step>, counter: Counter)
    requires Legal(policies, run) && Reported(policies, run, counter)
    ensures var call := Last(run).call;
            var end := EndMs(policies(call.route), WindowOf(policies(call.route), call.now));
            counter.expiresMs == end - 1 || counter.expiresMs == end
  {
    var call := Last(run).call;
    var key := KeyOf(policies, call);
    CountersAreExact(policies, Init(run), key);
    RequestKeepsCounter(policies, After(policies, Init(run)), Clock(Init(run)), CallsIn(policies, Init(run), key), key, call);
  }

  /** The Retry-After header: whole seconds, rounded up, at least one. */
  function RetryAfterSeconds(retryAfter: int): int {
    Max((retryAfter + 999_999_999) / 1_000_000_000, 1)
  }

  /** Judging a counter that expires at the window's end or a millisecond before it:
      the reported reset is within a millisecond of the window's end, the wait is
      between a millisecond and the window, and a client that waits for the header's
      seconds and one millisecond more is in a later window. */
  lemma VerdictIsTimely(policy: Policy, counter: Counter, now: Time)
    requires policy.Valid()
    requires counter.expiresMs == EndMs(policy, WindowOf(policy, now)) - 1
          || counter.expiresMs == EndMs(policy, WindowOf(policy, now))
    ensures var v, end := Judge(policy, counter, now), EndMs(policy, WindowOf(policy, now)) * MILLI;
            && end - MILLI <= v.resetAt <= end + MILLI
            && MILLI <= v.retryAfter <= policy.window
            && end <= now + RetryAfterSeconds(v.retryAfter) * 1_000_000_000 + MILLI
  {}

  /** ... over every run. */
  lemma ReportsAreTimely(policies: Policies, run: seq<Step>, counter: Counter)
    requires Legal(policies, run) && Reported(policies, run, counter)
    ensures var call := Last(run).call;
            var policy := policies(call.route);
            var v, end := Judge(policy, counter, call.now), EndMs(policy, WindowOf(policy, call.now)) * MILLI;
            && end - MILLI <= v.resetAt <= end + MILLI
            && MILLI <= v.retryAfter <= policy.window
            && end <= call.now + RetryAfterSeconds(v.retryAfter) * 1_000_000_000 + MILLI
  {
    ReportedExpiry(policies, run, counter);
    VerdictIsTimely(policies(Last(run).call.route), counter, Last(run).call.now);
  }

  /** The verdict of a call in a run: it passes exactly while the window's calls,
      this one included, are within the limit; what remains is the rest of it; and
      the reset is when the counter expires or, in its last millisecond, when the
      window ends. */
  lemma VerdictIsExact(policies: Policies, run: seq<Step>, counter: Counter)
    requires Legal(policies, run) && Reported(policies, run, counter)
    ensures var call := Last(run).call;
            var limit, calls := policies(call.route).limit, CallsIn(policies, run, KeyOf(policies, call));
            var v := Judge(policies(call.route), counter, call.now);
            var left := counter.expiresMs - UnixMilli(call.now);
            && (v.allowed <==> calls <= limit) && v.limit == limit && v.remaining == Max(limit - calls, 0)
            && v.resetAt == (if left > 0 then call.now + left * 1_000_000
                             else EndMs(policies(call.route), WindowOf(policies(call.route), call.now)) * 1_000_000)
            && v.retryAfter == Max(v.resetAt - call.now, 1_000_000)
  {
    LastCall(policies, run, counter);
    CountIsExact(policies, run);
    hide Legal, After, CallsIn, KeyOf, EndMs, WindowOf, UnixMilli;
  }

  /** The key expires a millisecond early exactly when it was made with a fraction
      of a millisecond, and not in the window's last millisecond. */
  lemma ExpiryIsEarlyIff(policy: Policy, now: Time)
    requires policy.Valid()
    ensures var end := EndMs(policy, WindowOf(policy, now));
            UnixMilli(now) + TtlMs(policy, now) == if now % MILLI != 0 && UnixMilli(now) < end - 1 then end - 1 else end
  {
    WindowBounds(policy, now);
    hide Policy.WindowMs, EndMs, WindowOf;
    var ms, end := UnixMilli(now), EndMs(policy, WindowOf(policy, now));
    var ttl := end * MILLI - now;
    if ttl >= MILLI && now % MILLI != 0 {
      DivModUnique(ttl, MILLI, end - ms - 1, MILLI - now % MILLI);
    } else if ttl >= MILLI {
      DivModUnique(ttl, MILLI, end - ms, 0);
    }
  }

  /** When the first call of the window was made. */
  ghost function FirstIn(policies: Policies, run: seq<Step>, key: CounterKey): Time
    requires CallsIn(policies, run, key) > 0
  {
    if CallsIn(policies, Init(run), key) > 0 then FirstIn(policies, Init(run), key) else Last(run).call.now
  }

  /** The key's expiry was set by the first call of its window. */
  ghost predicate SetByFirst(policies: Policies, run: seq<Step>, key: CounterKey)
    requires Legal(policies, run)
  {
    && (CallsIn(policies, run, key) > 0 ==>
          && policies(key.route).Valid() && FirstIn(policies, run, key) <= Clock(run)
          && WindowOf(policies(key.route), FirstIn(policies, run, key)) == key.window)
    && (key in After(policies, run) ==>
          && CallsIn(policies, run, key) > 0
          && After(policies, run)[key].expiresMs
             == UnixMilli(FirstIn(policies, run, key)) + TtlMs(policies(key.route), FirstIn(policies, run, key)))
  }

  /** A call finds the key alive unless it is the first of its window. */
  lemma AliveUnlessFirst(policies: Policies, run: seq<Step>, call: Call)
    requires Legal(policies, run) && ValidCall(policies, call) && Clock(run) <= call.now
    requires SetByFirst(policies, run, KeyOf(policies, call))
    ensures Live(After(policies, run), KeyOf(policies, call), UnixMilli(call.now))
       <==> CallsIn(policies, run, KeyOf(policies, call)) > 0
  {
    hide Legal, After, CallsIn;
    CountersAreExact(policies, run, KeyOf(policies, call));
    WindowBounds(policies(call.route), call.now);
    hide EndMs, WindowOf, TtlMs, Policy.WindowMs;
  }

  lemma {:induction false} FirstSets(policies: Policies, run: seq<Step>, key: CounterKey)
    requires Legal(policies, run)
    ensures SetByFirst(policies, run, key)
  {
    if run != [] {
      hide TtlMs, WindowOf, UnixMilli, Policy.Valid;
      FirstSets(policies, Init(run), key);
      if Counts(policies, Last(run), key) { AliveUnlessFirst(policies, Init(run), Last(run).call); }
    }
  }

  lemma LastCall(policies: Policies, run: seq<Step>, counter: Counter)
    requires Legal(policies, run) && Reported(policies, run, counter)
    ensures ValidCall(policies, Last(run).call) && Clock(run) == Last(run).call.now
    ensures KeyOf(policies, Last(run).call) in After(policies, run)
    ensures After(policies, run)[KeyOf(policies, Last(run).call)] == counter
    ensures CallsIn(policies, run, KeyOf(policies, Last(run).call)) > 0
  {
    hide Count, KeyOf;
  }

  /** Waiting for the header's seconds reaches a later window, given when the key
      expires: one case falls short. */
  lemma WaitingIsEnoughFor(policy: Policy, counter: Counter, now: Time)
    requires policy.Valid()
    requires counter.expiresMs == EndMs(policy, WindowOf(policy, now)) - 1
          || counter.expiresMs == EndMs(policy, WindowOf(policy, now))
    ensures var v, end := Judge(policy, counter, now), EndMs(policy, WindowOf(policy, now));
            (end * MILLI <= now + RetryAfterSeconds(v.retryAfter) * 1_000_000_000
             <==> !(counter.expiresMs == end - 1 && UnixMilli(now) < end - 1 && (end - 1 - UnixMilli(now)) % 1000 == 0))
  {
    WindowBounds(policy, now);
    hide WindowOf, EndMs, Policy.WindowMs;
  }

  /** Over every run: a client that waits for the header's seconds after a call is
      in a later window, unless the first call of the window came with a fraction
      of a millisecond and this one is a whole number of seconds before the
      window's last millisecond. */
  lemma WaitingIsEnoughIff(policies: Policies, run: seq<Step>, counter: Counter)
    requires Legal(policies, run) && Reported(policies, run, counter)
    ensures CallsIn(policies, run, KeyOf(policies, Last(run).call)) > 0
    ensures var call := Last(run).call;
            var policy, first := policies(call.route), FirstIn(policies, run, KeyOf(policies, call));
            var v, end := Judge(policy, counter, call.now), EndMs(policy, WindowOf(policy, call.now));
            var left := end - 1 - UnixMilli(call.now);
            (end * MILLI <= call.now + RetryAfterSeconds(v.retryAfter) * 1_000_000_000
             <==> !(first % MILLI != 0 && left > 0 && left % 1000 == 0))
  {
    LastCall(policies, run, counter);
    hide Legal, After, CallsIn, FirstIn, Judge, TtlMs, Policy.WindowMs, EndMs, WindowOf;
    var call := Last(run).call;
    var key, policy := KeyOf(policies, call), policies(call.route);
    FirstSets(policies, run, key);
    var first := FirstIn(policies, run, key);
    ExpiryIsEarlyIff(policy, first);
    WaitingIsEnoughFor(policy, counter, call.now);
  }

  function TwoSeconds(route: string): Policy {
    Policy(1, 2_000 * MILLI)
  }

  lemma FirstExampleCall()
    ensures ValidCall(TwoSeconds, Call("r", "c", 500_000))
    ensures Tick(TwoSeconds, map[], Call("r", "c", 500_000)) == map[CounterKey("r", "c", 0) := Counter(1, 1999)]
  {}

  lemma SecondExampleCall()
    ensures ValidCall(TwoSeconds, Call("r", "c", 999_000_000))
    ensures Count(TwoSeconds, map[CounterKey("r", "c", 0) := Counter(1, 1999)], Call("r", "c", 999_000_000))
         == Counter(2, 1999)
    ensures Judge(TwoSeconds("r"), Counter(2, 1999), 999_000_000)
         == Verdict(false, 1, 0, 1_999_000_000, 1_000_000_000)
    ensures WindowOf(TwoSeconds("r"), 1_999_000_000) == WindowOf(TwoSeconds("r"), 999_000_000) == 0
  {}

  /** Two seconds, one call: the first call, half a millisecond into the window,
      lets the key expire at 1999 ms; a refused call at 999 ms is told to wait one
      second, and that is still the same window. */
  lemma WaitingFallsShort()
    ensures var first, second := Call("r", "c", 500_000), Call("r", "c", 999_000_000);
            && Legal(TwoSeconds, [Request(first)]) && ValidCall(TwoSeconds, second)
            && (var counter := Count(TwoSeconds, After(TwoSeconds, [Request(first)]), second);
                var v := Judge(TwoSeconds("r"), counter, second.now);
                && !v.allowed && RetryAfterSeconds(v.retryAfter) == 1
                && WindowOf(TwoSeconds("r"), second.now + 1_000_000_000) == WindowOf(TwoSeconds("r"), second.now))
  {
    hide Legal, After, ValidCall, Count, Tick, Judge, WindowOf;
    FirstExampleCall();
    SecondExampleCall();
    OneCall(TwoSeconds, Call("r", "c", 500_000));
  }

  lemma OneCall(policies: Policies, call: Call)
    requires ValidCall(policies, call)
    ensures Legal(policies, [Request(call)]) && After(policies, [Request(call)]) == Tick(policies, map[], call)
  {
    var run := [Request(call)];
    assert Init(run) == [] && Last(run) == Request(call);
    assert Legal(policies, Init(run)) && After(policies, Init(run)) == map[];
  }
}
