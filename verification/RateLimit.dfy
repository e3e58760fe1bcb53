/** The token bucket of rust/src/rate_limit.rs.

    A bucket keeps one entry per key, refills it lazily, and evicts idle entries only when a new key
    arrives at a full table.  The specification is a step function on the entry table; the class
    below updates its table in place and is proved equal to that function.

    The source reads the clock before it takes the lock, so the readings seen in lock order need not
    be ascending.  Elapsed time therefore saturates at zero, and the rate bound is stated with the
    total ascent of the readings, which is the length of the window when they never descend. */
module RateLimit {
  import opened Wrappers

  const MAX_TRACKED_KEYS: nat := 10_000

  datatype BucketEntry = BucketEntry(tokens: real, updatedAt: real)

  type Table = map<string, BucketEntry>

  datatype Decision =
    | Allowed
    | Limited(retryAfter: int)    // refused by the bucket of the key
    | TableFull(retryAfter: int)  // refused because the key is new and every tracked key is live

  datatype Request = Request(key: string, now: real)

  /** What TokenBucket::new fixes from a capacity and a period in whole seconds. */
  datatype Config = Config(capacity: int, periodSeconds: int, refillPerSecond: real) {
    ghost predicate Positive() {
      1 <= capacity && 1 <= periodSeconds && refillPerSecond > 0.0
    }

    ghost predicate Valid() {
      Positive() && refillPerSecond * periodSeconds as real == capacity as real
    }

    function StaleAfter(): real {
      2.0 * periodSeconds as real
    }
  }

  function NewConfig(capacity: int, periodSeconds: int): (c: Config)
    requires 1 <= capacity && 1 <= periodSeconds
    ensures c.Valid() && c.capacity == capacity && c.periodSeconds == periodSeconds
  {
    Config(capacity, periodSeconds, capacity as real / periodSeconds as real)
  }

  function Max(a: int, b: int): int {
    if a < b then b else a
  }

  function Ceiling(x: real): int {
    -((-x).Floor)
  }

  /** Instant::duration_since: zero when the later reading is not later. */
  function Elapsed(now: real, earlier: real): real {
    if now < earlier then 0.0 else now - earlier
  }

  function Refill(c: Config, seconds: real): real {
    seconds * c.refillPerSecond
  }

  function Refilled(c: Config, e: BucketEntry, now: real): real
    requires c.Positive()
  {
    var refilled := e.tokens + Refill(c, Elapsed(now, e.updatedAt));
    if refilled < c.capacity as real then refilled else c.capacity as real
  }

  function RetryAfter(c: Config, tokens: real): int
    requires c.Positive()
  {
    var rate := c.refillPerSecond;
    assert rate > 0.0;
    Max(1, Ceiling((1.0 - tokens) / rate))
  }

  /** Tokens in the key's bucket after its lazy refill; an absent bucket is created full. */
  function Level(c: Config, t: Table, r: Request): real
    requires c.Positive()
  {
    Refilled(c, if r.key in t then t[r.key] else BucketEntry(c.capacity as real, r.now), r.now)
  }

  function Charged(c: Config, t: Table, r: Request): Table
    requires c.Positive()
  {
    var level := Level(c, t, r);
    t[r.key := BucketEntry(if level >= 1.0 then level - 1.0 else level, r.now)]
  }

  function Live(c: Config, t: Table, now: real): Table {
    map k | k in t && Elapsed(now, t[k].updatedAt) <= c.StaleAfter() :: t[k]
  }

  /** Stale entries are dropped only when a new key meets a full table. */
  function Evicted(c: Config, t: Table, r: Request): Table {
    if r.key !in t && |t| >= MAX_TRACKED_KEYS then Live(c, t, r.now) else t
  }

  predicate Admits(t: Table, key: string) {
    key in t || |t| < MAX_TRACKED_KEYS
  }

  /** The table after one check. */
  function Next(c: Config, t: Table, r: Request): Table
    requires c.Positive()
  {
    var kept := Evicted(c, t, r);
    if Admits(kept, r.key) then Charged(c, kept, r) else kept
  }

  predicate Allows(c: Config, t: Table, r: Request)
    requires c.Positive()
  {
    var kept := Evicted(c, t, r);
    Admits(kept, r.key) && Level(c, kept, r) >= 1.0
  }

  function Verdict(c: Config, level: real): Decision
    requires c.Positive()
  {
    if level >= 1.0 then Allowed else Limited(RetryAfter(c, level))
  }

  /** The answer of one check. */
  function Decide(c: Config, t: Table, r: Request): (d: Decision)
    requires c.Positive()
    ensures d.Allowed? <==> Allows(c, t, r)
  {
    var kept := Evicted(c, t, r);
    if Admits(kept, r.key) then Verdict(c, Level(c, kept, r)) else TableFull(Max(1, 2 * c.periodSeconds))
  }

  class TokenBucket {
    const config: Config
    var entries: Table

    ghost predicate Valid()
      reads this
    {
      config.Valid() && Sound(config, entries) && |entries| <= MAX_TRACKED_KEYS
    }

    constructor (capacity: int, periodSeconds: int)
      requires 1 <= capacity && 1 <= periodSeconds
      ensures Valid() && config == NewConfig(capacity, periodSeconds) && entries == map[]
    {
      config := NewConfig(capacity, periodSeconds);
      entries := map[];
    }

    method Check(key: string, now: real) returns (retryAfter: Option<int>)
      requires Valid()
      modifies this`entries
      ensures Valid()
      ensures entries == Next(config, old(entries), Request(key, now))
      ensures var decision := Decide(config, old(entries), Request(key, now));
              retryAfter == if decision.Allowed? then None else Some(decision.retryAfter)
    {
      hide Refilled, RetryAfter, Sound, Elapsed, Max;
      ghost var r := Request(key, now);
      CheckKeepsInvariant(config, entries, r);
      if key !in entries && |entries| >= MAX_TRACKED_KEYS {
        entries := map k | k in entries && Elapsed(now, entries[k].updatedAt) <= config.StaleAfter() :: entries[k];
        if |entries| >= MAX_TRACKED_KEYS {
          return Some(Max(1, 2 * config.periodSeconds));
        }
      }
      ghost var kept := entries;
      assert kept == Evicted(config, old(entries), r) && Admits(kept, key);
      if key !in entries {
        entries := entries[key := BucketEntry(config.capacity as real, now)];
      }
      var tokens := Refilled(config, entries[key], now);
      assert tokens == Level(config, kept, r);
      var allowed := tokens >= 1.0;
      entries := entries[key := BucketEntry(if allowed then tokens - 1.0 else tokens, now)];
      assert entries == Charged(config, kept, r);
      return if allowed then None else Some(RetryAfter(config, tokens));
    }
  }

  // ---- what every check keeps ----

  ghost predicate Sound(c: Config, t: Table) {
    forall k | k in t :: 0.0 <= t[k].tokens <= c.capacity as real
  }

  lemma RefillIsBounded(c: Config, e: BucketEntry, now: real)
    requires c.Positive() && 0.0 <= e.tokens <= c.capacity as real
    ensures e.tokens <= Refilled(c, e, now) <= c.capacity as real
  {
    assert Elapsed(now, e.updatedAt) * c.refillPerSecond >= 0.0;
  }

  lemma LiveIsSmaller(c: Config, t: Table, now: real)
    ensures |Live(c, t, now)| <= |t|
  {
    assert Live(c, t, now).Keys <= t.Keys;
    SubsetSize(Live(c, t, now).Keys, t.Keys);
  }

  lemma {:induction false} SubsetSize<T>(a: set<T>, b: set<T>)
    requires a <= b
    ensures |a| <= |b|
  {
    if a != {} {
      var x :| x in a;
      SubsetSize(a - {x}, b - {x});
    }
  }

  /** Token levels stay between zero and the capacity, and the table never outgrows its cap. */
  lemma CheckKeepsInvariant(c: Config, t: Table, r: Request)
    requires c.Positive() && Sound(c, t) && |t| <= MAX_TRACKED_KEYS
    ensures Sound(c, Next(c, t, r)) && |Next(c, t, r)| <= MAX_TRACKED_KEYS
  {
    LiveIsSmaller(c, t, r.now);
    LevelIsBounded(c, t, r);
    var kept := Evicted(c, t, r);
    LevelIsBounded(c, kept, r);
    if r.key in kept {
      assert Charged(c, kept, r).Keys == kept.Keys;
    }
  }

  lemma LevelIsBounded(c: Config, t: Table, r: Request)
    requires c.Positive() && Sound(c, t)
    ensures 0.0 <= Level(c, t, r) <= c.capacity as real
  {
    RefillIsBounded(c, if r.key in t then t[r.key] else BucketEntry(c.capacity as real, r.now), r.now);
  }

  // ---- runs ----

  function After(c: Config, t: Table, run: seq<Request>): Table
    requires c.Positive()
    decreases run
  {
    if run == [] then t else After(c, Next(c, t, run[0]), run[1..])
  }

  function Decisions(c: Config, t: Table, run: seq<Request>): (ds: seq<Decision>)
    requires c.Positive()
    ensures |ds| == |run|
    decreases run
  {
    if run == [] then [] else [Decide(c, t, run[0])] + Decisions(c, Next(c, t, run[0]), run[1..])
  }

  lemma {:induction false} RunsKeepInvariant(c: Config, t: Table, run: seq<Request>)
    requires c.Positive() && Sound(c, t) && |t| <= MAX_TRACKED_KEYS
    ensures Sound(c, After(c, t, run)) && |After(c, t, run)| <= MAX_TRACKED_KEYS
    decreases run
  {
    if run != [] {
      CheckKeepsInvariant(c, t, run[0]);
      RunsKeepInvariant(c, Next(c, t, run[0]), run[1..]);
    }
  }

  // ---- the rate bound ----

  /** Tokens the key could spend at a clock reading: a key without an entry would start full. */
  function Available(c: Config, t: Table, key: string, now: real): real
    requires c.Positive()
  {
    if key in t then Refilled(c, t[key], now) else c.capacity as real
  }

  /** How many requests of one key a run allows. */
  function AllowedCount(c: Config, t: Table, key: string, run: seq<Request>): nat
    requires c.Positive()
    decreases run
  {
    if run == [] then 0 else
      (if run[0].key == key && Allows(c, t, run[0]) then 1 else 0)
      + AllowedCount(c, Next(c, t, run[0]), key, run[1..])
  }

  /** Total of the forward movements of the clock readings, starting from the reading `from`. */
  function Ascent(from: real, run: seq<Request>): real
    decreases run
  {
    if run == [] then 0.0 else Elapsed(run[0].now, from) + Ascent(run[0].now, run[1..])
  }

  ghost predicate Ascending(from: real, run: seq<Request>)
    decreases run
  {
    run == [] || (from <= run[0].now && Ascending(run[0].now, run[1..]))
  }

  lemma {:induction false} AscentOfAscending(from: real, run: seq<Request>)
    requires Ascending(from, run)
    ensures Ascent(from, run) == (if run == [] then from else run[|run| - 1].now) - from
    decreases run
  {
    if run != [] {
      AscentOfAscending(run[0].now, run[1..]);
    }
  }

  lemma RefillOfPeriod(c: Config, elapsed: real)
    requires c.Valid() && elapsed >= c.periodSeconds as real
    ensures Refill(c, elapsed) >= c.capacity as real
  {
    var p, rate := c.periodSeconds as real, c.refillPerSecond;
    assert rate * p == c.capacity as real;
    assert (elapsed - p) * rate >= 0.0;
  }

  lemma RefillIsMonotone(c: Config, a: real, b: real)
    requires c.Positive() && a <= b
    ensures Refill(c, a) <= Refill(c, b)
  {
    assert (b - a) * c.refillPerSecond >= 0.0;
  }

  lemma RefillAdds(c: Config, a: real, b: real)
    ensures Refill(c, a + b) == Refill(c, a) + Refill(c, b)
  {
  }

  /** Refilling over a longer gap adds at most the refill of the extra time. */
  lemma RefillIsLipschitz(c: Config, e: BucketEntry, earlier: real, now: real)
    requires c.Positive() && 0.0 <= e.tokens <= c.capacity as real
    ensures Refilled(c, e, now) <= Refilled(c, e, earlier) + Refill(c, Elapsed(now, earlier))
  {
    var a, b, g := Elapsed(now, e.updatedAt), Elapsed(earlier, e.updatedAt), Elapsed(now, earlier);
    RefillIsMonotone(c, 0.0, g);
    RefillIsMonotone(c, a, b + g);
    RefillAdds(c, b, g);
  }

  /** An entry idle for longer than the stale limit is full again. */
  lemma StaleMeansFull(c: Config, e: BucketEntry, now: real)
    requires c.Valid() && 0.0 <= e.tokens <= c.capacity as real
    requires Elapsed(now, e.updatedAt) > c.StaleAfter()
    ensures Refilled(c, e, now) == c.capacity as real
  {
    RefillOfPeriod(c, Elapsed(now, e.updatedAt));
  }

  /** Charging takes what it allows out of what was available, and nothing else from any key. */
  lemma ChargeSpendsFromAvailable(c: Config, t: Table, r: Request, key: string)
    requires c.Positive() && Sound(c, t)
    ensures Available(c, Charged(c, t, r), key, r.now)
            + (if r.key == key && Level(c, t, r) >= 1.0 then 1.0 else 0.0)
            == Available(c, t, key, r.now)
  {
    LevelIsBounded(c, t, r);
    RefillIsBounded(c, BucketEntry(c.capacity as real, r.now), r.now);
  }

  /** Evicting stale entries changes nothing that can be spent: a stale entry was full. */
  lemma EvictionKeepsAvailable(c: Config, t: Table, key: string, now: real)
    requires c.Valid() && Sound(c, t)
    ensures Available(c, Live(c, t, now), key, now) == Available(c, t, key, now)
  {
    if key in t && Elapsed(now, t[key].updatedAt) > c.StaleAfter() {
      StaleMeansFull(c, t[key], now);
    }
  }

  /** The potential argument for one check: what is left plus what was spent is what was there
      plus the refill of the forward movement of the clock. */
  lemma CheckSpendsFromAvailable(c: Config, t: Table, r: Request, key: string, earlier: real)
    requires c.Valid() && Sound(c, t)
    ensures Available(c, Next(c, t, r), key, r.now) + (if r.key == key && Allows(c, t, r) then 1.0 else 0.0)
            <= Available(c, t, key, earlier) + Refill(c, Elapsed(r.now, earlier))
  {
    RefillIsMonotone(c, 0.0, Elapsed(r.now, earlier));
    assert Available(c, t, key, r.now) <= Available(c, t, key, earlier) + Refill(c, Elapsed(r.now, earlier)) by {
      if key in t {
        RefillIsLipschitz(c, t[key], earlier, r.now);
      }
    }
    EvictionKeepsAvailable(c, t, key, r.now);
    ChargeSpendsFromAvailable(c, Evicted(c, t, r), r, key);
  }

  lemma AvailableIsBounded(c: Config, t: Table, key: string, now: real)
    requires c.Positive() && Sound(c, t)
    ensures 0.0 <= Available(c, t, key, now) <= c.capacity as real
  {
    if key in t {
      RefillIsBounded(c, t[key], now);
    }
  }

  lemma {:induction false} SpendingIsBounded(c: Config, t: Table, key: string, from: real, run: seq<Request>)
    requires c.Valid() && Sound(c, t) && |t| <= MAX_TRACKED_KEYS
    ensures AllowedCount(c, t, key, run) as real <= Available(c, t, key, from) + Refill(c, Ascent(from, run))
    decreases run
  {
    if run == [] {
      AvailableIsBounded(c, t, key, from);
    } else {
      var r, rest := run[0], run[1..];
      CheckKeepsInvariant(c, t, r);
      CheckSpendsFromAvailable(c, t, r, key, from);
      SpendingIsBounded(c, Next(c, t, r), key, r.now, rest);
      RefillAdds(c, Elapsed(r.now, from), Ascent(r.now, rest));
    }
  }

  /** Rate bound over any window of any run, whatever the clock does: the requests of one key that
      are allowed in run[i..j] number at most capacity plus rate times the ascent of the window. */
  lemma WindowBound(c: Config, run: seq<Request>, i: nat, j: nat, key: string)
    requires c.Valid() && i < j <= |run|
    ensures AllowedCount(c, After(c, map[], run[..i]), key, run[i..j]) as real
            <= c.capacity as real + Refill(c, Ascent(run[i].now, run[i..j]))
  {
    var before, window := run[..i], run[i..j];
    var t := After(c, map[], before);
    RunsKeepInvariant(c, map[], before);
    SpendingIsBounded(c, t, key, run[i].now, window);
    AvailableIsBounded(c, t, key, run[i].now);
  }

  /** The documented bound: capacity plus window length times rate, when the readings inside the
      window never descend in lock order. */
  lemma WindowBoundOnAscendingClock(c: Config, run: seq<Request>, i: nat, j: nat, key: string)
    requires c.Valid() && i < j <= |run|
    requires Ascending(run[i].now, run[i..j])
    ensures AllowedCount(c, After(c, map[], run[..i]), key, run[i..j]) as real
            <= c.capacity as real + Refill(c, run[j - 1].now - run[i].now)
  {
    WindowBound(c, run, i, j, key);
    var window := run[i..j];
    AscentOfAscending(run[i].now, window);
    assert window[|window| - 1] == run[j - 1];
  }

  /** Pairs of requests whose readings, taken before the lock, reach it in the wrong order. */
  function Alternating(key: string, n: nat): seq<Request> {
    if n == 0 then [] else [Request(key, 2.0), Request(key, 1.0)] + Alternating(key, n - 1)
  }

  /** Without ascending readings the documented bound fails by any amount: a bucket of capacity one
      that refills once a second allows n requests all of whose readings lie within one second.
      The bound by the ascent is attained exactly. */
  lemma DescendingClockBreaksTheWindowBound(key: string, n: nat)
    ensures forall r | r in Alternating(key, n) :: 1.0 <= r.now <= 2.0
    ensures AllowedCount(NewConfig(1, 1), map[], key, Alternating(key, n)) == n
    ensures 1.0 + Refill(NewConfig(1, 1), 2.0 - 1.0) == 2.0
    ensures n > 0 ==> 1.0 + Refill(NewConfig(1, 1), Ascent(2.0, Alternating(key, n))) == n as real
  {
    hide Refilled;
    assert NewConfig(1, 1) == Config(1, 1, 1.0);
    if n > 0 {
      AlternatingCount(Config(1, 1, 1.0), key, n - 1);
      PairCount(Config(1, 1, 1.0), key, map[], n);
    }
    AlternatingReadings(key, n);
    AlternatingAscent(key, n, 2.0);
  }

  function SpentAt(key: string, now: real): Table {
    map[key := BucketEntry(0.0, now)]
  }

  lemma {:induction false} AlternatingCount(c: Config, key: string, n: nat)
    requires c == Config(1, 1, 1.0)
    ensures AllowedCount(c, SpentAt(key, 1.0), key, Alternating(key, n)) == n
  {
    hide Refilled;
    if n > 0 {
      AlternatingCount(c, key, n - 1);
      PairCount(c, key, SpentAt(key, 1.0), n);
    }
  }

  lemma {:induction false} AlternatingReadings(key: string, n: nat)
    ensures forall r | r in Alternating(key, n) :: 1.0 <= r.now <= 2.0
  {
    if n > 0 {
      AlternatingReadings(key, n - 1);
    }
  }

  lemma {:induction false} AlternatingAscent(key: string, n: nat, from: real)
    requires from == 1.0 || from == 2.0
    ensures Ascent(from, Alternating(key, n)) == if n == 0 then 0.0 else n as real - (from - 1.0)
  {
    if n > 0 {
      var run, rest := Alternating(key, n), Alternating(key, n - 1);
      assert run[1..][1..] == rest;
      AlternatingAscent(key, n - 1, 1.0);
    }
  }

  lemma PairCount(c: Config, key: string, t: Table, n: nat)
    requires c == Config(1, 1, 1.0) && (t == map[] || t == SpentAt(key, 1.0))
    requires n > 0 && AllowedCount(c, SpentAt(key, 1.0), key, Alternating(key, n - 1)) == n - 1
    ensures AllowedCount(c, t, key, Alternating(key, n)) == n
  {
    hide Refilled;
    var up, down, rest := Request(key, 2.0), Request(key, 1.0), Alternating(key, n - 1);
    AlternationIsServed(c, key, t);
    var m := AllowedCount(c, SpentAt(key, 2.0), key, [down] + rest);
    assert m == n - 1 by {
      CountUnfolds(c, SpentAt(key, 2.0), key, down, rest);
    }
    assert Alternating(key, n) == [up] + ([down] + rest);
    CountUnfolds(c, t, key, up, [down] + rest);
  }

  lemma AlternationIsServed(c: Config, key: string, t: Table)
    requires c == Config(1, 1, 1.0) && (t == map[] || t == SpentAt(key, 1.0))
    ensures Allows(c, t, Request(key, 2.0)) && Next(c, t, Request(key, 2.0)) == SpentAt(key, 2.0)
    ensures !Allows(c, SpentAt(key, 2.0), Request(key, 1.0))
    ensures Next(c, SpentAt(key, 2.0), Request(key, 1.0)) == SpentAt(key, 1.0)
  {
    assert Refill(c, 1.0) == 1.0 && Refill(c, 0.0) == 0.0;
    assert Level(c, t, Request(key, 2.0)) == 1.0;
    assert Level(c, SpentAt(key, 2.0), Request(key, 1.0)) == 0.0;
  }

  lemma CountUnfolds(c: Config, t: Table, key: string, r: Request, rest: seq<Request>)
    requires c.Positive()
    ensures AllowedCount(c, t, key, [r] + rest)
            == (if r.key == key && Allows(c, t, r) then 1 else 0) + AllowedCount(c, Next(c, t, r), key, rest)
  {
    assert ([r] + rest)[1..] == rest;
  }

  // ---- refinement of an unbounded table that never evicts ----

  /** The simple form: the same charges on a table without a cap. */
  function UnboundedDecisions(c: Config, t: Table, run: seq<Request>): seq<Decision>
    requires c.Positive()
    decreases run
  {
    if run == [] then []
    else [Verdict(c, Level(c, t, run[0]))] + UnboundedDecisions(c, Charged(c, t, run[0]), run[1..])
  }

  /** The requests that were not turned away for want of a table slot. */
  function Admitted(run: seq<Request>, ds: seq<Decision>): seq<Request>
    requires |run| == |ds|
  {
    if run == [] then []
    else (if ds[0].TableFull? then [] else [run[0]]) + Admitted(run[1..], ds[1..])
  }

  function Verdicts(ds: seq<Decision>): seq<Decision> {
    if ds == [] then []
    else (if ds[0].TableFull? then [] else [ds[0]]) + Verdicts(ds[1..])
  }

  /** The decisions of the bounded table are those of the unbounded one that was never asked the
      table-full requests. */
  ghost predicate Refines(c: Config, bounded: Table, unbounded: Table, run: seq<Request>)
    requires c.Positive()
  {
    var ds := Decisions(c, bounded, run);
    UnboundedDecisions(c, unbounded, Admitted(run, ds)) == Verdicts(ds)
  }

  function Later(a: real, b: real): real {
    if a < b then b else a
  }

  /** No reading lags behind the newest earlier one by more than this. */
  ghost predicate LagsWithin(lag: real, newest: real, run: seq<Request>)
    decreases run
  {
    run == [] || (newest - lag <= run[0].now && LagsWithin(lag, Later(newest, run[0].now), run[1..]))
  }

  /** The bounded table holds a part of the unbounded one, and it dropped only what the newest reading
      found stale. */
  ghost predicate Simulates(c: Config, bounded: Table, unbounded: Table, newest: real)
    requires c.Positive()
  {
    && Sound(c, unbounded)
    && (forall k | k in bounded :: k in unbounded && unbounded[k] == bounded[k])
    && (forall k | k in unbounded && k !in bounded :: unbounded[k].updatedAt + c.StaleAfter() < newest)
  }

  lemma SimulationAdvances(c: Config, bounded: Table, unbounded: Table, newest: real, now: real)
    requires c.Positive() && Simulates(c, bounded, unbounded, newest)
    ensures Simulates(c, bounded, unbounded, Later(newest, now))
    ensures Simulates(c, Live(c, bounded, now), unbounded, Later(newest, now))
  {
  }

  /** What was dropped is full for every reading that lags by at most one period, which is why entries
      are kept for two. */
  lemma DroppedIsFull(c: Config, bounded: Table, unbounded: Table, newest: real, key: string, now: real)
    requires c.Valid() && Simulates(c, bounded, unbounded, newest) && newest - c.periodSeconds as real <= now
    requires key in unbounded && key !in bounded
    ensures Refilled(c, unbounded[key], now) == c.capacity as real
  {
    RefillOfPeriod(c, Elapsed(now, unbounded[key].updatedAt));
  }

  lemma ChargeSimulates(c: Config, bounded: Table, unbounded: Table, newest: real, r: Request)
    requires c.Valid() && Simulates(c, bounded, unbounded, newest) && newest - c.periodSeconds as real <= r.now
    ensures Level(c, bounded, r) == Level(c, unbounded, r)
    ensures Simulates(c, Charged(c, bounded, r), Charged(c, unbounded, r), newest)
  {
    RefillIsBounded(c, BucketEntry(c.capacity as real, r.now), r.now);
    LevelIsBounded(c, unbounded, r);
    if r.key in unbounded && r.key !in bounded {
      DroppedIsFull(c, bounded, unbounded, newest, r.key, r.now);
    }
    var b, u := Charged(c, bounded, r), Charged(c, unbounded, r);
    assert b[r.key] == u[r.key];
    assert forall k | k in u && k !in b :: k != r.key && k in unbounded && k !in bounded && u[k] == unbounded[k];
  }

  lemma {:induction false} SimulationHolds(c: Config, bounded: Table, unbounded: Table, newest: real, run: seq<Request>)
    requires c.Valid() && Simulates(c, bounded, unbounded, newest) && LagsWithin(c.periodSeconds as real, newest, run)
    ensures Refines(c, bounded, unbounded, run)
    decreases run
  {
    if run != [] {
      var r, rest := run[0], run[1..];
      var later := Later(newest, r.now);
      var kept, next := Evicted(c, bounded, r), Next(c, bounded, r);
      var all, ds := Decisions(c, bounded, run), Decisions(c, next, rest);
      assert all[1..] == ds;
      SimulationAdvances(c, bounded, unbounded, newest, r.now);
      assert Simulates(c, kept, unbounded, later);
      if Admits(kept, r.key) {
        ChargeSimulates(c, kept, unbounded, later, r);
        SimulationHolds(c, next, Charged(c, unbounded, r), later, rest);
        var admitted := Admitted(run, all);
        assert admitted[0] == r && admitted[1..] == Admitted(rest, ds);
      } else {
        SimulationHolds(c, next, unbounded, later, rest);
        assert Admitted(run, all) == Admitted(rest, ds);
        assert Verdicts(all) == Verdicts(ds);
      }
    }
  }

  /** On every run in which no reading lags behind the newest earlier one by more than the period, the
      bounded evicting bucket gives exactly the decisions of the unbounded one. */
  lemma {:induction false} BoundedRefinesUnbounded(c: Config, run: seq<Request>)
    requires c.Valid() && (run != [] ==> LagsWithin(c.periodSeconds as real, run[0].now, run))
    ensures Refines(c, map[], map[], run)
  {
    if run != [] {
      SimulationHolds(c, map[], map[], run[0].now, run);
    }
  }

  /** A table-full refusal means what it says: the key is untracked and the cap is reached by keys
      that were all used within the stale limit. */
  lemma TableFullExactly(c: Config, t: Table, r: Request)
    requires c.Positive() && |t| <= MAX_TRACKED_KEYS
    ensures Decide(c, t, r).TableFull? <==>
              r.key !in t && |t| == MAX_TRACKED_KEYS
              && forall k | k in t :: Elapsed(r.now, t[k].updatedAt) <= c.StaleAfter()
  {
    var live := Live(c, t, r.now);
    LiveIsSmaller(c, t, r.now);
    if forall k | k in t :: Elapsed(r.now, t[k].updatedAt) <= c.StaleAfter() {
      assert live == t;
    } else {
      var k :| k in t && Elapsed(r.now, t[k].updatedAt) > c.StaleAfter();
      assert live.Keys <= t.Keys - {k};
      SubsetSize(live.Keys, t.Keys - {k});
    }
  }

  // ---- retry-after ----

  lemma CeilingBounds(x: real)
    ensures x <= Ceiling(x) as real < x + 1.0
  {
  }

  /** Refill over a time compares with an amount as the time compares with amount / rate. */
  lemma RefillReaches(c: Config, amount: real, seconds: real)
    requires c.Positive()
    ensures Refill(c, seconds) >= amount <==> seconds >= amount / c.refillPerSecond
  {
    var rate, x := c.refillPerSecond, amount / c.refillPerSecond;
    assert x * rate == amount;
    if seconds >= x {
      assert (seconds - x) * rate >= 0.0;
    } else {
      assert (x - seconds) * rate > 0.0;
    }
  }

  lemma RetryAfterThreshold(c: Config, tokens: real, wait: int)
    requires c.Valid() && 0.0 <= tokens < 1.0 && 1 <= wait
    ensures tokens + Refill(c, wait as real) >= 1.0 <==> RetryAfter(c, tokens) <= wait
    ensures 1 <= RetryAfter(c, tokens) <= c.periodSeconds
  {
    var x := (1.0 - tokens) / c.refillPerSecond;
    CeilingBounds(x);
    RefillReaches(c, 1.0 - tokens, wait as real);
    RefillOfPeriod(c, c.periodSeconds as real);
    RefillReaches(c, 1.0 - tokens, c.periodSeconds as real);
  }

  /** Requests of other keys only, none read after the deadline, in any order. */
  ghost predicate OthersUntil(key: string, deadline: real, run: seq<Request>) {
    forall r | r in run :: r.key != key && r.now <= deadline
  }

  /** Other keys cannot touch a bucket, not even by evicting it, as long as none is read later than
      the stale limit after its last use. */
  lemma {:induction false} OthersLeaveEntryAlone(c: Config, t: Table, key: string, run: seq<Request>)
    requires c.Positive() && key in t && OthersUntil(key, t[key].updatedAt + c.StaleAfter(), run)
    ensures key in After(c, t, run) && After(c, t, run)[key] == t[key]
    decreases run
  {
    if run != [] {
      var next := Next(c, t, run[0]);
      assert run[0] in run;
      assert Elapsed(run[0].now, t[key].updatedAt) <= c.StaleAfter();
      assert key in next && next[key] == t[key];
      OthersLeaveEntryAlone(c, next, key, run[1..]);
    }
  }

  /** The wait that a bucket advertises is exact: asked again after a whole number of seconds up to it,
      with any traffic of other keys in between that is read within the stale limit, in any order, a
      key refused by its own bucket is allowed after the full wait and refused after every shorter one.
      The wait that a full table advertises is another matter: see module RateLimitLimits. */
  lemma RetryAfterIsExact(c: Config, t: Table, key: string, now: real, others: seq<Request>, wait: int)
    requires c.Valid() && Sound(c, t)
    requires Decide(c, t, Request(key, now)).Limited?
    requires 1 <= wait <= Decide(c, t, Request(key, now)).retryAfter
    requires OthersUntil(key, now + c.StaleAfter(), others)
    ensures Allows(c, After(c, Next(c, t, Request(key, now)), others), Request(key, now + wait as real))
            <==> wait == Decide(c, t, Request(key, now)).retryAfter
  {
    var r := Request(key, now);
    var next, refusal := Next(c, t, r), Decide(c, t, r);
    var kept := Evicted(c, t, r);
    var e := next[key];
    LevelIsBounded(c, kept, r);
    assert e == BucketEntry(Level(c, kept, r), now) && 0.0 <= e.tokens < 1.0;
    assert refusal.retryAfter == RetryAfter(c, e.tokens);
    RetryAfterThreshold(c, e.tokens, wait);
    OthersLeaveEntryAlone(c, next, key, others);
    assert Elapsed(now + wait as real, now) == wait as real;
  }
}
