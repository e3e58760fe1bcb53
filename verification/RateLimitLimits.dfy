/** How far the results of RateLimit reach when readings come out of order: for the rate bound, the
    refinement and the wait that a bucket advertises, the exact condition on the readings, each as an
    equivalence; and for the wait that a full table advertises, the tables for which it is exact. */
module RateLimitLimits {
  import opened RateLimit

  // ---- one key alone ----

  function One(key: string, tokens: real, at: real): Table {
    map[key := BucketEntry(tokens, at)]
  }

  function Burst(key: string, at: real, n: nat): seq<Request> {
    if n == 0 then [] else [Request(key, at)] + Burst(key, at, n - 1)
  }

  /** What n requests at one reading leave. */
  function Drained(tokens: real, n: nat): real {
    if n == 0 || tokens < 1.0 then tokens else Drained(tokens - 1.0, n - 1)
  }

  lemma {:induction false} DrainedIs(tokens: real, n: nat)
    requires 0.0 <= tokens
    ensures 0.0 <= Drained(tokens, n) <= tokens
    ensures tokens < n as real || tokens < 1.0 ==> Drained(tokens, n) < 1.0
    ensures n as real <= tokens ==> Drained(tokens, n) == tokens - n as real
  {
    if n > 0 && tokens >= 1.0 {
      DrainedIs(tokens - 1.0, n - 1);
    }
  }

  lemma OneStep(c: Config, key: string, tokens: real, at: real, now: real)
    requires c.Positive() && 0.0 <= tokens <= c.capacity as real
    ensures var t, level := One(key, tokens, at), Refilled(c, BucketEntry(tokens, at), now);
            var next := One(key, if level >= 1.0 then level - 1.0 else level, now);
            && (Allows(c, t, Request(key, now)) <==> level >= 1.0)
            && Next(c, t, Request(key, now)) == next && Charged(c, t, Request(key, now)) == next
            && 0.0 <= level <= c.capacity as real
  {
    RefillIsBounded(c, BucketEntry(tokens, at), now);
  }

  lemma SameReading(c: Config, tokens: real, at: real)
    requires c.Positive() && tokens <= c.capacity as real
    ensures Refilled(c, BucketEntry(tokens, at), at) == tokens
  {
    assert Refill(c, 0.0) == 0.0;
  }

  lemma {:induction false} BurstOnOne(c: Config, key: string, tokens: real, at: real, n: nat)
    requires c.Positive() && 0.0 <= tokens <= c.capacity as real
    ensures After(c, One(key, tokens, at), Burst(key, at, n)) == One(key, Drained(tokens, n), at)
    ensures AllowedCount(c, One(key, tokens, at), key, Burst(key, at, n)) as real == tokens - Drained(tokens, n)
  {
    if n > 0 {
      OneStep(c, key, tokens, at, at);
      SameReading(c, tokens, at);
      var rest := Burst(key, at, n - 1);
      CountUnfolds(c, One(key, tokens, at), key, Request(key, at), rest);
      AfterUnfolds(c, One(key, tokens, at), Request(key, at), rest);
      hide Next, Allows, Refilled, After, AllowedCount, One;
      if tokens >= 1.0 {
        BurstOnOne(c, key, tokens - 1.0, at, n - 1);
      } else {
        BurstOnOne(c, key, tokens, at, n - 1);
      }
    } else {
      hide One;
    }
  }

  lemma AfterUnfolds(c: Config, t: Table, r: Request, rest: seq<Request>)
    requires c.Positive()
    ensures After(c, t, [r] + rest) == After(c, Next(c, t, r), rest)
  {
    assert ([r] + rest)[1..] == rest;
  }

  lemma {:induction false} AfterAppends(c: Config, t: Table, a: seq<Request>, b: seq<Request>)
    requires c.Positive()
    ensures After(c, t, a + b) == After(c, After(c, t, a), b)
    decreases a
  {
    if a == [] {
      assert a + b == b;
    } else {
      assert (a + b)[1..] == a[1..] + b;
      AfterAppends(c, Next(c, t, a[0]), a[1..], b);
    }
  }

  lemma {:induction false} CountAppends(c: Config, t: Table, key: string, a: seq<Request>, b: seq<Request>)
    requires c.Positive()
    ensures AllowedCount(c, t, key, a + b) == AllowedCount(c, t, key, a) + AllowedCount(c, After(c, t, a), key, b)
    decreases a
  {
    hide Next, Allows;
    if a == [] {
      assert a + b == b;
    } else {
      assert (a + b)[1..] == a[1..] + b && (a + b)[0] == a[0];
      CountAppends(c, Next(c, t, a[0]), key, a[1..], b);
    }
  }

  /** A bucket may be refilled before the request that refills it. */
  lemma RefilledFirst(c: Config, key: string, tokens: real, at: real, now: real, rest: seq<Request>)
    requires c.Positive() && 0.0 <= tokens <= c.capacity as real
    ensures var level := Refilled(c, BucketEntry(tokens, at), now);
            AllowedCount(c, One(key, tokens, at), key, [Request(key, now)] + rest)
            == AllowedCount(c, One(key, level, now), key, [Request(key, now)] + rest)
  {
    var level, r := Refilled(c, BucketEntry(tokens, at), now), Request(key, now);
    OneStep(c, key, tokens, at, now);
    OneStep(c, key, level, now, now);
    SameReading(c, level, now);
    CountUnfolds(c, One(key, tokens, at), key, r, rest);
    CountUnfolds(c, One(key, level, now), key, r, rest);
    hide Next, Allows, Refilled, AllowedCount, One;
  }

  /** A key without an entry starts full. */
  lemma StartsFull(c: Config, key: string, now: real, rest: seq<Request>)
    requires c.Positive()
    ensures Next(c, map[], Request(key, now)) == Next(c, One(key, c.capacity as real, now), Request(key, now))
    ensures Charged(c, map[], Request(key, now)) == Charged(c, One(key, c.capacity as real, now), Request(key, now))
    ensures AllowedCount(c, map[], key, [Request(key, now)] + rest)
            == AllowedCount(c, One(key, c.capacity as real, now), key, [Request(key, now)] + rest)
  {
    var full := One(key, c.capacity as real, now);
    assert Level(c, map[], Request(key, now)) == Level(c, full, Request(key, now));
    CountUnfolds(c, map[], key, Request(key, now), rest);
    CountUnfolds(c, full, key, Request(key, now), rest);
    hide Refilled, AllowedCount;
  }

  // ---- the rate bound ----

  function Greatest(readings: seq<real>): real
    requires readings != []
  {
    if |readings| == 1 then readings[0] else Later(readings[0], Greatest(readings[1..]))
  }

  function Least(readings: seq<real>): real
    requires readings != []
  {
    if |readings| == 1 then readings[0] else
      var least := Least(readings[1..]);
      if readings[0] < least then readings[0] else least
  }

  function Spread(readings: seq<real>): real
    requires readings != []
  {
    Greatest(readings) - Least(readings)
  }

  lemma {:induction false} SpreadCovers(readings: seq<real>)
    requires readings != []
    ensures forall x | x in readings :: Least(readings) <= x <= Greatest(readings)
    ensures Least(readings) in readings && Greatest(readings) in readings
  {
    if |readings| > 1 {
      SpreadCovers(readings[1..]);
      assert forall x :: x in readings <==> x == readings[0] || x in readings[1..];
    }
  }

  /** Total of the forward movements of a clock. */
  function ClockAscent(from: real, readings: seq<real>): real
    decreases |readings|
  {
    if readings == [] then 0.0 else Elapsed(readings[0], from) + ClockAscent(readings[0], readings[1..])
  }

  /** The requests take these readings in this order, one or more requests at each. */
  ghost predicate Visits(window: seq<Request>, readings: seq<real>)
    decreases |window|
  {
    if window == [] then readings == []
    else
      && readings != [] && window[0].now == readings[0]
      && (Visits(window[1..], readings[1..]) || Visits(window[1..], readings))
  }

  lemma {:induction false} VisitsAscent(from: real, window: seq<Request>, readings: seq<real>)
    requires Visits(window, readings)
    ensures Ascent(from, window) == ClockAscent(from, readings)
    decreases |window|
  {
    if window != [] {
      if Visits(window[1..], readings[1..]) {
        VisitsAscent(window[0].now, window[1..], readings[1..]);
      } else {
        VisitsAscent(window[0].now, window[1..], readings);
      }
    }
  }

  /** The usual bound for one window: capacity plus the spread of the readings times the rate. */
  ghost predicate WithinUsualBound(c: Config, before: seq<Request>, key: string, window: seq<Request>,
                                   readings: seq<real>)
    requires c.Valid() && readings != []
  {
    AllowedCount(c, After(c, map[], before), key, window) as real <= c.capacity as real + Refill(c, Spread(readings))
  }

  ghost predicate UsualBoundHolds(readings: seq<real>)
    requires readings != []
  {
    forall c: Config, before: seq<Request>, key: string, window: seq<Request> ::
      c.Valid() && Visits(window, readings) ==> WithinUsualBound(c, before, key, window, readings)
  }

  lemma UsualBoundWhenAscentIsSpread(c: Config, before: seq<Request>, key: string, window: seq<Request>,
                                     readings: seq<real>)
    requires readings != [] && ClockAscent(readings[0], readings) <= Spread(readings)
    requires c.Valid() && Visits(window, readings)
    ensures WithinUsualBound(c, before, key, window, readings)
  {
    hide Refilled, Refill, Spread;
    if window != [] {
      var run := before + window;
      assert run[..|before|] == before && run[|before|..|run|] == window;
      WindowBound(c, run, |before|, |run|, key);
      VisitsAscent(readings[0], window, readings);
      assert run[|before|].now == readings[0];
      RefillIsMonotone(c, ClockAscent(readings[0], readings), Spread(readings));
    }
  }

  // The converse: as many requests at each reading as could ever be allowed, and one more.

  function Bursts(key: string, readings: seq<real>, n: nat): seq<Request> {
    if readings == [] then [] else Burst(key, readings[0], n) + Bursts(key, readings[1..], n)
  }

  lemma {:induction false} BurstVisits(key: string, at: real, n: nat, rest: seq<Request>, readings: seq<real>)
    requires n > 0 && Visits(rest, readings)
    ensures Visits(Burst(key, at, n) + rest, [at] + readings)
  {
    var window := Burst(key, at, n) + rest;
    assert window[0] == Request(key, at) && window[1..] == Burst(key, at, n - 1) + rest;
    assert ([at] + readings)[1..] == readings;
    if n == 1 {
      assert window[1..] == rest;
    } else {
      BurstVisits(key, at, n - 1, rest, readings);
    }
  }

  lemma {:induction false} BurstsVisit(key: string, readings: seq<real>, n: nat)
    requires n > 0
    ensures Visits(Bursts(key, readings, n), readings)
  {
    if readings != [] {
      BurstsVisit(key, readings[1..], n);
      BurstVisits(key, readings[0], n, Bursts(key, readings[1..], n), readings[1..]);
      assert readings == [readings[0]] + readings[1..];
    }
  }

  lemma BurstUnfolds(key: string, at: real, n: nat, rest: seq<Request>)
    requires n > 0
    ensures Burst(key, at, n) + rest == [Request(key, at)] + (Burst(key, at, n - 1) + rest)
  {
  }

  /** A burst longer than the bucket leaves less than one token. */
  lemma BurstThenRest(c: Config, key: string, tokens: real, at: real, n: nat, rest: seq<Request>)
    requires c.Positive() && 0.0 <= tokens <= c.capacity as real < n as real
    ensures var left := Drained(tokens, n);
            && 0.0 <= left < 1.0
            && AllowedCount(c, One(key, tokens, at), key, Burst(key, at, n) + rest) as real
               == tokens - left + AllowedCount(c, One(key, left, at), key, rest) as real
  {
    hide Refilled, AllowedCount, After, One;
    CountAppends(c, One(key, tokens, at), key, Burst(key, at, n), rest);
    BurstOnOne(c, key, tokens, at, n);
    DrainedIs(tokens, n);
  }

  lemma {:induction false} ClockAscentIsNotNegative(from: real, readings: seq<real>)
    ensures ClockAscent(from, readings) >= 0.0
    decreases |readings|
  {
    if readings != [] {
      ClockAscentIsNotNegative(readings[0], readings[1..]);
    }
  }

  lemma OneMoreBurst(c: Config, key: string, tokens: real, at: real, readings: seq<real>, n: nat)
    requires readings != [] && c.Positive() && 0.0 <= tokens && c.capacity as real < n as real
    requires tokens + Refill(c, Elapsed(readings[0], at)) <= c.capacity as real
    ensures var level := tokens + Refill(c, Elapsed(readings[0], at));
            var left := Drained(level, n);
            && 0.0 <= left < 1.0
            && AllowedCount(c, One(key, tokens, at), key, Bursts(key, readings, n)) as real
               == level - left
                 + AllowedCount(c, One(key, left, readings[0]), key, Bursts(key, readings[1..], n)) as real
  {
    var now, later := readings[0], Bursts(key, readings[1..], n);
    var level := tokens + Refill(c, Elapsed(now, at));
    RefillIsMonotone(c, 0.0, Elapsed(now, at));
    assert Refill(c, 0.0) == 0.0;
    assert Refilled(c, BucketEntry(tokens, at), now) == level;
    hide Refill, Refilled, AllowedCount, One, Drained;
    BurstUnfolds(key, now, n, later);
    RefilledFirst(c, key, tokens, at, now, Burst(key, now, n - 1) + later);
    BurstThenRest(c, key, level, now, n, later);
  }

  lemma {:induction false} BurstsCount(c: Config, key: string, tokens: real, at: real, readings: seq<real>, n: nat)
    requires c.Positive() && 0.0 <= tokens < 1.0 && c.capacity as real < n as real
    requires 1.0 + Refill(c, ClockAscent(at, readings)) <= c.capacity as real
    ensures AllowedCount(c, One(key, tokens, at), key, Bursts(key, readings, n)) as real + 1.0
            > tokens + Refill(c, ClockAscent(at, readings))
    decreases |readings|
  {
    if readings == [] {
      assert Refill(c, 0.0) == 0.0;
    } else {
      var gain, later := Elapsed(readings[0], at), ClockAscent(readings[0], readings[1..]);
      assert ClockAscent(at, readings) == gain + later;
      ClockAscentIsNotNegative(readings[0], readings[1..]);
      RefillAdds(c, gain, later);
      RefillIsMonotone(c, 0.0, later);
      RefillIsMonotone(c, 0.0, gain);
      assert Refill(c, 0.0) == 0.0;
      hide Refill, AllowedCount, One, Drained, ClockAscent, Bursts;
      OneMoreBurst(c, key, tokens, at, readings, n);
      BurstsCount(c, key, Drained(tokens + Refill(c, gain), n), readings[0], readings[1..], n);
    }
  }

  lemma BurstsFromEmpty(c: Config, key: string, readings: seq<real>, n: nat)
    requires readings != [] && c.Positive() && c.capacity as real < n as real
    requires 1.0 + Refill(c, ClockAscent(readings[0], readings)) <= c.capacity as real
    ensures AllowedCount(c, map[], key, Bursts(key, readings, n)) as real + 1.0
            > c.capacity as real + Refill(c, ClockAscent(readings[0], readings))
  {
    var now, rest, full := readings[0], readings[1..], c.capacity as real;
    assert ClockAscent(now, readings) == ClockAscent(now, rest);
    BurstUnfolds(key, now, n, Bursts(key, rest, n));
    StartsFull(c, key, now, Burst(key, now, n - 1) + Bursts(key, rest, n));
    BurstThenRest(c, key, full, now, n, Bursts(key, rest, n));
    BurstsCount(c, key, Drained(full, n), now, rest, n);
    hide Refilled, AllowedCount, Refill;
  }

  function Times(a: real, b: real): real {
    a * b
  }

  lemma TimesIsPositive(a: real, b: real)
    requires a >= 0.0 && b >= 0.0
    ensures Times(a, b) >= 0.0 && (a > 0.0 && b > 0.0 ==> Times(a, b) > 0.0)
  {
  }

  lemma TimesAdds(a: real, b: real, f: real)
    ensures Times(a + b, f) == Times(a, f) + Times(b, f) && Times(f, a) == Times(a, f)
  {
  }

  lemma TimesReciprocal(gap: real)
    requires gap > 0.0
    ensures 1.0 / gap > 0.0 && Times(1.0 / gap, gap) == 1.0
  {
  }

  lemma TimesTwo(a: real)
    ensures Times(2.0, a) == a + a && Times(1.0, a) == a
  {
  }

  lemma {:induction false} TimesOfIntegers(a: nat, b: nat)
    ensures (a * b) as real == Times(a as real, b as real)
  {
    if b > 0 {
      TimesOfIntegers(a, b - 1);
      assert a * b == a * (b - 1) + a;
    }
  }

  lemma RateFor(gap: real) returns (k: nat)
    requires gap > 0.0
    ensures k >= 1 && Times(k as real, gap) > 1.0
  {
    hide Times;
    TimesReciprocal(gap);
    var x := 1.0 / gap;
    k := x.Floor + 1;
    TimesIsPositive(k as real - x, gap);
    TimesAdds(k as real - x, x, gap);
  }

  lemma RoomFor(rate: real, ascent: real, period: real)
    requires rate >= 1.0 && ascent >= 0.0 && ascent + 2.0 <= period
    ensures 1.0 <= 1.0 + Times(ascent, rate) <= Times(period, rate)
  {
    hide Times;
    TimesIsPositive(ascent, rate);
    TimesIsPositive(period - ascent - 2.0, rate);
    TimesAdds(period - ascent - 2.0, ascent + 2.0, rate);
    TimesAdds(ascent, 2.0, rate);
    TimesTwo(rate);
  }

  lemma ConfigFrom(c: Config, k: nat, p: nat, seconds: real)
    requires k >= 1 && p >= 1 && c == Config(k * p, p, k as real)
    ensures c.Valid() && c.capacity as real == Times(p as real, k as real)
    ensures Refill(c, seconds) == Times(seconds, k as real) && Times(k as real, seconds) == Times(seconds, k as real)
  {
    TimesOfIntegers(k, p);
    TimesAtLeastOne(k, p);
  }

  lemma TimesAtLeastOne(k: nat, p: nat)
    requires k >= 1 && p >= 1
    ensures k * p >= 1
  {
    assert k * p == (k - 1) * p + p;
  }

  /** A bucket fast enough for the gap and large enough never to overflow on these readings. */
  lemma FastBucket(ascent: real, gap: real) returns (c: Config)
    requires ascent >= 0.0 && gap > 0.0
    ensures c.Valid() && 1.0 + Refill(c, ascent) <= c.capacity as real && Refill(c, gap) > 1.0
  {
    hide Times, Refill;
    var k := RateFor(gap);
    var p := ascent.Floor + 3;
    RoomFor(k as real, ascent, p as real);
    c := Config(k * p, p, k as real);
    ConfigFrom(c, k, p, gap);
    ConfigFrom(c, k, p, ascent);
  }

  /** On readings that climb more than their spread, some bucket exceeds the usual bound. */
  lemma UsualBoundFails(readings: seq<real>, key: string)
    requires readings != [] && ClockAscent(readings[0], readings) > Spread(readings)
    ensures !UsualBoundHolds(readings)
  {
    var ascent, spread := ClockAscent(readings[0], readings), Spread(readings);
    ClockAscentIsNotNegative(readings[0], readings);
    hide Refill, Refilled, AllowedCount, Spread, ClockAscent;
    var c := FastBucket(ascent, ascent - spread);
    var n := c.capacity + 1;
    BurstsFromEmpty(c, key, readings, n);
    BurstsVisit(key, readings, n);
    RefillAdds(c, spread, ascent - spread);
    assert After(c, map[], []) == map[];
    assert !WithinUsualBound(c, [], key, Bursts(key, readings, n), readings);
  }

  /** The usual rate bound, capacity plus length of the window times rate, holds for every bucket, run,
      key and window on these readings exactly when they do not climb by more than their spread. */
  lemma UsualBoundHoldsExactly(readings: seq<real>)
    requires readings != []
    ensures UsualBoundHolds(readings) <==> ClockAscent(readings[0], readings) <= Spread(readings)
  {
    if ClockAscent(readings[0], readings) <= Spread(readings) {
      forall c: Config, before: seq<Request>, key: string, window: seq<Request> | c.Valid() && Visits(window, readings)
        ensures WithinUsualBound(c, before, key, window, readings)
      {
        UsualBoundWhenAscentIsSpread(c, before, key, window, readings);
      }
    } else {
      UsualBoundFails(readings, "");
    }
  }

  // ---- a crowd of new keys ----

  function Name(i: nat): (name: string)
    ensures |name| == i
  {
    if i == 0 then "" else Name(i - 1) + "k"
  }

  function Crowd(from: nat, n: nat, at: real): seq<Request>
    decreases n
  {
    if n == 0 then [] else [Request(Name(from), at)] + Crowd(from + 1, n - 1, at)
  }

  function Joined(c: Config, t: Table, from: nat, n: nat, at: real): Table
    decreases n
  {
    if n == 0 then t else Joined(c, t[Name(from) := BucketEntry(c.capacity as real - 1.0, at)], from + 1, n - 1, at)
  }

  ghost predicate Below(t: Table, from: nat) {
    forall k | k in t :: |k| < from
  }

  lemma NewEntry(t: Table, from: nat, e: BucketEntry)
    requires Below(t, from)
    ensures Name(from) !in t
    ensures var next := t[Name(from) := e];
            Below(next, from + 1) && |next| == |t| + 1 && forall k | k in t :: k in next && next[k] == t[k]
  {
    var next := t[Name(from) := e];
    assert next.Keys == t.Keys + {Name(from)};
  }

  /** These entries, and besides them only such that were made at one reading. */
  ghost predicate Extends(t: Table, all: Table, at: real) {
    && (forall k | k in t :: k in all && all[k] == t[k])
    && (forall k | k in all && k !in t :: all[k].updatedAt == at)
  }

  lemma {:induction false} JoinedIs(c: Config, t: Table, from: nat, n: nat, at: real)
    requires Below(t, from)
    ensures var all := Joined(c, t, from, n, at);
            |all| == |t| + n && Below(all, from + n) && Extends(t, all, at)
    decreases n
  {
    if n == 0 {
      assert Extends(t, t, at);
    } else {
      hide *;
      var e := BucketEntry(c.capacity as real - 1.0, at);
      NewEntry(t, from, e);
      JoinedUnfolds(c, t, from, n, at);
      JoinedIs(c, t[Name(from) := e], from + 1, n - 1, at);
      ExtendsThrough(t, Name(from), e, Joined(c, t, from, n, at), at);
    }
  }

  lemma JoinedUnfolds(c: Config, t: Table, from: nat, n: nat, at: real)
    requires n > 0
    ensures Joined(c, t, from, n, at)
            == Joined(c, t[Name(from) := BucketEntry(c.capacity as real - 1.0, at)], from + 1, n - 1, at)
  {
  }

  lemma ExtendsThrough(t: Table, key: string, e: BucketEntry, all: Table, at: real)
    requires key !in t && e.updatedAt == at && Extends(t[key := e], all, at)
    ensures Extends(t, all, at)
  {
  }

  /** A key without an entry is admitted below the cap, by either table. */
  lemma NewKeyStep(c: Config, t: Table, key: string, at: real)
    requires c.Positive() && key !in t && |t| < MAX_TRACKED_KEYS
    ensures var r, next := Request(key, at), t[key := BucketEntry(c.capacity as real - 1.0, at)];
            Decide(c, t, r) == Allowed && Next(c, t, r) == next && Charged(c, t, r) == next
  {
    SameReading(c, c.capacity as real, at);
  }

  function UnboundedAfter(c: Config, t: Table, run: seq<Request>): Table
    requires c.Positive()
    decreases run
  {
    if run == [] then t else UnboundedAfter(c, Charged(c, t, run[0]), run[1..])
  }

  /** No request of the run is turned away for want of a table slot. */
  ghost predicate AllAdmitted(c: Config, t: Table, run: seq<Request>)
    requires c.Positive()
    decreases run
  {
    run == [] || (!Decide(c, t, run[0]).TableFull? && AllAdmitted(c, Next(c, t, run[0]), run[1..]))
  }

  lemma RunUnfolds(c: Config, t: Table, r: Request, rest: seq<Request>)
    requires c.Positive()
    ensures AllAdmitted(c, t, [r] + rest) <==> !Decide(c, t, r).TableFull? && AllAdmitted(c, Next(c, t, r), rest)
    ensures After(c, t, [r] + rest) == After(c, Next(c, t, r), rest)
    ensures UnboundedAfter(c, t, [r] + rest) == UnboundedAfter(c, Charged(c, t, r), rest)
  {
    hide Decide, Next, Charged;
    assert ([r] + rest)[1..] == rest;
  }

  lemma {:induction false} CrowdIsServed(c: Config, t: Table, from: nat, n: nat, at: real)
    requires c.Positive() && Below(t, from) && |t| + n <= MAX_TRACKED_KEYS
    ensures AllAdmitted(c, t, Crowd(from, n, at))
    ensures After(c, t, Crowd(from, n, at)) == Joined(c, t, from, n, at)
    ensures UnboundedAfter(c, t, Crowd(from, n, at)) == Joined(c, t, from, n, at)
    decreases n
  {
    hide Decide, Next, Charged, Below, Name;
    if n > 0 {
      var e := BucketEntry(c.capacity as real - 1.0, at);
      NewEntry(t, from, e);
      NewKeyStep(c, t, Name(from), at);
      CrowdIsServed(c, t[Name(from) := e], from + 1, n - 1, at);
      RunUnfolds(c, t, Request(Name(from), at), Crowd(from + 1, n - 1, at));
      hide AllAdmitted, After, UnboundedAfter;
    }
  }

  lemma {:induction false} BurstIsServed(c: Config, key: string, tokens: real, at: real, n: nat)
    requires c.Positive() && 0.0 <= tokens <= c.capacity as real
    ensures AllAdmitted(c, One(key, tokens, at), Burst(key, at, n))
    ensures UnboundedAfter(c, One(key, tokens, at), Burst(key, at, n)) == One(key, Drained(tokens, n), at)
  {
    if n > 0 {
      OneStep(c, key, tokens, at, at);
      SameReading(c, tokens, at);
      assert !Decide(c, One(key, tokens, at), Request(key, at)).TableFull?;
      assert Burst(key, at, n)[1..] == Burst(key, at, n - 1);
      hide Next, Charged, Refilled, Decide, One;
      BurstIsServed(c, key, if tokens >= 1.0 then tokens - 1.0 else tokens, at, n - 1);
    }
  }

  /** From empty tables a key can spend its whole capacity at once. */
  lemma BurstFromEmpty(c: Config, key: string, at: real)
    requires c.Positive()
    ensures var run := Burst(key, at, c.capacity);
            && AllAdmitted(c, map[], run)
            && After(c, map[], run) == One(key, 0.0, at) && UnboundedAfter(c, map[], run) == One(key, 0.0, at)
  {
    var run, full := Burst(key, at, c.capacity), c.capacity as real;
    BurstOnOne(c, key, full, at, c.capacity);
    BurstIsServed(c, key, full, at, c.capacity);
    DrainedIs(full, c.capacity);
    StartsFull(c, key, at, run[1..]);
    assert !Decide(c, map[], run[0]).TableFull?;
    hide Next, Charged, Refilled, Decide, One, Drained;
    assert run[0] == Request(key, at);
  }

  // ---- the refinement ----

  /** The refinement, one admitted request at a time. */
  lemma RefinesUnfolds(c: Config, bounded: Table, unbounded: Table, r: Request, rest: seq<Request>)
    requires c.Positive() && !Decide(c, bounded, r).TableFull?
    ensures Refines(c, bounded, unbounded, [r] + rest) <==>
              Decide(c, bounded, r) == Verdict(c, Level(c, unbounded, r))
              && Refines(c, Next(c, bounded, r), Charged(c, unbounded, r), rest)
  {
    hide Decide, Verdict, Level, Next, Charged;
    var run := [r] + rest;
    assert run[0] == r && run[1..] == rest;
    var next, ds := Next(c, bounded, r), Decisions(c, bounded, run);
    assert ds[0] == Decide(c, bounded, r) && ds[1..] == Decisions(c, next, rest);
    var admitted, later := Admitted(run, ds), Admitted(rest, ds[1..]);
    assert admitted[0] == r && admitted[1..] == later;
    var us := UnboundedDecisions(c, unbounded, admitted);
    assert us[0] == Verdict(c, Level(c, unbounded, r));
    assert us[1..] == UnboundedDecisions(c, Charged(c, unbounded, r), later);
    assert Verdicts(ds)[0] == ds[0] && Verdicts(ds)[1..] == Verdicts(ds[1..]);
  }

  lemma {:induction false} RefinesAfter(c: Config, bounded: Table, unbounded: Table, a: seq<Request>,
                                        rest: seq<Request>)
    requires c.Positive() && AllAdmitted(c, bounded, a) && Refines(c, bounded, unbounded, a + rest)
    ensures Refines(c, After(c, bounded, a), UnboundedAfter(c, unbounded, a), rest)
    decreases a
  {
    hide Decide, Verdict, Level, Next, Charged, Refines;
    if a == [] {
      assert a + rest == rest;
    } else {
      assert a + rest == [a[0]] + (a[1..] + rest);
      RefinesUnfolds(c, bounded, unbounded, a[0], a[1..] + rest);
      RefinesAfter(c, Next(c, bounded, a[0]), Charged(c, unbounded, a[0]), a[1..], rest);
    }
  }

  /** Where one table holds enough for a burst and the other does not, their decisions differ. */
  lemma {:induction false} BurstDiffers(c: Config, bounded: Table, unbounded: Table, key: string, at: real, n: nat)
    requires c.Positive() && (key in bounded || |bounded| < MAX_TRACKED_KEYS)
    requires Level(c, unbounded, Request(key, at)) < n as real <= Level(c, bounded, Request(key, at))
    requires n > 0
    ensures !Refines(c, bounded, unbounded, Burst(key, at, n))
    decreases n
  {
    var r, rest := Request(key, at), Burst(key, at, n - 1);
    var low, high := Level(c, unbounded, r), Level(c, bounded, r);
    assert Evicted(c, bounded, r) == bounded;
    assert Decide(c, bounded, r) == Allowed && Next(c, bounded, r) == Charged(c, bounded, r);
    assert low < 1.0 ==> Verdict(c, low) != Allowed;
    ChargedLevel(c, bounded, r);
    if low >= 1.0 {
      ChargedLevel(c, unbounded, r);
    }
    hide Refines, Decide, Next, Charged, Level, Verdict;
    RefinesUnfolds(c, bounded, unbounded, r, rest);
    if low >= 1.0 {
      BurstDiffers(c, Charged(c, bounded, r), Charged(c, unbounded, r), key, at, n - 1);
    }
  }

  /** A request that is granted takes one token. */
  lemma ChargedLevel(c: Config, t: Table, r: Request)
    requires c.Positive() && Level(c, t, r) >= 1.0
    ensures r.key in Charged(c, t, r) && Level(c, Charged(c, t, r), r) == Level(c, t, r) - 1.0
  {
    SameReading(c, Level(c, t, r) - 1.0, r.now);
  }

  ghost predicate RefinementHolds(c: Config, lag: real)
    requires c.Positive()
  {
    forall run: seq<Request> | run != [] && LagsWithin(lag, run[0].now, run) :: Refines(c, map[], map[], run)
  }

  lemma {:induction false} LagsLess(lag: real, more: real, newest: real, run: seq<Request>)
    requires lag <= more && LagsWithin(lag, newest, run)
    ensures LagsWithin(more, newest, run)
    decreases run
  {
    if run != [] {
      LagsLess(lag, more, Later(newest, run[0].now), run[1..]);
    }
  }

  lemma {:induction false} LagsOfOneReading(lag: real, at: real, a: seq<Request>, rest: seq<Request>)
    requires lag >= 0.0 && (forall r | r in a :: r.now == at) && LagsWithin(lag, at, rest)
    ensures LagsWithin(lag, at, a + rest)
    decreases a
  {
    if a == [] {
      assert a + rest == rest;
    } else {
      assert a[0] in a && (a + rest)[1..] == a[1..] + rest;
      LagsOfOneReading(lag, at, a[1..], rest);
    }
  }

  lemma {:induction false} BurstReadings(key: string, at: real, n: nat)
    ensures forall r | r in Burst(key, at, n) :: r == Request(key, at)
  {
    if n > 0 {
      BurstReadings(key, at, n - 1);
    }
  }

  lemma {:induction false} CrowdReadings(from: nat, n: nat, at: real)
    ensures forall r | r in Crowd(from, n, at) :: r.now == at && |r.key| >= from
    decreases n
  {
    if n > 0 {
      CrowdReadings(from + 1, n - 1, at);
    }
  }

  /** One key spends everything at reading 0 and others fill the table; a new key read after the stale
      limit evicts them all; then the first key asks again with a reading from before. */
  function Overtaken(c: Config, late: real, back: real): seq<Request>
    requires c.capacity >= 0
  {
    Burst(Name(0), 0.0, c.capacity)
    + (Crowd(1, MAX_TRACKED_KEYS - 1, 0.0)
      + ([Request(Name(MAX_TRACKED_KEYS), late)] + Burst(Name(0), back, c.capacity)))
  }

  lemma OvertakenLags(c: Config, lag: real, late: real, back: real)
    requires c.Positive() && lag >= 0.0 && 0.0 <= late && late - lag <= back <= late
    ensures LagsWithin(lag, 0.0, Overtaken(c, late, back))
  {
    var burst, last := Burst(Name(0), back, c.capacity), [Request(Name(MAX_TRACKED_KEYS), late)];
    var first, crowd := Burst(Name(0), 0.0, c.capacity), Crowd(1, MAX_TRACKED_KEYS - 1, 0.0);
    BurstReadings(Name(0), back, c.capacity);
    BurstReadings(Name(0), 0.0, c.capacity);
    CrowdReadings(1, MAX_TRACKED_KEYS - 1, 0.0);
    LagsOfEarlierReading(lag, late, back, burst);
    assert (last + burst)[1..] == burst;
    assert LagsWithin(lag, 0.0, last + burst);
    LagsOfOneReading(lag, 0.0, crowd, last + burst);
    LagsOfOneReading(lag, 0.0, first, crowd + (last + burst));
  }

  lemma {:induction false} LagsOfEarlierReading(lag: real, newest: real, at: real, run: seq<Request>)
    requires newest - lag <= at <= newest && forall r | r in run :: r.now == at
    ensures LagsWithin(lag, newest, run)
    decreases run
  {
    if run != [] {
      assert run[0] in run;
      LagsOfEarlierReading(lag, newest, at, run[1..]);
    }
  }

  /** The full table in which everything was read at 0 and the first key has spent everything. */
  function FullTable(c: Config): Table {
    Joined(c, One(Name(0), 0.0, 0.0), 1, MAX_TRACKED_KEYS - 1, 0.0)
  }

  lemma FullTableIs(c: Config)
    ensures var t := FullTable(c);
            && |t| == MAX_TRACKED_KEYS && Below(t, MAX_TRACKED_KEYS)
            && Name(0) in t && t[Name(0)] == BucketEntry(0.0, 0.0)
            && forall k | k in t :: t[k].updatedAt == 0.0
  {
    JoinedIs(c, One(Name(0), 0.0, 0.0), 1, MAX_TRACKED_KEYS - 1, 0.0);
  }

  /** A new key after the stale limit finds every other entry stale. */
  lemma LatecomerEvictsAll(c: Config, late: real)
    requires c.Positive() && late > c.StaleAfter()
    ensures var t, r := FullTable(c), Request(Name(MAX_TRACKED_KEYS), late);
            && Decide(c, t, r) == Allowed && Next(c, t, r) == One(r.key, c.capacity as real - 1.0, late)
            && Name(0) in Charged(c, t, r) && Charged(c, t, r)[Name(0)] == BucketEntry(0.0, 0.0)
  {
    var t, r := FullTable(c), Request(Name(MAX_TRACKED_KEYS), late);
    FullTableIs(c);
    assert r.key !in t && r.key != Name(0);
    assert Live(c, t, late) == map[];
    SameReading(c, c.capacity as real, late);
    hide FullTable;
  }

  lemma RefillWithinPeriod(c: Config, seconds: real)
    requires c.Valid() && 0.0 <= seconds < c.periodSeconds as real
    ensures 0.0 <= Refill(c, seconds) < c.capacity as real
  {
    assert (c.periodSeconds as real - seconds) * c.refillPerSecond > 0.0;
  }

  lemma OvertakenBreaksRefinement(c: Config, late: real, back: real)
    requires c.Valid() && late > c.StaleAfter() && 0.0 <= back < c.periodSeconds as real
    ensures !Refines(c, map[], map[], Overtaken(c, late, back))
  {
    var first, crowd := Burst(Name(0), 0.0, c.capacity), Crowd(1, MAX_TRACKED_KEYS - 1, 0.0);
    var r, last := Request(Name(MAX_TRACKED_KEYS), late), Burst(Name(0), back, c.capacity);
    var spent, full := One(Name(0), 0.0, 0.0), FullTable(c);
    if Refines(c, map[], map[], Overtaken(c, late, back)) {
      hide Refines, Decide, Next, Charged, Level, Joined, FullTable;
      BurstFromEmpty(c, Name(0), 0.0);
      RefinesAfter(c, map[], map[], first, crowd + ([r] + last));
      CrowdIsServed(c, spent, 1, MAX_TRACKED_KEYS - 1, 0.0);
      FullTableJoins(c);
      RefinesAfter(c, spent, spent, crowd, [r] + last);
      LatecomerEvictsAll(c, late);
      RefinesUnfolds(c, full, full, r, last);
      OvertakenLevels(c, late, back);
      BurstDiffers(c, Next(c, full, r), Charged(c, full, r), Name(0), back, c.capacity);
    }
  }

  lemma FullTableJoins(c: Config)
    ensures FullTable(c) == Joined(c, One(Name(0), 0.0, 0.0), 1, MAX_TRACKED_KEYS - 1, 0.0)
    ensures Below(One(Name(0), 0.0, 0.0), 1) && |One(Name(0), 0.0, 0.0)| == 1
  {
  }

  lemma OvertakenLevels(c: Config, late: real, back: real)
    requires c.Valid() && late > c.StaleAfter() && 0.0 <= back < c.periodSeconds as real
    ensures var t, r := FullTable(c), Request(Name(MAX_TRACKED_KEYS), late);
            var b, u := Next(c, t, r), Charged(c, t, r);
            && Name(0) !in b && |b| < MAX_TRACKED_KEYS
            && Level(c, u, Request(Name(0), back)) < c.capacity as real == Level(c, b, Request(Name(0), back))
  {
    LatecomerEvictsAll(c, late);
    RefillWithinPeriod(c, back);
    SameReading(c, c.capacity as real, back);
    hide FullTable, Next, Charged, Refill;
  }

  /** The bounded table refines the unbounded one on all runs of this lag exactly when the lag is at most
      one period. */
  lemma RefinementHoldsExactly(c: Config, lag: real)
    requires c.Valid()
    ensures RefinementHolds(c, lag) <==> lag <= c.periodSeconds as real
  {
    var period := c.periodSeconds as real;
    if lag <= period {
      forall run: seq<Request> | run != [] && LagsWithin(lag, run[0].now, run)
        ensures Refines(c, map[], map[], run)
      {
        LagsLess(lag, period, run[0].now, run);
        BoundedRefinesUnbounded(c, run);
      }
    } else {
      var excess := if lag - period < period then lag - period else period;
      var late, back := 2.0 * period + excess / 2.0, period - excess / 2.0;
      OvertakenLags(c, lag, late, back);
      OvertakenBreaksRefinement(c, late, back);
      var run := Overtaken(c, late, back);
      assert run[0].now == 0.0 by {
        assert Burst(Name(0), 0.0, c.capacity)[0] == Request(Name(0), 0.0);
      }
    }
  }

  // ---- the wait that a bucket advertises ----

  /** The refused key is allowed after this wait exactly when it is the advertised one. */
  ghost predicate WaitIsRight(c: Config, t: Table, key: string, now: real, others: seq<Request>, wait: int)
    requires c.Positive()
  {
    Allows(c, After(c, Next(c, t, Request(key, now)), others), Request(key, now + wait as real))
    <==> Decide(c, t, Request(key, now)) == Limited(wait)
  }

  ghost predicate AsksAgain(c: Config, deadline: real, t: Table, key: string, now: real, others: seq<Request>,
                            wait: int)
    requires c.Positive()
  {
    && Sound(c, t) && Decide(c, t, Request(key, now)).Limited?
    && 1 <= wait <= Decide(c, t, Request(key, now)).retryAfter
    && OthersUntil(key, now + deadline, others)
  }

  /** The wait of a key refused by its own bucket is exact whatever other keys do, as long as none is
      read later than this. */
  ghost predicate WaitIsExact(c: Config, deadline: real)
    requires c.Positive()
  {
    forall t: Table, key: string, now: real, others: seq<Request>, wait: int ::
      AsksAgain(c, deadline, t, key, now, others, wait) ==> WaitIsRight(c, t, key, now, others, wait)
  }

  /** In a table at its cap where everything else was just used, a stale entry makes room for one key. */
  lemma StaleMakesRoom(c: Config, t: Table, from: nat, late: real)
    requires c.Positive() && late > c.StaleAfter() && |t| == MAX_TRACKED_KEYS && Below(t, from) && from > 0
    requires Name(0) in t && t[Name(0)].updatedAt == 0.0
    requires forall k | k in t && k != Name(0) :: t[k].updatedAt == late
    ensures var after := Next(c, t, Request(Name(from), late));
            |after| == MAX_TRACKED_KEYS && Name(0) !in after && forall k | k in after :: after[k].updatedAt == late
  {
    var r := Request(Name(from), late);
    assert Name(from) !in t;
    var live := Live(c, t, late);
    assert live.Keys == t.Keys - {Name(0)} && |live.Keys| == MAX_TRACKED_KEYS - 1;
    var after := Next(c, t, r);
    assert after == Charged(c, live, r);
    assert after.Keys == live.Keys + {Name(from)} && |after.Keys| == MAX_TRACKED_KEYS;
  }

  lemma NoRoom(c: Config, t: Table, key: string, back: real, late: real)
    requires c.Positive() && |t| == MAX_TRACKED_KEYS && key !in t && back <= late
    requires forall k | k in t :: t[k].updatedAt == late
    ensures !Allows(c, t, Request(key, back))
  {
    assert Live(c, t, back) == t;
  }

  lemma AfterOneRequest(c: Config, t: Table, r: Request)
    requires c.Positive()
    ensures After(c, t, [r]) == Next(c, t, r)
  {
    hide Next;
    assert [r][1..] == [];
  }

  lemma JoinedAll(c: Config, late: real)
    ensures var spent, n := One(Name(0), 0.0, 0.0), MAX_TRACKED_KEYS;
            var full := Joined(c, spent, 1, n - 1, late);
            && n > 0 && Below(spent, 1) && |spent| == 1
            && |full| == n && Below(full, n) && Name(0) in full && full[Name(0)].updatedAt == 0.0
            && forall k | k in full && k != Name(0) :: full[k].updatedAt == late
  {
    JoinedIs(c, One(Name(0), 0.0, 0.0), 1, MAX_TRACKED_KEYS - 1, late);
    hide Joined, Below;
  }

  /** Others fill the table and, read after the stale limit, evict the refused key and leave no room. */
  lemma CrowdLocksOut(c: Config, late: real, back: real)
    requires c.Positive() && late > c.StaleAfter() && 0.0 <= back <= c.StaleAfter()
    ensures !Allows(c, After(c, One(Name(0), 0.0, 0.0), Crowd(1, MAX_TRACKED_KEYS, late)), Request(Name(0), back))
  {
    hide *;
    var spent, n := One(Name(0), 0.0, 0.0), MAX_TRACKED_KEYS;
    JoinedAll(c, late);
    var full, r := Joined(c, spent, 1, n - 1, late), Request(Name(n), late);
    CrowdSplits(1, n - 1, late);
    AfterAppends(c, spent, Crowd(1, n - 1, late), [r]);
    CrowdIsServed(c, spent, 1, n - 1, late);
    StaleMakesRoom(c, full, n, late);
    AfterOneRequest(c, full, r);
    NoRoom(c, Next(c, full, r), Name(0), back, late);
  }

  lemma {:induction false} CrowdSplits(from: nat, n: nat, at: real)
    ensures Crowd(from, n + 1, at) == Crowd(from, n, at) + [Request(Name(from + n), at)]
    decreases n
  {
    if n > 0 {
      CrowdSplits(from + 1, n - 1, at);
    }
  }

  lemma SpentKeyIsRefused(c: Config)
    requires c.Valid()
    ensures var t, r := One(Name(0), 0.0, 0.0), Request(Name(0), 0.0);
            var wait := RetryAfter(c, 0.0);
            && Sound(c, t) && Next(c, t, r) == t && Decide(c, t, r) == Limited(wait) && 1 <= wait
            && 0.0 <= wait as real <= c.StaleAfter()
  {
    OneStep(c, Name(0), 0.0, 0.0, 0.0);
    SameReading(c, 0.0, 0.0);
    RetryAfterThreshold(c, 0.0, c.periodSeconds);
  }

  lemma CrowdIsOthers(late: real)
    ensures OthersUntil(Name(0), 0.0 + late, Crowd(1, MAX_TRACKED_KEYS, late))
  {
    CrowdReadings(1, MAX_TRACKED_KEYS, late);
  }

  lemma WaitFails(c: Config, deadline: real)
    requires c.Valid() && deadline > c.StaleAfter()
    ensures !WaitIsExact(c, deadline)
  {
    var t, others, wait := One(Name(0), 0.0, 0.0), Crowd(1, MAX_TRACKED_KEYS, deadline), RetryAfter(c, 0.0);
    hide One, Crowd, RetryAfter, Name, Decide, Next, Allows, After, Sound, OthersUntil;
    SpentKeyIsRefused(c);
    CrowdIsOthers(deadline);
    CrowdLocksOut(c, deadline, 0.0 + wait as real);
    assert AsksAgain(c, deadline, t, Name(0), 0.0, others, wait);
    assert !WaitIsRight(c, t, Name(0), 0.0, others, wait);
  }

  /** The wait advertised by a bucket is exact for every table, key and traffic of other keys read up to
      a deadline exactly when that deadline is within the stale limit. */
  lemma WaitIsExactExactly(c: Config, deadline: real)
    requires c.Valid()
    ensures WaitIsExact(c, deadline) <==> deadline <= c.StaleAfter()
  {
    if deadline <= c.StaleAfter() {
      forall t: Table, key: string, now: real, others: seq<Request>, wait: int
        | AsksAgain(c, deadline, t, key, now, others, wait)
        ensures WaitIsRight(c, t, key, now, others, wait)
      {
        RetryAfterIsExact(c, t, key, now, others, wait);
        hide Allows, After, Next;
      }
    } else {
      WaitFails(c, deadline);
    }
  }

  // ---- the wait that a full table advertises ----

  /** An entry that a reading finds idle for longer than the stale limit. */
  ghost predicate HasStale(c: Config, t: Table, now: real) {
    exists k :: k in t && t[k].updatedAt + c.StaleAfter() < now
  }

  /** A key without an entry is allowed exactly when there is room, or something to evict. */
  lemma NewKeyIsAllowed(c: Config, t: Table, key: string, now: real)
    requires c.Positive() && key !in t && |t| <= MAX_TRACKED_KEYS
    ensures Allows(c, t, Request(key, now)) <==> |t| < MAX_TRACKED_KEYS || HasStale(c, t, now)
  {
    SameReading(c, c.capacity as real, now);
    TableFullExactly(c, t, Request(key, now));
    if HasStale(c, t, now) {
      var k :| k in t && t[k].updatedAt + c.StaleAfter() < now;
      assert Elapsed(now, t[k].updatedAt) > c.StaleAfter();
    }
  }

  /** A table-full refusal changes nothing. */
  lemma TableFullKeepsTable(c: Config, t: Table, key: string, now: real)
    requires c.Positive() && |t| <= MAX_TRACKED_KEYS && Decide(c, t, Request(key, now)).TableFull?
    ensures Next(c, t, Request(key, now)) == t && key !in t && |t| == MAX_TRACKED_KEYS
    ensures Decide(c, t, Request(key, now)) == TableFull(Max(1, 2 * c.periodSeconds))
    ensures !HasStale(c, t, now)
  {
    TableFullExactly(c, t, Request(key, now));
    assert Live(c, t, now) == t;
  }

  /** After a table-full refusal and no other traffic, the key is allowed at a later reading exactly when
      some tracked key is stale by then, whatever wait was advertised. */
  lemma AfterTableFull(c: Config, t: Table, key: string, now: real, later: real)
    requires c.Positive() && |t| <= MAX_TRACKED_KEYS && Decide(c, t, Request(key, now)).TableFull?
    ensures Allows(c, Next(c, t, Request(key, now)), Request(key, later)) <==> HasStale(c, t, later)
  {
    TableFullKeepsTable(c, t, key, now);
    NewKeyIsAllowed(c, t, key, later);
  }

  ghost predicate AllowedAfter(c: Config, t: Table, key: string, now: real, wait: int)
    requires c.Positive()
  {
    Allows(c, Next(c, t, Request(key, now)), Request(key, now + wait as real))
  }

  /** A table-full wait is exact when the key is allowed after it and after no smaller whole number of
      seconds, with no other traffic. */
  ghost predicate TableFullWaitIsRight(c: Config, t: Table, key: string, now: real)
    requires c.Positive()
  {
    forall wait: int | 1 <= wait <= 2 * c.periodSeconds ::
      AllowedAfter(c, t, key, now, wait) <==> wait == 2 * c.periodSeconds
  }

  /** It is exactly when the least recently used tracked key was used before the refusal, but not more
      than a second before. */
  lemma TableFullWaitExactly(c: Config, t: Table, key: string, now: real)
    requires c.Positive() && |t| <= MAX_TRACKED_KEYS && Decide(c, t, Request(key, now)).TableFull?
    ensures TableFullWaitIsRight(c, t, key, now) <==>
            (exists k :: k in t && t[k].updatedAt < now) && (forall k | k in t :: now - 1.0 <= t[k].updatedAt)
  {
    var last := 2 * c.periodSeconds;
    forall wait: int
      ensures AllowedAfter(c, t, key, now, wait) <==> HasStale(c, t, now + wait as real)
    {
      AfterTableFull(c, t, key, now, now + wait as real);
    }
    hide Allows, Next, AllowedAfter;
    assert HasStale(c, t, now + last as real) <==> exists k :: k in t && t[k].updatedAt < now;
    assert HasStale(c, t, now + (last - 1) as real) <==> exists k :: k in t && t[k].updatedAt < now - 1.0;
    if TableFullWaitIsRight(c, t, key, now) {
      assert AllowedAfter(c, t, key, now, last) && !AllowedAfter(c, t, key, now, last - 1);
      forall k | k in t
        ensures now - 1.0 <= t[k].updatedAt
      {
        assert !HasStale(c, t, now + (last - 1) as real);
      }
    }
  }

  // Both ways in which it is wrong, from the empty table.

  lemma CrowdedTable(c: Config, used: real)
    requires c.Positive()
    ensures var t := After(c, map[], Crowd(1, MAX_TRACKED_KEYS, used));
            |t| == MAX_TRACKED_KEYS && Name(0) !in t && forall k | k in t :: t[k].updatedAt == used
  {
    var t: Table := map[];
    CrowdIsServed(c, t, 1, MAX_TRACKED_KEYS, used);
    JoinedIs(c, t, 1, MAX_TRACKED_KEYS, used);
    NoShortNames(c, used);
  }

  lemma NoShortNames(c: Config, used: real)
    ensures Name(0) !in Joined(c, map[], 1, MAX_TRACKED_KEYS, used)
  {
    JoinedNames(c, map[], 1, MAX_TRACKED_KEYS, used);
  }

  lemma {:induction false} JoinedNames(c: Config, t: Table, from: nat, n: nat, at: real)
    requires from > 0 && Name(0) !in t
    ensures Name(0) !in Joined(c, t, from, n, at)
    decreases n
  {
    if n > 0 {
      assert Name(from) != Name(0);
      JoinedNames(c, t[Name(from) := BucketEntry(c.capacity as real - 1.0, at)], from + 1, n - 1, at);
    }
  }

  /** A table that others filled at one reading, within the stale limit of the refusal: the refused key
      is told two periods, and is allowed once their stale limit has passed. */
  lemma RefusedByCrowd(c: Config, used: real, now: real, later: real)
    requires c.Valid() && used <= now <= used + c.StaleAfter()
    ensures var t, r := After(c, map[], Crowd(1, MAX_TRACKED_KEYS, used)), Request(Name(0), now);
            && Decide(c, t, r) == TableFull(2 * c.periodSeconds)
            && (Allows(c, Next(c, t, r), Request(Name(0), later)) <==> used + c.StaleAfter() < later)
  {
    hide After, Crowd, Name;
    CrowdedTable(c, used);
    var t, r := After(c, map[], Crowd(1, MAX_TRACKED_KEYS, used)), Request(Name(0), now);
    TableFullExactly(c, t, r);
    TableFullKeepsTable(c, t, Name(0), now);
    AfterTableFull(c, t, Name(0), now, later);
    SomeEntry(t);
    hide Allows, Next, Decide;
    assert HasStale(c, t, later) <==> used + c.StaleAfter() < later;
  }

  lemma SomeEntry(t: Table)
    requires |t| == MAX_TRACKED_KEYS
    ensures exists k :: k in t
  {
    assert t.Keys != {};
    var k :| k in t.Keys;
  }

  /** Too short: after exactly the advertised wait the key is refused again, though nobody else asked. */
  lemma TableFullWaitIsTooShort(c: Config, now: real)
    requires c.Valid()
    ensures var t, r := After(c, map[], Crowd(1, MAX_TRACKED_KEYS, now)), Request(Name(0), now);
            && Decide(c, t, r) == TableFull(2 * c.periodSeconds)
            && !Allows(c, Next(c, t, r), Request(Name(0), now + (2 * c.periodSeconds) as real))
  {
    RefusedByCrowd(c, now, now, now + (2 * c.periodSeconds) as real);
  }

  /** Too long: the key is allowed after one second of it. */
  lemma TableFullWaitIsTooLong(c: Config, now: real)
    requires c.Valid()
    ensures var t, r := After(c, map[], Crowd(1, MAX_TRACKED_KEYS, now - c.StaleAfter())), Request(Name(0), now);
            && Decide(c, t, r) == TableFull(2 * c.periodSeconds)
            && Allows(c, Next(c, t, r), Request(Name(0), now + 1.0))
  {
    RefusedByCrowd(c, now - c.StaleAfter(), now, now + 1.0);
  }

  // With other traffic.

  /** Other keys never give a key an entry. */
  lemma {:induction false} OthersAddNoEntry(c: Config, t: Table, key: string, others: seq<Request>)
    requires c.Positive() && key !in t && |t| <= MAX_TRACKED_KEYS && Sound(c, t)
    requires forall r | r in others :: r.key != key
    ensures key !in After(c, t, others) && |After(c, t, others)| <= MAX_TRACKED_KEYS
    decreases others
  {
    if others != [] {
      assert others[0] in others;
      CheckKeepsInvariant(c, t, others[0]);
      assert key !in Next(c, t, others[0]);
      OthersAddNoEntry(c, Next(c, t, others[0]), key, others[1..]);
    }
  }

  /** After a table-full refusal and any traffic of other keys, the key is allowed exactly when they left
      room or something to evict. */
  lemma AfterTableFullWithOthers(c: Config, t: Table, key: string, now: real, others: seq<Request>, later: real)
    requires c.Positive() && Sound(c, t) && |t| <= MAX_TRACKED_KEYS && Decide(c, t, Request(key, now)).TableFull?
    requires forall r | r in others :: r.key != key
    ensures var after := After(c, Next(c, t, Request(key, now)), others);
            Allows(c, after, Request(key, later)) <==> |after| < MAX_TRACKED_KEYS || HasStale(c, after, later)
  {
    TableFullKeepsTable(c, t, key, now);
    OthersAddNoEntry(c, t, key, others);
    NewKeyIsAllowed(c, After(c, t, others), key, later);
  }

  /** These keys ask again at one reading, and no other. */
  lemma {:induction false} AskAgain(c: Config, t: Table, keys: set<string>, at: real) returns (others: seq<Request>)
    requires c.Positive() && keys <= t.Keys
    ensures forall r | r in others :: r.key in keys && r.now == at
    ensures After(c, t, others).Keys == t.Keys
    ensures forall k | k in t :: After(c, t, others)[k].updatedAt == if k in keys then at else t[k].updatedAt
    decreases keys
  {
    if keys == {} {
      others := [];
    } else {
      var k :| k in keys;
      var next := Next(c, t, Request(k, at));
      assert next.Keys == t.Keys && next[k].updatedAt == at && forall x | x in t && x != k :: next[x] == t[x];
      var rest := AskAgain(c, next, keys - {k}, at);
      others := [Request(k, at)] + rest;
      AfterUnfolds(c, t, Request(k, at), rest);
    }
  }

  /** Others can keep the table full for any wait, by asking again just before it is over. */
  lemma OthersKeepTableFull(c: Config, t: Table, key: string, now: real, later: real)
    requires c.Positive() && Sound(c, t) && |t| <= MAX_TRACKED_KEYS && Decide(c, t, Request(key, now)).TableFull?
    ensures exists others: seq<Request> ::
              && (forall r | r in others :: r.key != key && r.now == later)
              && !Allows(c, After(c, Next(c, t, Request(key, now)), others), Request(key, later))
  {
    TableFullKeepsTable(c, t, key, now);
    var others := AskAgain(c, t, t.Keys, later);
    AfterTableFullWithOthers(c, t, key, now, others, later);
    var after := After(c, t, others);
    assert |after| == |after.Keys| == |t.Keys| == |t|;
    hide Allows, Next, Decide, After;
    assert !HasStale(c, after, later);
  }
}
