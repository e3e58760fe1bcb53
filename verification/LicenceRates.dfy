/** The licence-rate fallback of load_ec2_rates in research/Add-CloudTcoConverters.py: instances without
    a published SQL Server rate are priced from the lowest licence rate per core of their region. */
module LicenceRates {
  import opened Wrappers

  const MINIMUM_BILLABLE_CORES := 4.0

  datatype Edition = Standard | Enterprise

  datatype Key = Key(region: string, instanceType: string)

  /** Hourly rates of one instance type; licensed rates include compute. */
  datatype RateSet = RateSet(compute: Option<real>, licensed: map<Edition, real>, vcpu: real)

  type Rates = map<Key, RateSet>

  function ComputeRate(s: RateSet): real {
    if s.compute.Some? then s.compute.value else 0.0
  }

  function BillableCores(s: RateSet): (cores: real)
    ensures cores > 0.0
  {
    if s.vcpu > MINIMUM_BILLABLE_CORES then s.vcpu else MINIMUM_BILLABLE_CORES
  }

  /** The licence part of a rate, per billable core, when there is one. */
  function CoreRate(s: RateSet, e: Edition): Option<real> {
    if ComputeRate(s) > 0.0 && e in s.licensed && s.licensed[e] > ComputeRate(s) then
      Some((s.licensed[e] - ComputeRate(s)) / BillableCores(s))
    else None
  }

  /** The observed core rates of a region, in the order of the keys. */
  function CoreRates(order: seq<Key>, rates: Rates, region: string, e: Edition): seq<real>
    requires forall k | k in order :: k in rates
  {
    if order == [] then []
    else
      var n := |order| - 1;
      var rate := if order[n].region == region then CoreRate(rates[order[n]], e) else None;
      CoreRates(order[..n], rates, region, e) + if rate.Some? then [rate.value] else []
  }

  function Minimum(s: seq<real>): (m: real)
    requires s != []
    ensures m in s && forall x | x in s :: m <= x
  {
    if |s| == 1 then s[0]
    else
      var m := Minimum(s[1..]);
      assert forall x | x in s :: x == s[0] || x in s[1..];
      if s[0] <= m then s[0] else m
  }

  function MinimumCoreRate(order: seq<Key>, rates: Rates, region: string, e: Edition): Option<real>
    requires forall k | k in order :: k in rates
  {
    var observed := CoreRates(order, rates, region, e);
    if observed == [] then None else Some(Minimum(observed))
  }

  function LicensedRate(s: RateSet, core: real): real {
    ComputeRate(s) + BillableCores(s) * core
  }

  function FilledEdition(s: RateSet, e: Edition, core: Option<real>): map<Edition, real> {
    if ComputeRate(s) > 0.0 && e !in s.licensed && core.Some? then
      s.licensed[e := LicensedRate(s, core.value)]
    else s.licensed
  }

  function Filled(s: RateSet, standard: Option<real>, enterprise: Option<real>): RateSet {
    var once := s.(licensed := FilledEdition(s, Standard, standard));
    once.(licensed := FilledEdition(once, Enterprise, enterprise))
  }

  function Fallback(order: seq<Key>, rates: Rates): Rates
    requires forall k | k in order :: k in rates
  {
    map k | k in rates ::
      Filled(rates[k], MinimumCoreRate(order, rates, k.region, Standard),
        MinimumCoreRate(order, rates, k.region, Enterprise))
  }

  /** Each key once: the iteration order of a dictionary. */
  ghost predicate IsOrder(order: seq<Key>, rates: Rates) {
    && (forall k :: k in order <==> k in rates)
    && forall i, j | 0 <= i < j < |order| :: order[i] != order[j]
  }

  // ---- the two passes ----

  type Lists = map<(string, Edition), seq<real>>

  function ListOf(lists: Lists, region: string, e: Edition): seq<real> {
    if (region, e) in lists then lists[(region, e)] else []
  }

  method Append(lists: Lists, region: string, e: Edition, rate: Option<real>) returns (r: Lists)
    ensures forall g, f ::
            ListOf(r, g, f) == ListOf(lists, g, f) + if g == region && f == e && rate.Some? then [rate.value] else []
  {
    r := if rate.Some? then lists[(region, e) := ListOf(lists, region, e) + [rate.value]] else lists;
  }

  ghost predicate Collected(lists: Lists, order: seq<Key>, rates: Rates, n: nat)
    requires n <= |order| && forall k | k in order :: k in rates
  {
    forall g, f :: ListOf(lists, g, f) == CoreRates(order[..n], rates, g, f)
  }

  lemma CollectedOneMore(lists: Lists, order: seq<Key>, rates: Rates, n: nat, next: Lists)
    requires n < |order| && (forall k | k in order :: k in rates) && Collected(lists, order, rates, n)
    requires forall g, f :: ListOf(next, g, f) == ListOf(lists, g, f) +
                              if g == order[n].region && CoreRate(rates[order[n]], f).Some?
                                then [CoreRate(rates[order[n]], f).value] else []
    ensures Collected(next, order, rates, n + 1)
  {
    hide CoreRate, ListOf;
    assert order[..n + 1][..n] == order[..n];
  }

  method CollectCoreRates(order: seq<Key>, rates: Rates) returns (lists: Lists)
    requires forall k | k in order :: k in rates
    ensures forall g, f :: ListOf(lists, g, f) == CoreRates(order, rates, g, f)
  {
    hide *;
    lists := map[];
    NothingCollected(order, rates);
    for i := 0 to |order|
      invariant Collected(lists, order, rates, i)
    {
      var region, rateSet := order[i].region, rates[order[i]];
      var standard := Append(lists, region, Standard, CoreRate(rateSet, Standard));
      var both := Append(standard, region, Enterprise, CoreRate(rateSet, Enterprise));
      CollectedOneMore(lists, order, rates, i, both);
      lists := both;
    }
    CollectedAll(lists, order, rates);
  }

  lemma NothingCollected(order: seq<Key>, rates: Rates)
    requires forall k | k in order :: k in rates
    ensures Collected(map[], order, rates, 0)
  {
  }

  lemma CollectedAll(lists: Lists, order: seq<Key>, rates: Rates)
    requires (forall k | k in order :: k in rates) && Collected(lists, order, rates, |order|)
    ensures forall g, f :: ListOf(lists, g, f) == CoreRates(order, rates, g, f)
  {
    assert order[..|order|] == order;
  }

  ghost predicate FilledUpTo(after: Rates, order: seq<Key>, rates: Rates, n: nat)
    requires n <= |order| && IsOrder(order, rates)
  {
    && after.Keys == rates.Keys
    && forall j | 0 <= j < |order| ::
      after[order[j]] == if j < n then Fallback(order, rates)[order[j]] else rates[order[j]]
  }

  lemma FilledOneMore(after: Rates, order: seq<Key>, rates: Rates, n: nat)
    requires n < |order| && IsOrder(order, rates) && FilledUpTo(after, order, rates, n)
    ensures order[n] in after && after[order[n]] == rates[order[n]]
    ensures FilledUpTo(after[order[n] := Fallback(order, rates)[order[n]]], order, rates, n + 1)
  {
    hide Filled, MinimumCoreRate;
  }

  lemma FilledAll(after: Rates, order: seq<Key>, rates: Rates)
    requires IsOrder(order, rates) && FilledUpTo(after, order, rates, |order|)
    ensures after == Fallback(order, rates)
  {
    hide Filled, MinimumCoreRate;
    assert forall k | k in rates :: k in order;
  }

  method LicenceFallback(order: seq<Key>, rates: Rates) returns (after: Rates)
    requires IsOrder(order, rates)
    ensures after == Fallback(order, rates)
  {
    var lists := CollectCoreRates(order, rates);
    after := rates;
    hide CoreRates, ListOf, Filled, FilledUpTo, Fallback, Minimum;
    NothingFilled(order, rates);
    for i := 0 to |order|
      invariant FilledUpTo(after, order, rates, i)
    {
      var key := order[i];
      FilledOneMore(after, order, rates, i);
      FallbackOf(order, rates, key);
      var standard, enterprise := ListOf(lists, key.region, Standard), ListOf(lists, key.region, Enterprise);
      after := after[key := Filled(after[key],
        if standard == [] then None else Some(Minimum(standard)),
        if enterprise == [] then None else Some(Minimum(enterprise)))];
    }
    FilledAll(after, order, rates);
  }

  lemma NothingFilled(order: seq<Key>, rates: Rates)
    requires IsOrder(order, rates)
    ensures FilledUpTo(rates, order, rates, 0)
  {
  }

  // ---- what the fallback does ----

  lemma {:induction false} CoreRatesAreObserved(order: seq<Key>, rates: Rates, region: string, e: Edition)
    requires forall k | k in order :: k in rates
    ensures forall x :: x in CoreRates(order, rates, region, e) <==>
                        exists k :: k in order && k.region == region && CoreRate(rates[k], e) == Some(x)
  {
    hide CoreRate;
    if order != [] {
      var n := |order| - 1;
      CoreRatesAreObserved(order[..n], rates, region, e);
      assert forall k :: k in order <==> k in order[..n] || k == order[n];
    }
  }

  lemma FilledMeans(s: RateSet, standard: Option<real>, enterprise: Option<real>, e: Edition)
    ensures var r, core := Filled(s, standard, enterprise), if e == Standard then standard else enterprise;
            && r.compute == s.compute && r.vcpu == s.vcpu
            && (e in s.licensed ==> e in r.licensed && r.licensed[e] == s.licensed[e])
            && (e !in s.licensed ==>
                  if ComputeRate(s) > 0.0 && core.Some? then e in r.licensed
                    && r.licensed[e] == LicensedRate(s, core.value)
                  else e !in r.licensed)
  {
  }

  /** This instance of the region shows a licence rate. */
  predicate Shows(rates: Rates, k: Key, region: string, e: Edition) {
    k in rates && k.region == region && CoreRate(rates[k], e).Some?
  }

  /** The least core rate of a region is one that is shown there, if any is. */
  lemma MinimumCoreRateIsShown(order: seq<Key>, rates: Rates, region: string, e: Edition)
    requires IsOrder(order, rates)
    ensures var core := MinimumCoreRate(order, rates, region, e);
            && (core.Some? <==> exists k :: Shows(rates, k, region, e))
            && (core.Some? ==> exists k :: Shows(rates, k, region, e) && CoreRate(rates[k], e) == core)
            && (forall k | Shows(rates, k, region, e) :: core.value <= CoreRate(rates[k], e).value)
  {
    CoreRatesAreObserved(order, rates, region, e);
    hide CoreRate, CoreRates;
    var observed := CoreRates(order, rates, region, e);
    if observed != [] {
      assert Minimum(observed) in observed;
      var k :| k in order && k.region == region && CoreRate(rates[k], e) == Some(Minimum(observed));
      assert Shows(rates, k, region, e);
    }
    forall k | Shows(rates, k, region, e)
      ensures CoreRate(rates[k], e).value in observed
    {
      assert k in order;
    }
  }

  lemma FallbackOf(order: seq<Key>, rates: Rates, k: Key)
    requires IsOrder(order, rates) && k in rates
    ensures Fallback(order, rates)[k] ==
              Filled(rates[k], MinimumCoreRate(order, rates, k.region, Standard),
                MinimumCoreRate(order, rates, k.region, Enterprise))
  {
    hide Filled, MinimumCoreRate;
  }

  /** Published rates are never changed, and a missing rate is filled exactly when the instance has a
      compute rate and its region shows a licence rate. */
  lemma FallbackFillsWhatIsMissing(order: seq<Key>, rates: Rates, k: Key, e: Edition)
    requires IsOrder(order, rates) && k in rates
    ensures var s, r := rates[k], Fallback(order, rates)[k];
            && r.compute == s.compute && r.vcpu == s.vcpu
            && (e in s.licensed ==> e in r.licensed && r.licensed[e] == s.licensed[e])
            && (e in r.licensed <==>
              e in s.licensed || (ComputeRate(s) > 0.0 && exists x :: Shows(rates, x, k.region, e)))
  {
    FallbackOf(order, rates, k);
    MinimumCoreRateIsShown(order, rates, k.region, e);
    FilledMeans(rates[k], MinimumCoreRate(order, rates, k.region, Standard),
      MinimumCoreRate(order, rates, k.region, Enterprise), e);
    hide Fallback, Filled, MinimumCoreRate, Shows, ComputeRate, BillableCores;
  }

  /** A filled rate charges, per core, the least licence rate that any instance of the region shows. */
  lemma FallbackChargesLeastCoreRate(order: seq<Key>, rates: Rates, k: Key, e: Edition)
    requires IsOrder(order, rates) && k in rates
    requires e !in rates[k].licensed && e in Fallback(order, rates)[k].licensed
    ensures MinimumCoreRate(order, rates, k.region, e).Some?
    ensures CoreRate(Fallback(order, rates)[k], e) == MinimumCoreRate(order, rates, k.region, e)
    ensures forall y | Shows(rates, y, k.region, e) ::
            CoreRate(Fallback(order, rates)[k], e).value <= CoreRate(rates[y], e).value
  {
    var s, r, core := rates[k], Fallback(order, rates)[k], MinimumCoreRate(order, rates, k.region, e);
    FallbackOf(order, rates, k);
    MinimumCoreRateIsShown(order, rates, k.region, e);
    FilledMeans(s, MinimumCoreRate(order, rates, k.region, Standard),
      MinimumCoreRate(order, rates, k.region, Enterprise), e);
    hide *;
    var x :| Shows(rates, x, k.region, e) && CoreRate(rates[x], e) == core;
    FilledCoreRate(s, r, e, core.value, rates[x]);
  }

  /** The rate that was filled in shows the core rate it was computed from. */
  lemma FilledCoreRate(s: RateSet, r: RateSet, e: Edition, core: real, from: RateSet)
    requires r.compute == s.compute && r.vcpu == s.vcpu && ComputeRate(s) > 0.0
    requires e in r.licensed && r.licensed[e] == LicensedRate(s, core)
    requires CoreRate(from, e) == Some(core)
    ensures CoreRate(r, e) == Some(core)
  {
    var compute, cores := ComputeRate(s), BillableCores(s);
    assert ComputeRate(r) == compute && BillableCores(r) == cores && LicensedRate(s, core) == compute + cores * core;
    CoreRateIsPositive(from, e);
    hide *;
    ProductOverFactor(cores, core);
    CoreRateFrom(r, e, compute, cores, cores * core, core);
  }

  lemma CoreRateIsPositive(s: RateSet, e: Edition)
    ensures CoreRate(s, e).Some? ==> CoreRate(s, e).value > 0.0
  {
    if CoreRate(s, e).Some? {
      QuotientIsPositive(s.licensed[e] - ComputeRate(s), BillableCores(s));
    }
  }

  lemma CoreRateFrom(r: RateSet, e: Edition, compute: real, cores: real, licence: real, core: real)
    requires e in r.licensed && r.licensed[e] == compute + licence && ComputeRate(r) == compute > 0.0
             && BillableCores(r) == cores
    requires licence > 0.0 && licence / cores == core
    ensures CoreRate(r, e) == Some(core)
  {
    assert r.licensed[e] - ComputeRate(r) == licence;
  }

  lemma QuotientIsPositive(a: real, b: real)
    requires a > 0.0 && b > 0.0
    ensures a / b > 0.0
  {
  }

  lemma ProductOverFactor(a: real, b: real)
    requires a > 0.0
    ensures a * b / a == b && (b > 0.0 ==> a * b > 0.0)
  {
  }

  lemma UnchangedShows(order: seq<Key>, rates: Rates, k: Key, region: string, e: Edition)
    requires IsOrder(order, rates) && Shows(rates, k, region, e)
    ensures Shows(Fallback(order, rates), k, region, e)
            && CoreRate(Fallback(order, rates)[k], e) == CoreRate(rates[k], e)
  {
    ShownIsKnown(rates, region, e);
    FallbackFillsWhatIsMissing(order, rates, k, e);
    FallbackKeys(order, rates);
    ShownMeans(rates, k, region, e);
    ShownMeans(Fallback(order, rates), k, region, e);
    hide Fallback, Shows, CoreRate;
    SameRateShows(rates[k], Fallback(order, rates)[k], e);
  }

  lemma FallbackKeys(order: seq<Key>, rates: Rates)
    requires IsOrder(order, rates)
    ensures Fallback(order, rates).Keys == rates.Keys && IsOrder(order, Fallback(order, rates))
  {
    hide Filled, MinimumCoreRate;
  }

  lemma ShownMeans(rates: Rates, k: Key, region: string, e: Edition)
    ensures Shows(rates, k, region, e) <==> k in rates && k.region == region && CoreRate(rates[k], e).Some?
    ensures Shows(rates, k, region, e) ==> e in rates[k].licensed
  {
  }

  lemma ShownAfterIsShownBefore(order: seq<Key>, rates: Rates, k: Key, region: string, e: Edition)
    requires IsOrder(order, rates) && Shows(Fallback(order, rates), k, region, e)
    ensures MinimumCoreRate(order, rates, region, e).Some?
    ensures MinimumCoreRate(order, rates, region, e).value <= CoreRate(Fallback(order, rates)[k], e).value
  {
    var after := Fallback(order, rates);
    FallbackKeys(order, rates);
    ShownMeans(after, k, region, e);
    FallbackFillsWhatIsMissing(order, rates, k, e);
    MinimumCoreRateIsShown(order, rates, region, e);
    hide Fallback, MinimumCoreRate, CoreRate;
    if e in rates[k].licensed {
      SameRateShows(rates[k], after[k], e);
      assert Shows(rates, k, region, e);
    } else {
      assert e in after[k].licensed;
      FallbackChargesLeastCoreRate(order, rates, k, e);
    }
  }

  lemma SameRateShows(s: RateSet, r: RateSet, e: Edition)
    requires r.compute == s.compute && r.vcpu == s.vcpu && e in s.licensed && e in r.licensed
             && r.licensed[e] == s.licensed[e]
    ensures CoreRate(r, e) == CoreRate(s, e)
  {
  }

  /** Filled rates do not lower or raise the least core rate of any region. */
  lemma FallbackKeepsMinima(order: seq<Key>, rates: Rates, region: string, e: Edition)
    requires IsOrder(order, rates)
    ensures MinimumCoreRate(order, Fallback(order, rates), region, e) == MinimumCoreRate(order, rates, region, e)
  {
    var after := Fallback(order, rates);
    FallbackKeys(order, rates);
    hide *;
    MinimumCoreRateIsShown(order, rates, region, e);
    MinimumCoreRateIsShown(order, after, region, e);
    ShownIsKnown(rates, region, e);
    ShownIsKnown(after, region, e);
    var core, later := MinimumCoreRate(order, rates, region, e), MinimumCoreRate(order, after, region, e);
    if core.Some? {
      var k :| Shows(rates, k, region, e) && CoreRate(rates[k], e) == core;
      UnchangedShows(order, rates, k, region, e);
      assert later.Some? && later.value <= core.value;
    }
    if later.Some? {
      var k :| Shows(after, k, region, e) && CoreRate(after[k], e) == later;
      ShownAfterIsShownBefore(order, rates, k, region, e);
      assert core.Some? && core.value <= later.value;
    }
  }

  lemma ShownIsKnown(rates: Rates, region: string, e: Edition)
    ensures forall k | Shows(rates, k, region, e) :: k in rates
  {
  }

  /** Filling again changes nothing, although filled rates now count as shown. */
  lemma FallbackIsIdempotent(order: seq<Key>, rates: Rates)
    requires IsOrder(order, rates)
    ensures Fallback(order, Fallback(order, rates)) == Fallback(order, rates)
  {
    var after := Fallback(order, rates);
    var again := Fallback(order, after);
    forall k | k in rates
      ensures again[k] == after[k]
    {
      FallbackKeepsMinima(order, rates, k.region, Standard);
      FallbackKeepsMinima(order, rates, k.region, Enterprise);
      hide MinimumCoreRate, BillableCores;
      FilledTwice(rates[k], MinimumCoreRate(order, rates, k.region, Standard),
        MinimumCoreRate(order, rates, k.region, Enterprise));
    }
  }

  lemma FilledTwice(s: RateSet, standard: Option<real>, enterprise: Option<real>)
    ensures Filled(Filled(s, standard, enterprise), standard, enterprise) == Filled(s, standard, enterprise)
  {
    hide BillableCores;
  }

  /** The order of the entries of the dictionaries does not matter. */
  lemma FallbackIgnoresOrder(order: seq<Key>, other: seq<Key>, rates: Rates)
    requires IsOrder(order, rates) && IsOrder(other, rates)
    ensures Fallback(order, rates) == Fallback(other, rates)
  {
    hide Filled, CoreRate, CoreRates;
    forall region, e
      ensures MinimumCoreRate(order, rates, region, e) == MinimumCoreRate(other, rates, region, e)
    {
      SameMinimum(order, other, rates, region, e);
    }
  }

  lemma SameMinimum(order: seq<Key>, other: seq<Key>, rates: Rates, region: string, e: Edition)
    requires IsOrder(order, rates) && IsOrder(other, rates)
    ensures MinimumCoreRate(order, rates, region, e) == MinimumCoreRate(other, rates, region, e)
  {
    MinimumCoreRateIsShown(order, rates, region, e);
    MinimumCoreRateIsShown(other, rates, region, e);
    ShownIsKnown(rates, region, e);
    hide MinimumCoreRate, Shows, CoreRate;
    var a, b := MinimumCoreRate(order, rates, region, e), MinimumCoreRate(other, rates, region, e);
    if a.Some? && b.Some? {
      var x :| Shows(rates, x, region, e) && CoreRate(rates[x], e) == a;
      var y :| Shows(rates, y, region, e) && CoreRate(rates[y], e) == b;
    }
  }

  /** The licence part of a published rate. */
  ghost predicate Publishes(rates: Rates, x: Key, region: string, e: Edition, licence: real) {
    && x in rates && x.region == region && rates[x].compute.Some? && rates[x].compute.value > 0.0
    && e in rates[x].licensed && licence == rates[x].licensed[e] - rates[x].compute.value > 0.0
  }

  /** The cores an instance is charged: its own, and at least four. */
  lemma BillableCoresExactly(s: RateSet)
    ensures s.vcpu <= 4.0 ==> BillableCores(s) == 4.0
    ensures s.vcpu >= 4.0 ==> BillableCores(s) == s.vcpu
  {
  }

  lemma ShowsMeansPublishes(rates: Rates, x: Key, region: string, e: Edition)
    ensures Shows(rates, x, region, e) <==> exists licence: real :: Publishes(rates, x, region, e, licence)
    ensures forall licence: real | Publishes(rates, x, region, e, licence) ::
              CoreRate(rates[x], e) == Some(licence / BillableCores(rates[x]))
  {
    hide BillableCores;
    if Shows(rates, x, region, e) {
      assert Publishes(rates, x, region, e, rates[x].licensed[e] - rates[x].compute.value);
    }
  }

  lemma OrderIsKnown(order: seq<Key>, rates: Rates)
    requires IsOrder(order, rates)
    ensures forall k | k in order :: k in rates
  {
  }

  lemma PublishedIsKnown(rates: Rates, region: string, e: Edition)
    ensures forall y, other: real | Publishes(rates, y, region, e, other) :: y in rates
  {
  }

  lemma LicensedRateIs(s: RateSet, core: real)
    requires ComputeRate(s) > 0.0
    ensures s.compute.Some? && LicensedRate(s, core) == s.compute.value + BillableCores(s) * core
  {
    hide BillableCores;
  }

  lemma FilledIs(order: seq<Key>, rates: Rates, k: Key, e: Edition)
    requires IsOrder(order, rates) && k in rates
    requires e !in rates[k].licensed && e in Fallback(order, rates)[k].licensed
    ensures MinimumCoreRate(order, rates, k.region, e).Some? && ComputeRate(rates[k]) > 0.0
    ensures Fallback(order, rates)[k].licensed[e]
            == LicensedRate(rates[k], MinimumCoreRate(order, rates, k.region, e).value)
  {
    hide *;
    OrderIsKnown(order, rates);
    FallbackOf(order, rates, k);
    FilledMeans(rates[k], MinimumCoreRate(order, rates, k.region, Standard),
      MinimumCoreRate(order, rates, k.region, Enterprise), e);
  }

  /** This instance publishes a licence part, and no instance of the region a lower one per core. */
  ghost predicate PublishesLeast(rates: Rates, x: Key, region: string, e: Edition, licence: real) {
    && Publishes(rates, x, region, e, licence)
    && forall y, other: real | Publishes(rates, y, region, e, other) ::
      licence / BillableCores(rates[x]) <= other / BillableCores(rates[y])
  }

  lemma LeastIsPublished(order: seq<Key>, rates: Rates, region: string, e: Edition)
    requires IsOrder(order, rates) && MinimumCoreRate(order, rates, region, e).Some?
    ensures exists x, licence: real ::
              && PublishesLeast(rates, x, region, e, licence)
              && MinimumCoreRate(order, rates, region, e).value == licence / BillableCores(rates[x])
  {
    hide *;
    OrderIsKnown(order, rates);
    ShownIsKnown(rates, region, e);
    PublishedIsKnown(rates, region, e);
    var core := MinimumCoreRate(order, rates, region, e);
    MinimumCoreRateIsShown(order, rates, region, e);
    var x :| Shows(rates, x, region, e) && CoreRate(rates[x], e) == core;
    ShowsMeansPublishes(rates, x, region, e);
    var licence: real :| Publishes(rates, x, region, e, licence);
    forall y, other: real | Publishes(rates, y, region, e, other)
      ensures licence / BillableCores(rates[x]) <= other / BillableCores(rates[y])
    {
      ShowsMeansPublishes(rates, y, region, e);
    }
    IsLeastPublished(rates, x, region, e, licence);
  }

  lemma IsLeastPublished(rates: Rates, x: Key, region: string, e: Edition, licence: real)
    requires Publishes(rates, x, region, e, licence)
    requires forall y, other: real | Publishes(rates, y, region, e, other) ::
               licence / BillableCores(rates[x]) <= other / BillableCores(rates[y])
    ensures PublishesLeast(rates, x, region, e, licence)
  {
    hide Publishes, BillableCores;
  }

  /** A filled rate is the instance's compute rate and, for each of its billable cores, the least licence
      part per billable core that its region publishes. */
  lemma FilledRateExactly(order: seq<Key>, rates: Rates, k: Key, e: Edition)
    requires IsOrder(order, rates) && k in rates
    requires e !in rates[k].licensed && e in Fallback(order, rates)[k].licensed
    ensures rates[k].compute.Some?
    ensures exists x, licence: real ::
              && PublishesLeast(rates, x, k.region, e, licence)
              && Fallback(order, rates)[k].licensed[e]
                 == rates[k].compute.value + BillableCores(rates[k]) * (licence / BillableCores(rates[x]))
  {
    hide *;
    OrderIsKnown(order, rates);
    FilledIs(order, rates, k, e);
    LeastIsPublished(order, rates, k.region, e);
    LicensedRateIs(rates[k], MinimumCoreRate(order, rates, k.region, e).value);
  }
}
