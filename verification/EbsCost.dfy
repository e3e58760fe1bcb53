/** Monthly cost of an EBS volume: ebs_monthly_cost_components in research/Add-CloudTcoConverters.py. */
module EbsCost {
  import opened Wrappers

  const TIER_1_IOPS := 32_000
  const TIER_2_IOPS := 64_000

  datatype EbsRates = EbsRates(
    capacity: real,
    includedIops: nat,
    tier1: real,
    tier2: real,
    tier3: real,
    includedThroughput: real,
    throughput: real)

  datatype Sku = Gp3 | Io2

  datatype VolumeType = Ephemeral | Ebs(sku: Sku) | Unknown

  datatype CostError = UnknownVolumeType | RegionUnavailable

  const EBS_REGIONAL_RATES: map<string, map<Sku, EbsRates>> := map[
    "eu-central-1" := map[
      Gp3 := EbsRates(0.0952, 3_000, 0.0060, 0.0, 0.0, 125.0, 0.0476),
      Io2 := EbsRates(0.1490, 0, 0.0780, 0.0546, 0.03822, 0.0, 0.0)],
    "eu-central-2" := map[
      Gp3 := EbsRates(0.1142, 3_000, 0.0070, 0.0, 0.0, 125.0, 0.0571),
      Io2 := EbsRates(0.1790, 0, 0.0940, 0.0658, 0.04610, 0.0, 0.0)],
    "eu-north-1" := map[
      Gp3 := EbsRates(0.0836, 3_000, 0.0052, 0.0, 0.0, 125.0, 0.0418),
      Io2 := EbsRates(0.1311, 0, 0.0684, 0.04788, 0.033516, 0.0, 0.0)],
    "eu-south-1" := map[
      Gp3 := EbsRates(0.0924, 3_000, 0.0058, 0.0, 0.0, 125.0, 0.0462),
      Io2 := EbsRates(0.1449, 0, 0.0756, 0.0529, 0.0370, 0.0, 0.0)],
    "eu-south-2" := map[
      Gp3 := EbsRates(0.0880, 3_000, 0.0055, 0.0, 0.0, 125.0, 0.0440),
      Io2 := EbsRates(0.1380, 0, 0.0720, 0.0504, 0.0353, 0.0, 0.0)],
    "eu-west-1" := map[
      Gp3 := EbsRates(0.0880, 3_000, 0.0055, 0.0, 0.0, 125.0, 0.0440),
      Io2 := EbsRates(0.1380, 0, 0.0720, 0.0504, 0.03528, 0.0, 0.0)],
    "eu-west-2" := map[
      Gp3 := EbsRates(0.0928, 3_000, 0.0058, 0.0, 0.0, 125.0, 0.0464),
      Io2 := EbsRates(0.1450, 0, 0.0760, 0.0532, 0.03724, 0.0, 0.0)],
    "eu-west-3" := map[
      Gp3 := EbsRates(0.0928, 3_000, 0.0058, 0.0, 0.0, 125.0, 0.0464),
      Io2 := EbsRates(0.1450, 0, 0.0760, 0.0532, 0.0372, 0.0, 0.0)]]

  function Min(a: real, b: real): real {
    if a <= b then a else b
  }

  function AtLeastZero(x: real): real {
    if x > 0.0 then x else 0.0
  }

  function IopsCost(rates: EbsRates, iops: real): real {
    if rates.includedIops != 0 then AtLeastZero(iops - rates.includedIops as real) * rates.tier1
    else
      Min(iops, TIER_1_IOPS as real) * rates.tier1
      + AtLeastZero(Min(iops - TIER_1_IOPS as real, TIER_1_IOPS as real)) * rates.tier2
      + AtLeastZero(iops - TIER_2_IOPS as real) * rates.tier3
  }

  datatype Components = Components(capacity: real, iops: real, throughput: real)

  function Provisioned(o: Option<real>): real {
    if o.Some? then AtLeastZero(o.value) else 0.0
  }

  function MonthlyCostComponents(region: string, volumeType: VolumeType, storageGb: real, iops: Option<real>,
                                 throughput: Option<real>)
    : Result<Components, CostError>
  {
    if volumeType == Ephemeral || storageGb <= 0.0 then Ok(Components(0.0, 0.0, 0.0))
    else if volumeType == Unknown then Err(UnknownVolumeType)
    else if region !in EBS_REGIONAL_RATES || volumeType.sku !in EBS_REGIONAL_RATES[region] then Err(RegionUnavailable)
    else
      var rates := EBS_REGIONAL_RATES[region][volumeType.sku];
      Ok(Components(storageGb * rates.capacity, IopsCost(rates, Provisioned(iops)),
        AtLeastZero(Provisioned(throughput) - rates.includedThroughput) * rates.throughput))
  }

  // ---- what the rates are ----

  predicate NonIncreasing(rates: EbsRates) {
    0.0 <= rates.tier3 <= rates.tier2 <= rates.tier1
  }

  /** The published rates: gp3 has an included allowance, io2 has none, and tier rates never rise. */
  lemma PublishedRates(region: string)
    requires region in EBS_REGIONAL_RATES
    ensures EBS_REGIONAL_RATES[region].Keys == {Gp3, Io2}
    ensures forall sku | sku in EBS_REGIONAL_RATES[region] :: NonIncreasing(EBS_REGIONAL_RATES[region][sku])
    ensures forall sku | sku in EBS_REGIONAL_RATES[region] ::
            EBS_REGIONAL_RATES[region][sku].capacity > 0.0 && EBS_REGIONAL_RATES[region][sku].throughput >= 0.0
    ensures EBS_REGIONAL_RATES[region][Gp3].includedIops == 3_000 && EBS_REGIONAL_RATES[region][Io2].includedIops == 0
  {
  }

  // ---- unit by unit ----

  /** What the n-th provisioned operation costs, counted from one. */
  function MarginalRate(rates: EbsRates, n: nat): real {
    if rates.includedIops != 0 then (if n <= rates.includedIops then 0.0 else rates.tier1)
    else if n <= TIER_1_IOPS then rates.tier1
    else if n <= TIER_2_IOPS then rates.tier2
    else rates.tier3
  }

  function UnitByUnit(rates: EbsRates, n: nat): real {
    if n == 0 then 0.0 else UnitByUnit(rates, n - 1) + MarginalRate(rates, n)
  }

  lemma OneMoreUnit(rates: EbsRates, n: nat)
    requires n > 0
    ensures IopsCost(rates, n as real) == IopsCost(rates, (n - 1) as real) + MarginalRate(rates, n)
  {
    var x, y := n as real, (n - 1) as real;
    assert x == y + 1.0;
    if rates.includedIops != 0 {
      var included := rates.includedIops as real;
      if n <= rates.includedIops {
        assert x <= included;
      } else {
        assert y >= included;
        Spread(y - included, 1.0, rates.tier1);
      }
    } else {
      var second, third := AtLeastZero(Min(y - TIER_1_IOPS as real, TIER_1_IOPS as real)),
        AtLeastZero(y - TIER_2_IOPS as real);
      var nextSecond, nextThird := AtLeastZero(Min(x - TIER_1_IOPS as real, TIER_1_IOPS as real)),
        AtLeastZero(x - TIER_2_IOPS as real);
      if n <= TIER_1_IOPS {
        assert nextSecond == second && nextThird == third;
        Spread(y, 1.0, rates.tier1);
      } else if n <= TIER_2_IOPS {
        assert nextSecond == second + 1.0 && nextThird == third;
        Spread(second, 1.0, rates.tier2);
      } else {
        assert nextSecond == second && nextThird == third + 1.0;
        Spread(third, 1.0, rates.tier3);
      }
    }
  }

  lemma Spread(a: real, b: real, rate: real)
    ensures (a + b) * rate == a * rate + b * rate
  {
  }

  /** The closed form is the sum of the marginal rates, for every number of operations. */
  lemma {:induction false} ClosedFormIsUnitByUnit(rates: EbsRates, n: nat)
    ensures IopsCost(rates, n as real) == UnitByUnit(rates, n)
  {
    if n > 0 {
      ClosedFormIsUnitByUnit(rates, n - 1);
      OneMoreUnit(rates, n);
    }
  }

  // ---- monotone, and the effect of splitting a volume ----

  function Scaled(x: real, weight: real): real {
    x * weight
  }

  /** The tiers as a sum of capped amounts, with the drops between the rates as weights. */
  lemma TiersAsCaps(rates: EbsRates, x: real)
    requires rates.includedIops == 0 && x >= 0.0
    ensures IopsCost(rates, x) == Scaled(Min(x, TIER_1_IOPS as real), rates.tier1 - rates.tier2)
                                  + Scaled(Min(x, TIER_2_IOPS as real), rates.tier2 - rates.tier3)
                                    + Scaled(x, rates.tier3)
  {
    var m1, m2 := Min(x, TIER_1_IOPS as real), Min(x, TIER_2_IOPS as real);
    assert AtLeastZero(Min(x - TIER_1_IOPS as real, TIER_1_IOPS as real)) == m2 - m1;
    assert AtLeastZero(x - TIER_2_IOPS as real) == x - m2;
    Expanded(m1, m2, x, rates.tier1, rates.tier2, rates.tier3);
  }

  lemma Expanded(m1: real, m2: real, x: real, t1: real, t2: real, t3: real)
    ensures m1 * t1 + (m2 - m1) * t2 + (x - m2) * t3 == m1 * (t1 - t2) + m2 * (t2 - t3) + x * t3
  {
  }

  lemma ScaleOrder(a: real, b: real, w: real)
    requires a <= b && w >= 0.0
    ensures Scaled(a, w) <= Scaled(b, w) && Scaled(0.0, w) == 0.0
  {
    assert b * w - a * w == (b - a) * w;
  }

  lemma ScaleSum(a: real, b: real, c: real, w: real)
    requires a <= b + c && w >= 0.0
    ensures Scaled(a, w) <= Scaled(b, w) + Scaled(c, w)
  {
    ScaleOrder(a, b + c, w);
    Spread(b, c, w);
  }

  lemma IopsCostIsMonotone(rates: EbsRates, x: real, y: real)
    requires NonIncreasing(rates) && 0.0 <= x <= y
    ensures 0.0 <= IopsCost(rates, x) <= IopsCost(rates, y)
  {
    if rates.includedIops != 0 {
      var included := rates.includedIops as real;
      ScaleOrder(AtLeastZero(x - included), AtLeastZero(y - included), rates.tier1);
      ScaleOrder(0.0, AtLeastZero(x - included), rates.tier1);
    } else {
      TierCostIsMonotone(rates, 0.0, x);
      TierCostIsMonotone(rates, x, y);
    }
  }

  lemma TierCostIsMonotone(rates: EbsRates, x: real, y: real)
    requires NonIncreasing(rates) && rates.includedIops == 0 && 0.0 <= x <= y
    ensures 0.0 <= IopsCost(rates, 0.0) <= IopsCost(rates, x) <= IopsCost(rates, y)
  {
    hide IopsCost, Scaled;
    var c1, c2 := TIER_1_IOPS as real, TIER_2_IOPS as real;
    var w1, w2, w3 := rates.tier1 - rates.tier2, rates.tier2 - rates.tier3, rates.tier3;
    TiersAsCaps(rates, 0.0);
    TiersAsCaps(rates, x);
    TiersAsCaps(rates, y);
    ScaleOrder(0.0, Min(x, c1), w1);
    ScaleOrder(0.0, Min(x, c2), w2);
    ScaleOrder(0.0, x, w3);
    ScaleOrder(Min(x, c1), Min(y, c1), w1);
    ScaleOrder(Min(x, c2), Min(y, c2), w2);
    ScaleOrder(x, y, w3);
  }

  /** Splitting a volume without an included allowance never makes its operations cheaper. */
  lemma SplittingTiersIsNeverCheaper(rates: EbsRates, a: real, b: real)
    requires NonIncreasing(rates) && rates.includedIops == 0 && a >= 0.0 && b >= 0.0
    ensures IopsCost(rates, a + b) <= IopsCost(rates, a) + IopsCost(rates, b)
  {
    hide IopsCost, Scaled;
    var c1, c2 := TIER_1_IOPS as real, TIER_2_IOPS as real;
    TiersAsCaps(rates, a);
    TiersAsCaps(rates, b);
    TiersAsCaps(rates, a + b);
    ScaleSum(Min(a + b, c1), Min(a, c1), Min(b, c1), rates.tier1 - rates.tier2);
    ScaleSum(Min(a + b, c2), Min(a, c2), Min(b, c2), rates.tier2 - rates.tier3);
    ScaleSum(a + b, a, b, rates.tier3);
  }

  /** Splitting a volume with an included allowance never makes its operations dearer. */
  lemma SplittingAllowanceIsNeverDearer(rates: EbsRates, a: real, b: real)
    requires NonIncreasing(rates) && rates.includedIops != 0 && a >= 0.0 && b >= 0.0
    ensures IopsCost(rates, a) + IopsCost(rates, b) <= IopsCost(rates, a + b)
  {
    var included := rates.includedIops as real;
    var x, y := AtLeastZero(a - included), AtLeastZero(b - included);
    ScaleOrder(x + y, AtLeastZero(a + b - included), rates.tier1);
    Spread(x, y, rates.tier1);
  }

  /** On the published rates: splitting an io2 volume is never cheaper and splitting a gp3 volume never
      dearer in operations, and provisioning more never costs less. */
  lemma SplittingPublishedVolumes(region: string, a: real, b: real)
    requires region in EBS_REGIONAL_RATES && a >= 0.0 && b >= 0.0
    ensures EBS_REGIONAL_RATES[region].Keys == {Gp3, Io2}
    ensures var io2 := EBS_REGIONAL_RATES[region][Io2];
            IopsCost(io2, a) <= IopsCost(io2, a + b) <= IopsCost(io2, a) + IopsCost(io2, b)
    ensures var gp3 := EBS_REGIONAL_RATES[region][Gp3];
            IopsCost(gp3, a) <= IopsCost(gp3, a) + IopsCost(gp3, b) <= IopsCost(gp3, a + b)
  {
    PublishedRates(region);
    var gp3, io2 := EBS_REGIONAL_RATES[region][Gp3], EBS_REGIONAL_RATES[region][Io2];
    hide IopsCost;
    SplittingTiersIsNeverCheaper(io2, a, b);
    SplittingAllowanceIsNeverDearer(gp3, a, b);
    IopsCostIsMonotone(io2, a, a + b);
    IopsCostIsMonotone(gp3, b, b);
  }

  /** Only a volume with a size, of a known type and in a priced region costs anything; and then a larger
      volume, more operations or more throughput never lower any component. */
  lemma ComponentsAreMonotone(region: string, t: VolumeType, gb: real, iops: Option<real>, throughput: Option<real>,
                              moreGb: real, moreIops: Option<real>, moreThroughput: Option<real>)
    requires gb <= moreGb && Provisioned(iops) <= Provisioned(moreIops)
             && Provisioned(throughput) <= Provisioned(moreThroughput)
    ensures var low := MonthlyCostComponents(region, t, gb, iops, throughput);
            var high := MonthlyCostComponents(region, t, moreGb, moreIops, moreThroughput);
            && (low.Err? <==> gb > 0.0 && t != Ephemeral && (t == Unknown || region !in EBS_REGIONAL_RATES))
            && (low.Ok? && (gb <= 0.0 || t == Ephemeral) ==> low.value == Components(0.0, 0.0, 0.0))
            && (low.Ok? && high.Ok? ==>
                  && 0.0 <= low.value.capacity <= high.value.capacity
                  && 0.0 <= low.value.iops <= high.value.iops
                  && 0.0 <= low.value.throughput <= high.value.throughput)
  {
    hide IopsCost;
    if t.Ebs? && region in EBS_REGIONAL_RATES {
      PublishedRates(region);
      assert t.sku == Gp3 || t.sku == Io2;
      var rates := EBS_REGIONAL_RATES[region][t.sku];
      IopsCostIsMonotone(rates, Provisioned(iops), Provisioned(moreIops));
      IopsCostIsMonotone(rates, 0.0, Provisioned(moreIops));
      var x, y := AtLeastZero(Provisioned(throughput) - rates.includedThroughput),
        AtLeastZero(Provisioned(moreThroughput) - rates.includedThroughput);
      ScaleOrder(0.0, x, rates.throughput);
      ScaleOrder(x, y, rates.throughput);
      if moreGb > 0.0 {
        ScaleOrder(0.0, moreGb, rates.capacity);
      }
      if gb > 0.0 {
        ScaleOrder(0.0, gb, rates.capacity);
        ScaleOrder(gb, moreGb, rates.capacity);
      }
    }
  }

  lemma ComponentsOf(region: string, sku: Sku, gb: real, iops: Option<real>, throughput: Option<real>)
    requires gb > 0.0 && region in EBS_REGIONAL_RATES && sku in EBS_REGIONAL_RATES[region]
    ensures var rates := EBS_REGIONAL_RATES[region][sku];
            MonthlyCostComponents(region, Ebs(sku), gb, iops, throughput) ==
              Ok(Components(gb * rates.capacity, IopsCost(rates, Provisioned(iops)),
                AtLeastZero(Provisioned(throughput) - rates.includedThroughput) * rates.throughput))
  {
    hide IopsCost, Provisioned, AtLeastZero;
  }

  lemma ThroughputExactly(rates: EbsRates, throughput: Option<real>)
    requires rates.includedThroughput >= 0.0
    ensures var cost := AtLeastZero(Provisioned(throughput) - rates.includedThroughput) * rates.throughput;
            && (throughput.None? || throughput.value <= rates.includedThroughput ==> cost == 0.0)
            && (throughput.Some? && throughput.value > rates.includedThroughput ==>
                  cost / (throughput.value - rates.includedThroughput) == rates.throughput)
  {
    if throughput.Some? && throughput.value > rates.includedThroughput {
      QuotientOf(throughput.value - rates.includedThroughput, rates.throughput);
    }
  }

  lemma IncludedThroughput(region: string, sku: Sku)
    requires region in EBS_REGIONAL_RATES
    ensures sku in EBS_REGIONAL_RATES[region] && EBS_REGIONAL_RATES[region][sku].includedThroughput >= 0.0
  {
    assert sku == Gp3 || sku == Io2;
  }

  lemma QuotientOf(a: real, b: real)
    requires a > 0.0
    ensures a * b / a == b
  {
  }

  lemma ProvisionedExactly(o: Option<real>)
    ensures o.None? || o.value <= 0.0 ==> Provisioned(o) == 0.0
    ensures o.Some? && o.value >= 0.0 ==> Provisioned(o) == o.value
  {
  }

  /** What a priced volume costs: every gigabyte its capacity rate; every operation its marginal rate;
      nothing for throughput up to the included one, and the throughput rate for each unit above it. */
  lemma ComponentsExactly(region: string, sku: Sku, gb: real, iops: Option<real>, throughput: Option<real>, n: nat)
    requires gb > 0.0 && region in EBS_REGIONAL_RATES
    requires if iops.Some? && iops.value > 0.0 then iops.value == n as real else n == 0
    ensures sku in EBS_REGIONAL_RATES[region]
    ensures var rates := EBS_REGIONAL_RATES[region][sku];
            var r := MonthlyCostComponents(region, Ebs(sku), gb, iops, throughput);
            && r.Ok?
            && r.value.capacity / gb == rates.capacity
            && r.value.iops == UnitByUnit(rates, n)
            && (throughput.None? || throughput.value <= rates.includedThroughput ==> r.value.throughput == 0.0)
            && (throughput.Some? && throughput.value > rates.includedThroughput ==>
                  r.value.throughput / (throughput.value - rates.includedThroughput) == rates.throughput)
  {
    hide *;
    IncludedThroughput(region, sku);
    var rates := EBS_REGIONAL_RATES[region][sku];
    ComponentsOf(region, sku, gb, iops, throughput);
    ProvisionedExactly(iops);
    ClosedFormIsUnitByUnit(rates, n);
    QuotientOf(gb, rates.capacity);
    ThroughputExactly(rates, throughput);
  }
}
