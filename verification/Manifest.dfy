/** Building the Calculator manifest of a priced project: rust/src/api/calculator_launches.rs.
    Amounts are decimals as module Decimals counts them; none is negative. */
module Manifest {
  import opened Wrappers
  import opened Text
  import opened Projects
  import opened Pointers
  import opened Decimals

  const MAX_CALCULATOR_MANIFEST_ITEMS: nat := 25
  const FORMULA_VERSION := "1.3.0"
  const CALCULATOR_MANIFEST_VERSION: nat := 2
  const CALCULATOR_CONTRACT_VERSION := "2026-08-24"
  const CALCULATOR_URL := "https://azure.microsoft.com/en-us/pricing/calculator/"

  type ResourceId = nat
  type SnapshotId = nat

  datatype PricingStatus = Fresh | Cached | Stale | Unavailable
  datatype MappingStatus = Mapped | NoMapping
  datatype ServiceTier = NextGenerationGeneralPurpose | BusinessCritical
  datatype HardwareFamily = PremiumSeries | PremiumSeriesMemoryOptimized

  datatype PurchaseOption =
    | Payg | Ahb | OneYear | AhbOneYear | ThreeYear | AhbThreeYear | SavingsOneYear | AhbSavingsOneYear

  datatype CalculatorPurchaseOption = PayAsYouGo | OneYearReservation | ThreeYearReservation | OneYearSavingsPlan

  datatype SelectedTarget = SelectedTarget(
    region: string,
    serviceTier: ServiceTier,
    hardwareFamily: string,
    vCores: nat,
    memoryGb: Units,
    zoneRedundant: bool)

  datatype AzureCosts = AzureCosts(compute: Units, additionalRam: Units, license: Units, storage: Units)

  datatype ResourceCalculation = ResourceCalculation(
    resourceId: ResourceId,
    pricingStatus: PricingStatus,
    mappingStatus: Option<MappingStatus>,
    selected: Option<SelectedTarget>,
    azureCosts: Option<AzureCosts>,
    storageGb: Units)

  /** A workload; only SQL workloads have a purchase option. */
  datatype Workload = Workload(id: ResourceId, name: string, quantity: nat, annualHours: Units,
    purchaseOption: Option<PurchaseOption>)

  datatype Revision = Revision(formulaVersion: string, azureSnapshotId: Option<SnapshotId>,
    results: seq<ResourceCalculation>)

  datatype ProjectDocument = ProjectDocument(
    name: string,
    projectType: ProjectType,
    currency: string,
    azureRegion: string,
    resources: seq<Workload>,
    azureSnapshotId: Option<SnapshotId>,
    formulaVersion: string,
    latestRevision: Option<Revision>)

  datatype ExpectedAnnual = ExpectedAnnual(
    compute: Units,
    additionalMemory: Units,
    license: Units,
    storage: Units,
    totalBeforeParity: Units)

  datatype CalculatorProduct = AzureSqlManagedInstance
  datatype DeploymentModel = SingleInstance

  datatype Item = Item(
    key: string,
    displayName: string,
    product: CalculatorProduct,
    region: string,
    deploymentModel: DeploymentModel,
    serviceTier: ServiceTier,
    hardwareFamily: HardwareFamily,
    vCores: nat,
    memoryGb: Units,
    zoneRedundant: bool,
    quantity: nat,
    hoursPerMonth: Units,
    purchaseOption: CalculatorPurchaseOption,
    azureHybridBenefit: bool,
    storageGb: Units,
    backupStorageGb: Units,
    expected: ExpectedAnnual)

  datatype Error =
    | IneligibleProject | CalculationMismatch | PricingUnavailable
    | UnsupportedTarget | InexactMonthlyHours | InvalidDisplayName

  datatype CalculatorManifest = CalculatorManifest(
    schemaVersion: nat,
    contractVersion: string,
    url: string,
    generatedAt: string,
    currency: string,
    locale: string,
    estimateName: string,
    items: seq<Item>)

  // ---- one item ----

  function ExactMonthlyHours(annual: Units): Result<Units, Error> {
    var monthly := CheckedTwelfth(annual);
    if monthly.None? then Err(InexactMonthlyHours) else Ok(monthly.value)
  }

  /** Whether the hours of a year, up to 8784, are accepted, and whether they are exact then: the check
      lets inexact hours pass as soon as they are too large for the 28th decimal. */
  lemma MonthlyHoursExactly(annual: Units)
    requires IsDecimal(annual) && annual <= LIMIT
    ensures var u, r := Step(annual), ExactMonthlyHours(annual);
            && (r.Ok? <==> annual % (12 * u) == 0 || (annual > MAX_MANTISSA && annual % (12 * u) != 6 * u))
            && (r.Ok? ==>
              (12 * r.value == annual <==> annual % (12 * u) == 0) && -4 * u <= 12 * r.value - annual <= 4 * u)
  {
    CheckedTwelfthExactly(annual);
    hide CheckedTwelfth, IsDecimal, Step;
  }

  /** Monthly hours need not be a twelfth of the annual hours: a hundred annual hours are accepted. */
  lemma HundredHoursAreAccepted()
    ensures ExactMonthlyHours(100 * HOUR).Ok?
    ensures 12 * ExactMonthlyHours(100 * HOUR).value != 100 * HOUR
  {
    HundredIsAcceptedInexactly();
    hide CheckedTwelfth;
  }

  function ToCalculatorOption(o: PurchaseOption): (CalculatorPurchaseOption, bool) {
    match o
    case Payg => (PayAsYouGo, false)
    case Ahb => (PayAsYouGo, true)
    case OneYear => (OneYearReservation, false)
    case AhbOneYear => (OneYearReservation, true)
    case ThreeYear => (ThreeYearReservation, false)
    case AhbThreeYear => (ThreeYearReservation, true)
    case SavingsOneYear => (OneYearSavingsPlan, false)
    case AhbSavingsOneYear => (OneYearSavingsPlan, true)
  }

  /** Every pair of a Calculator option and the hybrid-benefit flag stands for exactly one purchase option. */
  lemma PurchaseOptionsCorrespond(option: CalculatorPurchaseOption, hybridBenefit: bool)
    ensures exists o :: ToCalculatorOption(o) == (option, hybridBenefit)
                        && forall p :: ToCalculatorOption(p) == ToCalculatorOption(o) ==> p == o
  {
    var o := match option
      case PayAsYouGo => if hybridBenefit then Ahb else Payg
      case OneYearReservation => if hybridBenefit then AhbOneYear else OneYear
      case ThreeYearReservation => if hybridBenefit then AhbThreeYear else ThreeYear
      case OneYearSavingsPlan => if hybridBenefit then AhbSavingsOneYear else SavingsOneYear;
    assert ToCalculatorOption(o) == (option, hybridBenefit);
  }

  function ToHardwareFamily(name: string): Option<HardwareFamily> {
    if name == "Premium Series" then Some(PremiumSeries)
    else if name == "Premium Series Memory Optimized" then Some(PremiumSeriesMemoryOptimized)
    else None
  }

  /** Trimming leaves the name alone, by Text.TrimmedMeansUnchanged. */
  predicate IsDisplayName(name: string, maxChars: nat) {
    IsTrimmed(name) && 1 <= |name| <= maxChars && forall c | c in name :: !IsControl(c)
  }

  predicate IsRegionCode(s: string) {
    1 <= |s| <= 64 && forall c | c in s :: 'a' <= c <= 'z' || '0' <= c <= '9'
  }

  /** The ordinal of a row in three digits; manifests have at most 25 rows. */
  function ItemKey(index: nat): string
    requires index < MAX_CALCULATOR_MANIFEST_ITEMS
  {
    var ordinal := index + 1;
    [Digit(0), Digit(ordinal / 10), Digit(ordinal % 10)]
  }

  function BuildItem(index: nat, project: ProjectDocument, resource: Workload, c: ResourceCalculation)
    : Result<Item, Error>
    requires index < MAX_CALCULATOR_MANIFEST_ITEMS
  {
    hide IsDisplayName, IsRegionCode, ToHardwareFamily, ItemKey, CheckedTwelfth, TotalOf;
    if c.pricingStatus != Fresh && c.pricingStatus != Cached then Err(PricingUnavailable)
    else if c.mappingStatus != Some(Mapped) then Err(UnsupportedTarget)
    else if c.selected.None? then Err(UnsupportedTarget)
    else
      var selected := c.selected.value;
      if selected.region != project.azureRegion || !IsRegionCode(selected.region) then Err(UnsupportedTarget)
      else if c.azureCosts.None? then Err(PricingUnavailable)
      else if resource.purchaseOption.None? then Err(PricingUnavailable)
      else if TotalOf(c.azureCosts.value).None? then Err(PricingUnavailable)
      else if !IsDisplayName(resource.name, 160) then Err(InvalidDisplayName)
      else if ToHardwareFamily(selected.hardwareFamily).None? then Err(UnsupportedTarget)
      else
        var hours := ExactMonthlyHours(resource.annualHours);
        if hours.Err? then Err(hours.error)
        else
          var costs, option := c.azureCosts.value, ToCalculatorOption(resource.purchaseOption.value);
          Ok(Item(ItemKey(index), resource.name, AzureSqlManagedInstance, selected.region, SingleInstance,
            selected.serviceTier,
            ToHardwareFamily(selected.hardwareFamily).value,
            selected.vCores, selected.memoryGb, selected.zoneRedundant, resource.quantity, hours.value, option.0,
              option.1, c.storageGb, 0,
            ExpectedAnnual(costs.compute, costs.additionalRam, costs.license, costs.storage,
              TotalOf(costs).value)))
  }

  function Gross(costs: AzureCosts): seq<Units> {
    [costs.compute, costs.additionalRam, costs.license, costs.storage]
  }

  function TotalOf(costs: AzureCosts): Option<Units> {
    CheckedSum(Gross(costs))
  }

  /** The total is the exact sum of parts with the same number of decimals, as long as that fits. */
  lemma TotalIsExact(compute: nat, additionalRam: nat, license: nat, storage: nat, k: nat)
    requires k <= MAX_SCALE && compute + additionalRam + license + storage <= MAX_MANTISSA
    ensures var costs := AzureCosts(Held(compute, k), Held(additionalRam, k), Held(license, k), Held(storage, k));
            TotalOf(costs) == Some(costs.compute + costs.additionalRam + costs.license + costs.storage)
  {
    var ms := [compute, additionalRam, license, storage];
    var costs := AzureCosts(Held(compute, k), Held(additionalRam, k), Held(license, k), Held(storage, k));
    assert AllHeld(ms, k) == [costs.compute, costs.additionalRam, costs.license, costs.storage];
    TotalOfFour(compute, additionalRam, license, storage);
    SumIsExact(0, ms, k);
    assert Held(0, k) == 0;
    HeldAdds(compute, additionalRam, license, storage, k);
    hide Held, SumFrom, Total;
  }

  /** No addition of the total rounds exactly when every partial sum is a decimal, and then the total is
      the exact sum. */
  lemma TotalNeverRounds(costs: AzureCosts)
    ensures NeverRounds(0, Gross(costs)) <==> PartialSumsAreDecimals(0, Gross(costs))
    ensures NeverRounds(0, Gross(costs)) ==>
              TotalOf(costs) == Some(costs.compute + costs.additionalRam + costs.license + costs.storage)
  {
    hide NeverRounds, PartialSumsAreDecimals, SumFrom;
    NeverRoundsExactly(0, Gross(costs));
    SumOfFour(costs.compute, costs.additionalRam, costs.license, costs.storage);
  }

  lemma SumOfFour(a: Units, b: Units, c: Units, d: Units)
    ensures Sum([a, b, c, d]) == a + b + c + d
  {
    assert [a, b, c, d][1..] == [b, c, d] && [b, c, d][1..] == [c, d] && [c, d][1..] == [d] && [d][1..] == [];
    assert Sum([d]) == d;
    assert Sum([c, d]) == c + d;
    assert Sum([b, c, d]) == b + c + d;
  }

  /** A total may be exact all the same, when the errors of two additions cancel. */
  lemma TotalErrorsMayCancel()
    ensures exists costs ::
              && TotalOf(costs) == Some(costs.compute + costs.additionalRam + costs.license + costs.storage)
              && !PartialSumsAreDecimals(0, Gross(costs))
  {
    hide NeverRounds, PartialSumsAreDecimals, SumFrom;
    var costs := AzureCosts(MAX_MANTISSA, 2, 3, 0);
    RoundingErrorsMayCancel();
    SumOfFour(MAX_MANTISSA, 2, 3, 0);
    assert Gross(costs) == [MAX_MANTISSA, 2, 3, 0];
  }

  lemma TotalOfFour(a: nat, b: nat, c: nat, d: nat)
    ensures Total([a, b, c, d]) == a + b + c + d
  {
    assert [a, b, c, d][1..] == [b, c, d] && [b, c, d][1..] == [c, d] && [c, d][1..] == [d] && [d][1..] == [];
    assert Total([d]) == d;
    assert Total([c, d]) == c + d;
    assert Total([b, c, d]) == b + c + d;
  }

  lemma HeldAdds(a: nat, b: nat, c: nat, d: nat, k: nat)
    ensures Held(a + b + c + d, k) == Held(a, k) + Held(b, k) + Held(c, k) + Held(d, k)
  {
  }

  /** What an item says about its workload and its calculation. */
  predicate Describes(item: Item, resource: Workload, c: ResourceCalculation) {
    && c.resourceId == resource.id
    && item.displayName == resource.name && item.quantity == resource.quantity
    && ExactMonthlyHours(resource.annualHours) == Ok(item.hoursPerMonth)
    && resource.purchaseOption.Some?
      && ToCalculatorOption(resource.purchaseOption.value) == (item.purchaseOption, item.azureHybridBenefit)
    && c.selected.Some? && item.region == c.selected.value.region && item.serviceTier == c.selected.value.serviceTier
    && ToHardwareFamily(c.selected.value.hardwareFamily) == Some(item.hardwareFamily)
    && item.vCores == c.selected.value.vCores && item.memoryGb == c.selected.value.memoryGb
    && item.zoneRedundant == c.selected.value.zoneRedundant && item.storageGb == c.storageGb
      && item.backupStorageGb == 0
    && c.azureCosts.Some?
    && var e, costs := item.expected, c.azureCosts.value;
    && e.compute == costs.compute && e.additionalMemory == costs.additionalRam && e.license == costs.license
      && e.storage == costs.storage
    && TotalOf(costs) == Some(e.totalBeforeParity)
  }

  predicate DescribedByOne(item: Item, resource: Workload, results: seq<ResourceCalculation>) {
    exists c | c in results :: Describes(item, resource, c)
  }

  lemma BuiltItemDescribes(index: nat, project: ProjectDocument, resource: Workload, c: ResourceCalculation)
    requires index < MAX_CALCULATOR_MANIFEST_ITEMS && c.resourceId == resource.id
    requires BuildItem(index, project, resource, c).Ok?
    ensures Describes(BuildItem(index, project, resource, c).value, resource, c)
    ensures BuildItem(index, project, resource, c).value.key == ItemKey(index)
  {
    hide IsDisplayName, IsRegionCode, ToHardwareFamily, ItemKey, ToCalculatorOption, CheckedTwelfth, TotalOf;
  }

  // ---- indexing the calculations ----

  predicate DistinctResults(results: seq<ResourceCalculation>) {
    forall i, j | 0 <= i < j < |results| :: results[i].resourceId != results[j].resourceId
  }

  ghost predicate Indexes(m: map<ResourceId, ResourceCalculation>, results: seq<ResourceCalculation>) {
    && (forall i | 0 <= i < |results| :: results[i].resourceId in m && m[results[i].resourceId] == results[i])
    && (forall id | id in m :: exists i :: 0 <= i < |results| && results[i] == m[id] && m[id].resourceId == id)
  }

  method IndexedCalculations(revision: Revision) returns (r: Result<map<ResourceId, ResourceCalculation>, Error>)
    ensures r.Ok? <==> DistinctResults(revision.results)
    ensures r.Ok? ==> Indexes(r.value, revision.results)
    ensures r.Err? ==> r.error == CalculationMismatch
  {
    var results := revision.results;
    var seen: set<ResourceId>, calculations := {}, map[];
    for i := 0 to |results|
      invariant forall id :: id in seen <==> exists j :: 0 <= j < i && results[j].resourceId == id
      invariant forall j, k | 0 <= j < k < i :: results[j].resourceId != results[k].resourceId
      invariant calculations.Keys == seen
      invariant forall j | 0 <= j < i :: calculations[results[j].resourceId] == results[j]
    {
      var calculation := results[i];
      if calculation.resourceId in seen {
        return Err(CalculationMismatch);
      }
      seen := seen + {calculation.resourceId};
      calculations := calculations[calculation.resourceId := calculation];
    }
    return Ok(calculations);
  }

  // ---- the whole manifest ----

  predicate IsEligible(p: ProjectDocument) {
    && p.projectType != Ec2Vm && p.projectType != SqlPayg && p.currency == "USD"
    && 1 <= |p.resources| <= MAX_CALCULATOR_MANIFEST_ITEMS && IsDisplayName(p.name, 100)
  }

  predicate IsBound(p: ProjectDocument, r: Revision) {
    && p.formulaVersion == FORMULA_VERSION && r.formulaVersion == p.formulaVersion
    && p.azureSnapshotId.Some? && r.azureSnapshotId == p.azureSnapshotId
    && |r.results| == |p.resources|
  }

  /** The calculation of a resource, where there is one. */
  ghost function CalculationOf(results: seq<ResourceCalculation>, id: ResourceId): Option<ResourceCalculation> {
    if exists i :: 0 <= i < |results| && results[i].resourceId == id then
      var i :| 0 <= i < |results| && results[i].resourceId == id;
      Some(results[i])
    else None
  }

  ghost function RowItem(p: ProjectDocument, results: seq<ResourceCalculation>, index: nat): Result<Item, Error>
    requires index < |p.resources| <= MAX_CALCULATOR_MANIFEST_ITEMS
  {
    var c := CalculationOf(results, p.resources[index].id);
    if c.None? then Err(CalculationMismatch) else BuildItem(index, p, p.resources[index], c.value)
  }

  /** Row by row from this one on; the first row that fails decides. */
  ghost function RowsFrom(p: ProjectDocument, results: seq<ResourceCalculation>, from: nat): Result<seq<Item>, Error>
    requires from <= |p.resources| <= MAX_CALCULATOR_MANIFEST_ITEMS
    decreases |p.resources| - from
  {
    if from == |p.resources| then Ok([])
    else
      var item := RowItem(p, results, from);
      if item.Err? then Err(item.error)
      else
        var rest := RowsFrom(p, results, from + 1);
        if rest.Err? then rest else Ok([item.value] + rest.value)
  }

  ghost function Built(p: ProjectDocument): Result<seq<Item>, Error> {
    hide IsDisplayName, RowsFrom, DistinctResults;
    if !IsEligible(p) then Err(IneligibleProject)
    else if p.latestRevision.None? || !IsBound(p, p.latestRevision.value)
      || !DistinctResults(p.latestRevision.value.results) then
      Err(CalculationMismatch)
    else RowsFrom(p, p.latestRevision.value.results, 0)
  }

  lemma IndexedIsCalculationOf(m: map<ResourceId, ResourceCalculation>, results: seq<ResourceCalculation>,
                               id: ResourceId)
    requires DistinctResults(results) && Indexes(m, results)
    ensures CalculationOf(results, id) == if id in m then Some(m[id]) else None
  {
    if id in m {
      var i :| 0 <= i < |results| && results[i] == m[id] && m[id].resourceId == id;
    }
  }

  /** The items below the fixed header. */
  function ManifestOf(p: ProjectDocument, generatedAt: string, items: seq<Item>): CalculatorManifest {
    CalculatorManifest(CALCULATOR_MANIFEST_VERSION, CALCULATOR_CONTRACT_VERSION, CALCULATOR_URL, generatedAt, "USD",
      "en-US", p.name, items)
  }

  method BuildCalculatorManifest(project: ProjectDocument, generatedAt: string)
    returns (r: Result<CalculatorManifest, Error>)
    ensures r.Ok? <==> Built(project).Ok?
    ensures r.Ok? ==> r.value == ManifestOf(project, generatedAt, Built(project).value)
    ensures r.Err? ==> r.error == Built(project).error
  {
    hide BuildItem, IsDisplayName, CalculationOf, Indexes, DistinctResults;
    if project.projectType == Ec2Vm || project.projectType == SqlPayg || project.currency != "USD"
      || project.resources == []
       || |project.resources| > MAX_CALCULATOR_MANIFEST_ITEMS || !IsDisplayName(project.name, 100) {
      return Err(IneligibleProject);
    }
    if project.latestRevision.None? {
      return Err(CalculationMismatch);
    }
    var revision := project.latestRevision.value;
    if !IsBound(project, revision) {
      return Err(CalculationMismatch);
    }
    var indexed := IndexedCalculations(revision);
    if indexed.Err? {
      return Err(indexed.error);
    }
    var items: seq<Item> := [];
    assert forall rest: seq<Item> :: [] + rest == rest;
    for index := 0 to |project.resources|
      invariant Built(project) ==
                  var rest := RowsFrom(project, revision.results, index);
                  if rest.Err? then rest else Ok(items + rest.value)
    {
      var resource := project.resources[index];
      IndexedIsCalculationOf(indexed.value, revision.results, resource.id);
      if resource.id !in indexed.value {
        return Err(CalculationMismatch);
      }
      var item := BuildItem(index, project, resource, indexed.value[resource.id]);
      if item.Err? {
        return Err(item.error);
      }
      ghost var rest := RowsFrom(project, revision.results, index + 1);
      assert rest.Ok? ==> items + ([item.value] + rest.value) == items + [item.value] + rest.value;
      items := items + [item.value];
    }
    assert items + [] == items;
    return Ok(ManifestOf(project, generatedAt, items));
  }

  // ---- every calculation is used ----

  function IdsOf(ids: seq<ResourceId>): set<ResourceId> {
    set i | 0 <= i < |ids| :: ids[i]
  }

  predicate AllDifferent(ids: seq<ResourceId>) {
    forall i, j | 0 <= i < j < |ids| :: ids[i] != ids[j]
  }

  /** A sequence has as many different elements as elements exactly when they are all different. */
  lemma {:induction false} DifferentMeansFullCount(ids: seq<ResourceId>)
    ensures |IdsOf(ids)| <= |ids|
    ensures |IdsOf(ids)| == |ids| <==> AllDifferent(ids)
  {
    if ids != [] {
      var n := |ids| - 1;
      DifferentMeansFullCount(ids[..n]);
      LastId(ids, n);
      hide IdsOf, AllDifferent;
    }
  }

  lemma LastId(ids: seq<ResourceId>, n: nat)
    requires |ids| == n + 1
    ensures IdsOf(ids) == IdsOf(ids[..n]) + {ids[n]}
    ensures AllDifferent(ids) <==> AllDifferent(ids[..n]) && ids[n] !in IdsOf(ids[..n])
  {
    assert ids[n] in IdsOf(ids[..n]) <==> exists i :: 0 <= i < n && ids[i] == ids[n];
    assert forall i | 0 <= i < n :: ids[..n][i] == ids[i];
  }

  lemma SubsetOfSameSize(a: set<ResourceId>, b: set<ResourceId>)
    requires a <= b
    ensures |a| <= |b| && (|a| == |b| <==> a == b)
  {
    assert b == a + (b - a);
    assert |b| == |a| + |b - a|;
  }

  function ResourceIds(p: ProjectDocument): seq<ResourceId> {
    seq(|p.resources|, i requires 0 <= i < |p.resources| => p.resources[i].id)
  }

  function ResultIds(results: seq<ResourceCalculation>): seq<ResourceId> {
    seq(|results|, i requires 0 <= i < |results| => results[i].resourceId)
  }

  lemma DistinctResultsAreDifferent(results: seq<ResourceCalculation>)
    ensures DistinctResults(results) <==> AllDifferent(ResultIds(results))
  {
    if AllDifferent(ResultIds(results)) {
      forall i, j | 0 <= i < j < |results|
        ensures results[i].resourceId != results[j].resourceId
      {
        assert ResultIds(results)[i] != ResultIds(results)[j];
      }
    }
  }

  lemma CalculationOfMeans(results: seq<ResourceCalculation>, id: ResourceId)
    ensures CalculationOf(results, id).Some? <==> id in IdsOf(ResultIds(results))
    ensures CalculationOf(results, id).Some? ==>
            CalculationOf(results, id).value in results && CalculationOf(results, id).value.resourceId == id
  {
    if id in IdsOf(ResultIds(results)) {
      var i :| 0 <= i < |results| && ResultIds(results)[i] == id;
      assert results[i].resourceId == id;
    }
    if i :| 0 <= i < |results| && results[i].resourceId == id {
      assert ResultIds(results)[i] == id;
    }
  }

  /** The items from this row on describe their rows, each by the calculation of its own resource. */
  lemma {:induction false} RowsDescribe(p: ProjectDocument, results: seq<ResourceCalculation>, from: nat)
    requires from <= |p.resources| <= MAX_CALCULATOR_MANIFEST_ITEMS && RowsFrom(p, results, from).Ok?
    ensures var items := RowsFrom(p, results, from).value;
            && |items| == |p.resources| - from
            && forall i | from <= i < |p.resources| ::
                 && CalculationOf(results, p.resources[i].id).Some?
                 && Describes(items[i - from], p.resources[i], CalculationOf(results, p.resources[i].id).value)
                 && items[i - from].key == ItemKey(i)
    decreases |p.resources| - from
  {
    hide BuildItem, CalculationOf, Describes, ItemKey;
    if from < |p.resources| {
      RowsDescribe(p, results, from + 1);
      CalculationOfMeans(results, p.resources[from].id);
      BuiltItemDescribes(from, p, p.resources[from], CalculationOf(results, p.resources[from].id).value);
    }
  }

  /** The cases of Built, for a project with a revision. */
  lemma BuiltMeans(p: ProjectDocument, r: Revision)
    requires p.latestRevision == Some(r)
    ensures !IsEligible(p) ==> Built(p) == Err(IneligibleProject)
    ensures IsEligible(p) && (!IsBound(p, r) || !DistinctResults(r.results)) ==> Built(p) == Err(CalculationMismatch)
    ensures IsEligible(p) ==> |p.resources| <= MAX_CALCULATOR_MANIFEST_ITEMS
    ensures IsEligible(p) && IsBound(p, r) ==> |p.resources| == |r.results|
    ensures |p.resources| <= MAX_CALCULATOR_MANIFEST_ITEMS && IsEligible(p) && IsBound(p, r)
            && DistinctResults(r.results) ==>
              Built(p) == RowsFrom(p, r.results, 0)
  {
    hide RowsFrom, IsDisplayName, DistinctResults;
  }

  /** A manifest has one item per row, in row order, and each describes its workload by a calculation of
      that workload. */
  lemma ManifestKeepsRows(p: ProjectDocument, r: Revision, items: seq<Item>)
    requires p.latestRevision == Some(r) && Built(p) == Ok(items)
    ensures |items| == |p.resources| == |r.results| <= MAX_CALCULATOR_MANIFEST_ITEMS
    ensures forall i | 0 <= i < |items| ::
            items[i].key == ItemKey(i) && DescribedByOne(items[i], p.resources[i], r.results)
  {
    hide *;
    BuiltMeans(p, r);
    AllRowsDescribed(p, r.results, items);
  }

  lemma AllRowsDescribed(p: ProjectDocument, results: seq<ResourceCalculation>, items: seq<Item>)
    requires |p.resources| <= MAX_CALCULATOR_MANIFEST_ITEMS && RowsFrom(p, results, 0) == Ok(items)
    ensures |items| == |p.resources|
    ensures forall i | 0 <= i < |items| ::
            items[i].key == ItemKey(i) && DescribedByOne(items[i], p.resources[i], results)
  {
    hide *;
    RowsDescribe(p, results, 0);
    forall i | 0 <= i < |items|
      ensures items[i].key == ItemKey(i) && DescribedByOne(items[i], p.resources[i], results)
    {
      assert items[i - 0] == items[i];
      OwnCalculationDescribes(items[i], p.resources[i], results);
    }
  }

  lemma OwnCalculationDescribes(item: Item, resource: Workload, results: seq<ResourceCalculation>)
    requires CalculationOf(results, resource.id).Some?
             && Describes(item, resource, CalculationOf(results, resource.id).value)
    ensures DescribedByOne(item, resource, results)
  {
    CalculationOfMeans(results, resource.id);
    hide CalculationOf, Describes;
  }

  lemma BuiltCoversResources(p: ProjectDocument, r: Revision, items: seq<Item>)
    requires p.latestRevision == Some(r) && Built(p) == Ok(items)
    ensures |p.resources| == |r.results| && DistinctResults(r.results)
    ensures IdsOf(ResourceIds(p)) <= IdsOf(ResultIds(r.results))
  {
    hide *;
    BuiltMeans(p, r);
    RowsDescribe(p, r.results, 0);
    forall i | 0 <= i < |p.resources|
      ensures p.resources[i].id in IdsOf(ResultIds(r.results))
    {
      CalculationOfMeans(r.results, p.resources[i].id);
    }
    ResourcesAreInside(p, IdsOf(ResultIds(r.results)));
  }

  lemma ResourcesAreInside(p: ProjectDocument, ids: set<ResourceId>)
    requires forall i | 0 <= i < |p.resources| :: p.resources[i].id in ids
    ensures IdsOf(ResourceIds(p)) <= ids
  {
  }

  lemma IdCounts(p: ProjectDocument, results: seq<ResourceCalculation>)
    ensures |ResourceIds(p)| == |p.resources| && |ResultIds(results)| == |results|
  {
  }

  /** Once a manifest is built, it uses every calculation exactly when the resource identifiers are
      distinct: there are as many of the one as of the other, and no calculation is repeated. */
  lemma EveryCalculationIsUsed(p: ProjectDocument, r: Revision, items: seq<Item>)
    requires p.latestRevision == Some(r) && Built(p) == Ok(items)
    ensures AllDifferent(ResourceIds(p)) <==>
              forall c | c in r.results :: exists i :: 0 <= i < |p.resources| && p.resources[i].id == c.resourceId
  {
    hide *;
    BuiltCoversResources(p, r, items);
    IdCounts(p, r.results);
    DistinctResultsAreDifferent(r.results);
    DifferentMeansFullCount(ResultIds(r.results));
    DifferentMeansFullCount(ResourceIds(p));
    SubsetOfSameSize(IdsOf(ResourceIds(p)), IdsOf(ResultIds(r.results)));
    SameIdsMeansAllUsed(p, r.results);
  }

  lemma SameIdsMeansAllUsed(p: ProjectDocument, results: seq<ResourceCalculation>)
    requires IdsOf(ResourceIds(p)) <= IdsOf(ResultIds(results))
    ensures IdsOf(ResourceIds(p)) == IdsOf(ResultIds(results)) <==>
              forall c | c in results :: exists i :: 0 <= i < |p.resources| && p.resources[i].id == c.resourceId
  {
    if IdsOf(ResourceIds(p)) == IdsOf(ResultIds(results)) {
      forall c | c in results
        ensures exists i :: 0 <= i < |p.resources| && p.resources[i].id == c.resourceId
      {
        var j: nat :| j < |results| && results[j] == c;
        assert ResultIds(results)[j] in IdsOf(ResourceIds(p));
        var i :| 0 <= i < |p.resources| && ResourceIds(p)[i] == c.resourceId;
        assert p.resources[i].id == c.resourceId;
      }
    }
    if forall c | c in results :: exists i :: 0 <= i < |p.resources| && p.resources[i].id == c.resourceId {
      forall id | id in IdsOf(ResultIds(results))
        ensures id in IdsOf(ResourceIds(p))
      {
        var j: nat :| j < |results| && ResultIds(results)[j] == id;
        assert results[j] in results;
        var i :| 0 <= i < |p.resources| && p.resources[i].id == results[j].resourceId;
        assert ResourceIds(p)[i] == id;
      }
    }
  }

  // ---- the order of the results ----

  lemma SameCalculations(a: seq<ResourceCalculation>, b: seq<ResourceCalculation>)
    requires multiset(a) == multiset(b)
    ensures forall c :: c in a <==> c in b
    ensures |a| == |b| && (DistinctResults(a) <==> DistinctResults(b))
  {
    assert forall c :: (c in a <==> c in multiset(a)) && (c in b <==> c in multiset(b));
    assert |multiset(a)| == |a| && |multiset(b)| == |b|;
    SameIds(a, b);
    SameIds(b, a);
    assert IdsOf(ResultIds(a)) == IdsOf(ResultIds(b));
    assert |ResultIds(a)| == |a| && |ResultIds(b)| == |b|;
    hide DistinctResults, AllDifferent, IdsOf, ResultIds;
    DistinctResultsAreDifferent(a);
    DistinctResultsAreDifferent(b);
    DifferentMeansFullCount(ResultIds(a));
    DifferentMeansFullCount(ResultIds(b));
  }

  lemma SameIds(a: seq<ResourceCalculation>, b: seq<ResourceCalculation>)
    requires forall c | c in a :: c in b
    ensures IdsOf(ResultIds(a)) <= IdsOf(ResultIds(b))
  {
    forall id | id in IdsOf(ResultIds(a))
      ensures id in IdsOf(ResultIds(b))
    {
      var j: nat :| j < |a| && ResultIds(a)[j] == id;
      assert a[j] in b;
      var i: nat :| i < |b| && b[i] == a[j];
      assert ResultIds(b)[i] == id;
    }
  }

  lemma SameCalculationOf(a: seq<ResourceCalculation>, b: seq<ResourceCalculation>, id: ResourceId)
    requires multiset(a) == multiset(b) && DistinctResults(a)
    ensures CalculationOf(a, id) == CalculationOf(b, id)
  {
    SameCalculations(a, b);
    CalculationOfMeans(a, id);
    CalculationOfMeans(b, id);
    SameIds(a, b);
    SameIds(b, a);
    hide CalculationOf;
    if CalculationOf(a, id).Some? {
      var x, y := CalculationOf(a, id).value, CalculationOf(b, id).value;
      var i: nat :| i < |a| && a[i] == x;
      assert y in a;
      var j: nat :| j < |a| && a[j] == y;
    }
  }

  lemma SameRow(p: ProjectDocument, q: ProjectDocument, a: seq<ResourceCalculation>, b: seq<ResourceCalculation>,
                index: nat)
    requires index < |p.resources| <= MAX_CALCULATOR_MANIFEST_ITEMS && multiset(a) == multiset(b) && DistinctResults(a)
    requires q.resources == p.resources && q.azureRegion == p.azureRegion
    ensures RowItem(p, a, index) == RowItem(q, b, index)
  {
    SameCalculationOf(a, b, p.resources[index].id);
    hide BuildItem, CalculationOf, DistinctResults;
    var c := CalculationOf(a, p.resources[index].id);
    if c.Some? {
      SameRegionSameItem(index, p, q, p.resources[index], c.value);
    }
  }

  lemma SameRegionSameItem(index: nat, p: ProjectDocument, q: ProjectDocument, resource: Workload,
                           c: ResourceCalculation)
    requires index < MAX_CALCULATOR_MANIFEST_ITEMS && q.azureRegion == p.azureRegion
    ensures BuildItem(index, p, resource, c) == BuildItem(index, q, resource, c)
  {
    hide IsDisplayName, IsRegionCode, ToHardwareFamily, ItemKey, ToCalculatorOption, ExactMonthlyHours, TotalOf;
  }

  lemma {:induction false} SameRows(p: ProjectDocument, q: ProjectDocument, a: seq<ResourceCalculation>,
                                    b: seq<ResourceCalculation>, from: nat)
    requires from <= |p.resources| <= MAX_CALCULATOR_MANIFEST_ITEMS && multiset(a) == multiset(b) && DistinctResults(a)
    requires q.resources == p.resources && q.azureRegion == p.azureRegion
    ensures RowsFrom(p, a, from) == RowsFrom(q, b, from)
    decreases |p.resources| - from
  {
    hide RowItem, DistinctResults;
    if from < |p.resources| {
      SameRows(p, q, a, b, from + 1);
      SameRow(p, q, a, b, from);
    }
  }

  lemma SameEligibility(p: ProjectDocument, q: ProjectDocument, r: Revision, s: Revision)
    requires q == p.(latestRevision := q.latestRevision) && s == r.(results := s.results) && |s.results| == |r.results|
    ensures IsEligible(p) == IsEligible(q) && IsBound(p, r) == IsBound(q, s)
    ensures IsEligible(p) ==> |p.resources| <= MAX_CALCULATOR_MANIFEST_ITEMS
  {
    hide IsDisplayName;
  }

  /** The manifest, or the error, does not depend on the order of the calculation's results. */
  lemma ManifestIgnoresResultOrder(p: ProjectDocument, r: Revision, results: seq<ResourceCalculation>)
    requires p.latestRevision == Some(r) && multiset(results) == multiset(r.results)
    ensures Built(p.(latestRevision := Some(r.(results := results)))) == Built(p)
  {
    hide *;
    var reordered := r.(results := results);
    var q := p.(latestRevision := Some(reordered));
    SameCalculations(results, r.results);
    SameEligibility(p, q, r, reordered);
    BuiltMeans(p, r);
    BuiltMeans(q, reordered);
    if IsEligible(p) && DistinctResults(r.results) {
      SameRows(p, q, r.results, results, 0);
    }
  }

  /** Rows of one manifest have different item keys. */
  lemma ItemKeysAreDistinct(i: nat, j: nat)
    requires i < j < MAX_CALCULATOR_MANIFEST_ITEMS
    ensures ItemKey(i) != ItemKey(j)
  {
    var a, b := ItemKey(i), ItemKey(j);
    assert a[1] == Digit((i + 1) / 10) && a[2] == Digit((i + 1) % 10);
    assert b[1] == Digit((j + 1) / 10) && b[2] == Digit((j + 1) % 10);
  }
}
