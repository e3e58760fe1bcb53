/** When a Calculator manifest is built and why not: the guards of build_calculator_manifest in
    rust/src/api/calculator_launches.rs taken together, and what a purchase option turns into. */
module ManifestGuards {
  import opened Wrappers
  import opened Text
  import opened Projects
  import opened Decimals
  import opened Manifest

  // ---- purchase options ----

  /** The hybrid-benefit flag is set for the four options that name it, and the term is kept. */
  lemma PurchaseOptionMeans(o: PurchaseOption)
    ensures ToCalculatorOption(o).1 <==> o in {Ahb, AhbOneYear, AhbThreeYear, AhbSavingsOneYear}
    ensures ToCalculatorOption(o).0 == PayAsYouGo <==> o in {Payg, Ahb}
    ensures ToCalculatorOption(o).0 == OneYearReservation <==> o in {OneYear, AhbOneYear}
    ensures ToCalculatorOption(o).0 == ThreeYearReservation <==> o in {ThreeYear, AhbThreeYear}
    ensures ToCalculatorOption(o).0 == OneYearSavingsPlan <==> o in {SavingsOneYear, AhbSavingsOneYear}
  {
  }

  // ---- one row ----

  predicate HasFreshPrice(c: ResourceCalculation) {
    (c.pricingStatus == Fresh || c.pricingStatus == Cached) && c.azureCosts.Some? && TotalOf(c.azureCosts.value).Some?
  }

  predicate HasSupportedTarget(azureRegion: string, c: ResourceCalculation) {
    && c.mappingStatus == Some(Mapped) && c.selected.Some?
    && c.selected.value.region == azureRegion
    && azureRegion != [] && |azureRegion| <= 64
    && (forall ch | ch in azureRegion :: 'a' <= ch <= 'z' || '0' <= ch <= '9')
    && c.selected.value.hardwareFamily in {"Premium Series", "Premium Series Memory Optimized"}
  }

  predicate HasGoodName(name: string, limit: nat) {
    Trim(name) == name && 1 <= |name| <= limit && forall ch | ch in name :: !IsControl(ch)
  }

  lemma GoodNames(name: string, limit: nat)
    ensures IsDisplayName(name, limit) <==> HasGoodName(name, limit)
  {
    TrimmedMeansUnchanged(name);
    hide Trim;
  }

  /** Everything a row needs to become an item. */
  predicate CanBeListed(azureRegion: string, resource: Workload, c: ResourceCalculation) {
    && HasFreshPrice(c) && HasSupportedTarget(azureRegion, c)
    && resource.purchaseOption.Some?
    && HasGoodName(resource.name, 160)
    && CheckedTwelfth(resource.annualHours).Some?
  }

  lemma FamiliesMean(name: string)
    ensures ToHardwareFamily(name) == Some(PremiumSeries) <==> name == "Premium Series"
    ensures ToHardwareFamily(name) == Some(PremiumSeriesMemoryOptimized) <==> name == "Premium Series Memory Optimized"
    ensures ToHardwareFamily(name).Some? <==> name in {"Premium Series", "Premium Series Memory Optimized"}
  {
    assert |"Premium Series"| != |"Premium Series Memory Optimized"|;
  }

  /** A row becomes an item exactly when it has a fresh price, a supported target, a purchase option, a good
      name and hours that divide; and the error names what it lacks. */
  lemma ItemIsBuiltExactly(index: nat, p: ProjectDocument, resource: Workload, c: ResourceCalculation)
    requires index < MAX_CALCULATOR_MANIFEST_ITEMS
    ensures var r := BuildItem(index, p, resource, c);
            && (r.Ok? <==> CanBeListed(p.azureRegion, resource, c))
            && (r == Err(PricingUnavailable) ==> !HasFreshPrice(c) || resource.purchaseOption.None?)
            && (r == Err(UnsupportedTarget) ==> !HasSupportedTarget(p.azureRegion, c))
            && (r == Err(InvalidDisplayName) ==> !HasGoodName(resource.name, 160))
            && (r == Err(InexactMonthlyHours) ==> CheckedTwelfth(resource.annualHours).None?)
            && r != Err(IneligibleProject) && r != Err(CalculationMismatch)
  {
    hide IsDisplayName, HasGoodName, ToHardwareFamily, ItemKey, ToCalculatorOption, CheckedTwelfth, TotalOf;
    GoodNames(resource.name, 160);
    if c.selected.Some? {
      FamiliesMean(c.selected.value.hardwareFamily);
    }
  }

  // ---- the whole manifest ----

  predicate CanBeLaunched(p: ProjectDocument) {
    && (p.projectType == Ec2 || p.projectType == Rds || p.projectType == OnPrem) && p.currency == "USD"
    && 1 <= |p.resources| <= 25 && HasGoodName(p.name, 100)
  }

  /** The calculation was made with this formula and these prices, for as many rows, each once. */
  predicate BelongsTo(p: ProjectDocument, r: Revision) {
    && p.formulaVersion == r.formulaVersion == "1.3.0"
    && p.azureSnapshotId.Some? && p.azureSnapshotId == r.azureSnapshotId
    && |p.resources| == |r.results| && AllDifferent(ResultIds(r.results))
  }

  predicate HasListable(p: ProjectDocument, r: Revision, i: nat)
    requires i < |p.resources|
  {
    exists c | c in r.results :: c.resourceId == p.resources[i].id && CanBeListed(p.azureRegion, p.resources[i], c)
  }

  /** Each row can be listed with a calculation of its own. */
  predicate AllListable(p: ProjectDocument, r: Revision) {
    forall i | 0 <= i < |p.resources| :: HasListable(p, r, i)
  }

  lemma OneCalculation(results: seq<ResourceCalculation>, c: ResourceCalculation)
    requires DistinctResults(results) && c in results
    ensures CalculationOf(results, c.resourceId) == Some(c)
  {
    var i: nat :| i < |results| && results[i] == c;
  }

  lemma RowIsBuiltExactly(p: ProjectDocument, r: Revision, i: nat)
    requires i < |p.resources| <= MAX_CALCULATOR_MANIFEST_ITEMS && DistinctResults(r.results)
    ensures RowItem(p, r.results, i).Ok? <==> HasListable(p, r, i)
  {
    hide BuildItem, CanBeListed, CalculationOf, DistinctResults;
    var id := p.resources[i].id;
    CalculationOfMeans(r.results, id);
    if CalculationOf(r.results, id).Some? {
      ItemIsBuiltExactly(i, p, p.resources[i], CalculationOf(r.results, id).value);
    }
    if c :| c in r.results && c.resourceId == id && CanBeListed(p.azureRegion, p.resources[i], c) {
      OneCalculation(r.results, c);
    }
  }

  lemma {:induction false} RowsAreBuiltExactly(p: ProjectDocument, r: Revision, from: nat)
    requires from <= |p.resources| <= MAX_CALCULATOR_MANIFEST_ITEMS && DistinctResults(r.results)
    ensures RowsFrom(p, r.results, from).Ok? <==> forall i | from <= i < |p.resources| :: HasListable(p, r, i)
    decreases |p.resources| - from
  {
    hide RowItem, HasListable, DistinctResults;
    if from < |p.resources| {
      RowIsBuiltExactly(p, r, from);
      RowsAreBuiltExactly(p, r, from + 1);
    }
  }

  lemma EligibleMeans(p: ProjectDocument)
    ensures IsEligible(p) <==> CanBeLaunched(p)
  {
    hide IsDisplayName, HasGoodName;
    GoodNames(p.name, 100);
  }

  lemma BoundMeans(p: ProjectDocument, r: Revision)
    ensures IsBound(p, r) && DistinctResults(r.results) <==> BelongsTo(p, r)
  {
    DistinctResultsAreDifferent(r.results);
    hide DistinctResults, AllDifferent, ResultIds;
  }

  lemma BuiltWithoutRevision(p: ProjectDocument)
    requires p.latestRevision.None?
    ensures Built(p) == Err(if IsEligible(p) then CalculationMismatch else IneligibleProject)
  {
    hide IsEligible;
  }

  lemma NoRowIsIneligible(p: ProjectDocument, r: Revision, index: nat)
    requires index < |p.resources| <= MAX_CALCULATOR_MANIFEST_ITEMS
    ensures RowItem(p, r.results, index) != Err(IneligibleProject)
  {
    hide BuildItem, CalculationOf, CanBeListed, HasFreshPrice, HasSupportedTarget, HasGoodName, CheckedTwelfth;
    var c := CalculationOf(r.results, p.resources[index].id);
    if c.Some? {
      ItemIsBuiltExactly(index, p, p.resources[index], c.value);
    }
  }

  lemma {:induction false} RowsAreNotIneligible(p: ProjectDocument, r: Revision, from: nat)
    requires from <= |p.resources| <= MAX_CALCULATOR_MANIFEST_ITEMS
    ensures RowsFrom(p, r.results, from) != Err(IneligibleProject)
    decreases |p.resources| - from
  {
    hide RowItem;
    if from < |p.resources| {
      RowsAreNotIneligible(p, r, from + 1);
      NoRowIsIneligible(p, r, from);
    }
  }

  lemma BuiltWithRevision(p: ProjectDocument, r: Revision)
    requires p.latestRevision == Some(r)
    ensures Built(p).Ok? <==>
              && IsEligible(p) && IsBound(p, r) && DistinctResults(r.results)
              && AllListable(p, r)
    ensures Built(p) == Err(IneligibleProject) <==> !IsEligible(p)
  {
    hide RowsFrom, IsEligible, IsBound, DistinctResults, HasListable;
    BuiltMeans(p, r);
    if IsEligible(p) && IsBound(p, r) && DistinctResults(r.results) {
      RowsAreBuiltExactly(p, r, 0);
      RowsAreNotIneligible(p, r, 0);
    }
  }

  /** The latest calculation belongs to the project, and covers every row. */
  predicate IsCovered(p: ProjectDocument) {
    match p.latestRevision
    case None => false
    case Some(r) => BelongsTo(p, r) && AllListable(p, r)
  }

  /** A manifest is built exactly when the project can be launched, its latest calculation belongs to it, and
      each of its rows can be listed with a calculation of its own; a project that cannot be launched, and
      no other, is called ineligible. */
  lemma ManifestIsBuiltExactly(p: ProjectDocument)
    ensures Built(p).Ok? <==> CanBeLaunched(p) && IsCovered(p)
    ensures Built(p) == Err(IneligibleProject) <==> !CanBeLaunched(p)
  {
    hide Built, CanBeLaunched, IsEligible, IsBound, BelongsTo, AllListable, DistinctResults;
    EligibleMeans(p);
    if p.latestRevision.None? {
      BuiltWithoutRevision(p);
    } else {
      BuiltWithRevision(p, p.latestRevision.value);
      BoundMeans(p, p.latestRevision.value);
    }
  }
}
