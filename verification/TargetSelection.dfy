/** Selection of a SQL Managed Instance target for an EC2 source: choose_mi_target_for_ec2 and
    mi_memory_options in research/Add-CloudTcoConverters.py.  Columns are taken as parsed. */
module TargetSelection {
  import opened Wrappers
  import Json

  const DEFAULT_SERVICE_TIER := "Next Generation General Purpose"
  const PREMIUM_SERIES := "Premium Series"

  datatype MiRow = MiRow(
    serviceTier: string,
    hardwareFamily: string,
    zoneRedundant: bool,
    vCores: real,
    estimatedMemory: real,
    configurationKey: string)

  const NGGP_PREMIUM_MEMORY_OPTIONS: map<int, seq<real>> := map[
    4 := [28.0, 32.0, 40.0, 48.0],
    6 := [42.0, 48.0, 60.0, 72.0],
    8 := [56.0, 64.0, 80.0, 96.0],
    10 := [70.0, 80.0, 100.0, 120.0],
    12 := [84.0, 96.0, 120.0, 144.0],
    16 := [112.0, 128.0, 160.0, 192.0],
    20 := [140.0, 160.0, 200.0, 240.0],
    24 := [168.0, 192.0, 240.0, 288.0],
    32 := [224.0, 256.0, 320.0, 384.0],
    40 := [280.0, 320.0, 400.0, 480.0],
    48 := [336.0, 384.0, 480.0],
    56 := [392.0, 448.0],
    64 := [448.0],
    80 := [560.0],
    96 := [560.0],
    128 := [560.0]]

  function TierPriority(tier: string): int {
    if tier == "Next Generation General Purpose" then 0
    else if tier == "General Purpose" then 1
    else if tier == "Business Critical" then 2
    else 99
  }

  /** Python's int() of a float truncates toward zero. */
  function Truncated(x: real): int {
    if x >= 0.0 then x.Floor else -((-x).Floor)
  }

  function MemoryOptions(row: MiRow): (options: seq<real>)
    ensures options != []
  {
    var vCores := Truncated(row.vCores);
    if row.serviceTier == DEFAULT_SERVICE_TIER && row.hardwareFamily == PREMIUM_SERIES && !row.zoneRedundant
       && vCores in NGGP_PREMIUM_MEMORY_OPTIONS then
      NGGP_PREMIUM_MEMORY_OPTIONS[vCores]
    else [row.estimatedMemory]
  }

  predicate Ascending(s: seq<real>) {
    forall i, j | 0 <= i < j < |s| :: s[i] < s[j]
  }

  lemma MemoryOptionsAscend(row: MiRow)
    ensures Ascending(MemoryOptions(row))
  {
  }

  /** The first option that is large enough. */
  function FirstAtLeast(options: seq<real>, memory: real): (r: Option<real>)
    ensures r.Some? ==> r.value in options && r.value >= memory
    ensures r.None? ==> forall m | m in options :: m < memory
    ensures Ascending(options) && r.Some? ==> forall m | m in options && m >= memory :: r.value <= m
  {
    if options == [] then None
    else if options[0] >= memory then Some(options[0])
    else
      assert forall m | m in options :: m == options[0] || m in options[1..];
      FirstAtLeast(options[1..], memory)
  }

  /** A row of the requested service tier; the default tier takes only the local premium series. */
  predicate Eligible(row: MiRow, tier: string) {
    && row.serviceTier == tier
    && (tier == DEFAULT_SERVICE_TIER ==> row.hardwareFamily == PREMIUM_SERIES && !row.zoneRedundant)
  }

  predicate Feasible(row: MiRow, tier: string, vcpu: real, memory: real) {
    Eligible(row, tier) && row.vCores >= vcpu && exists m | m in MemoryOptions(row) :: m >= memory
  }

  /** The least memory option that is large enough. */
  function SelectedMemory(row: MiRow, memory: real): (m: real)
    requires exists m | m in MemoryOptions(row) :: m >= memory
    ensures m in MemoryOptions(row) && m >= memory && forall n | n in MemoryOptions(row) && n >= memory :: m <= n
  {
    MemoryOptionsAscend(row);
    FirstAtLeast(MemoryOptions(row), memory).value
  }

  datatype Candidate = Candidate(row: MiRow, selectedMemory: real)

  datatype SortKey = SortKey(
    vCoreExcess: real,
    memoryExcess: real,
    tierPriority: int,
    zoneRedundant: bool,
    vCores: real,
    configurationKey: string)

  function KeyOf(c: Candidate, vcpu: real, memory: real): SortKey
    requires vcpu != 0.0 && memory != 0.0
  {
    SortKey((c.row.vCores - vcpu) / vcpu, (c.selectedMemory - memory) / memory, TierPriority(c.row.serviceTier),
      c.row.zoneRedundant, c.row.vCores, c.row.configurationKey)
  }

  /** Tuples compare component by component. */
  predicate KeyLess(a: SortKey, b: SortKey) {
    || a.vCoreExcess < b.vCoreExcess
    || (a.vCoreExcess == b.vCoreExcess && (
        || a.memoryExcess < b.memoryExcess
        || (a.memoryExcess == b.memoryExcess && (
            || a.tierPriority < b.tierPriority
            || (a.tierPriority == b.tierPriority && (
                || (!a.zoneRedundant && b.zoneRedundant)
                || (a.zoneRedundant == b.zoneRedundant && (
                    || a.vCores < b.vCores
                    || (a.vCores == b.vCores && Json.Less(a.configurationKey, b.configurationKey))))))))))
  }

  lemma KeyLessIsTransitive(a: SortKey, b: SortKey, c: SortKey)
    requires KeyLess(a, b) && KeyLess(b, c)
    ensures KeyLess(a, c)
  {
    if Json.Less(a.configurationKey, b.configurationKey) && Json.Less(b.configurationKey, c.configurationKey) {
      Json.LessIsTransitive(a.configurationKey, b.configurationKey, c.configurationKey);
    }
  }

  lemma KeyLessIsTotal(a: SortKey, b: SortKey)
    ensures a == b || KeyLess(a, b) || KeyLess(b, a)
    ensures !(KeyLess(a, b) && KeyLess(b, a))
  {
    Json.LessIsTotal(a.configurationKey, b.configurationKey);
    if Json.Less(a.configurationKey, b.configurationKey) {
      Json.LessIsAsymmetric(a.configurationKey, b.configurationKey);
    }
  }

  // ---- candidates ----

  function Candidates(rows: seq<MiRow>, tier: string, vcpu: real, memory: real): seq<Candidate> {
    if rows == [] then []
    else
      var n := |rows| - 1;
      Candidates(rows[..n], tier, vcpu, memory)
      + if Feasible(rows[n], tier, vcpu, memory) then [Candidate(rows[n], SelectedMemory(rows[n], memory))] else []
  }

  lemma {:induction false} CandidatesAreTheFeasibleRows(rows: seq<MiRow>, tier: string, vcpu: real, memory: real)
    ensures forall c :: c in Candidates(rows, tier, vcpu, memory) <==>
                        c.row in rows && Feasible(c.row, tier, vcpu, memory)
                          && c.selectedMemory == SelectedMemory(c.row, memory)
  {
    hide Feasible, SelectedMemory;
    if rows != [] {
      var n := |rows| - 1;
      CandidatesAreTheFeasibleRows(rows[..n], tier, vcpu, memory);
      assert forall r :: r in rows <==> r in rows[..n] || r == rows[n];
      FeasibleHasMemory(rows[n], tier, vcpu, memory);
    }
  }

  lemma FeasibleHasMemory(row: MiRow, tier: string, vcpu: real, memory: real)
    ensures Feasible(row, tier, vcpu, memory) ==> exists m | m in MemoryOptions(row) :: m >= memory
  {
  }

  /** The first candidate no other is below. */
  function Least(cs: seq<Candidate>, vcpu: real, memory: real): Candidate
    requires cs != [] && vcpu != 0.0 && memory != 0.0
  {
    var n := |cs| - 1;
    if n == 0 then cs[0]
    else
      var least := Least(cs[..n], vcpu, memory);
      if KeyLess(KeyOf(cs[n], vcpu, memory), KeyOf(least, vcpu, memory)) then cs[n] else least
  }

  lemma {:induction false} LeastIsLeast(cs: seq<Candidate>, vcpu: real, memory: real)
    requires cs != [] && vcpu != 0.0 && memory != 0.0
    ensures Least(cs, vcpu, memory) in cs
    ensures forall c | c in cs :: !KeyLess(KeyOf(c, vcpu, memory), KeyOf(Least(cs, vcpu, memory), vcpu, memory))
  {
    hide KeyLess, KeyOf;
    var n := |cs| - 1;
    var last := KeyOf(cs[n], vcpu, memory);
    KeyLessIsTotal(last, last);
    if n > 0 {
      LeastIsLeast(cs[..n], vcpu, memory);
      var before := Least(cs[..n], vcpu, memory);
      forall c | c in cs
        ensures !KeyLess(KeyOf(c, vcpu, memory), KeyOf(Least(cs, vcpu, memory), vcpu, memory))
      {
        var key := KeyOf(c, vcpu, memory);
        assert c in cs[..n] || c == cs[n];
        KeyLessIsTotal(key, last);
        KeyLessIsTotal(last, KeyOf(before, vcpu, memory));
        if KeyLess(key, last) && KeyLess(last, KeyOf(before, vcpu, memory)) {
          KeyLessIsTransitive(key, last, KeyOf(before, vcpu, memory));
        }
      }
    }
  }

  // ---- selection ----

  datatype Target = Target(row: MiRow, selectedMemory: real, includedMemory: real, memoryOptions: seq<real>)

  datatype SelectionError = ZeroDivision

  function TargetOf(c: Candidate): Target {
    Target(c.row, c.selectedMemory, MemoryOptions(c.row)[0], MemoryOptions(c.row))
  }

  /** With a zero requirement and a candidate, the relative excess divides by zero. */
  function Selection(rows: seq<MiRow>, tier: string, vcpu: real, memory: real): Result<Option<Target>, SelectionError> {
    var cs := Candidates(rows, tier, vcpu, memory);
    if cs == [] then Ok(None)
    else if vcpu == 0.0 || memory == 0.0 then Err(ZeroDivision)
    else Ok(Some(TargetOf(Least(cs, vcpu, memory))))
  }

  method ChooseMiTargetForEc2(rows: seq<MiRow>, tier: string, vcpu: real, memory: real)
    returns (r: Result<Option<Target>, SelectionError>)
    ensures r == Selection(rows, tier, vcpu, memory)
  {
    hide MemoryOptions, KeyLess, KeyOf, Truncated;
    var candidates: seq<Candidate> := [];
    assert rows[..0] == [];
    for i := 0 to |rows|
      invariant candidates == Candidates(rows[..i], tier, vcpu, memory)
    {
      var row := rows[i];
      assert rows[..i + 1][..i] == rows[..i];
      if row.serviceTier != tier {
        continue;
      }
      if tier == DEFAULT_SERVICE_TIER && (row.hardwareFamily != PREMIUM_SERIES || row.zoneRedundant) {
        continue;
      }
      if row.vCores < vcpu {
        continue;
      }
      var selectedMemory := FirstAtLeast(MemoryOptions(row), memory);
      MemoryOptionsAscend(row);
      if selectedMemory.None? {
        continue;
      }
      candidates := candidates + [Candidate(row, selectedMemory.value)];
    }
    assert rows[..|rows|] == rows;
    if candidates == [] {
      return Ok(None);
    }
    if vcpu == 0.0 || memory == 0.0 {
      return Err(ZeroDivision);
    }
    var least := candidates[0];
    assert candidates[..1] == [candidates[0]];
    for i := 1 to |candidates|
      invariant least == Least(candidates[..i], vcpu, memory)
    {
      assert candidates[..i + 1][..i] == candidates[..i];
      if KeyLess(KeyOf(candidates[i], vcpu, memory), KeyOf(least, vcpu, memory)) {
        least := candidates[i];
      }
    }
    assert candidates[..|candidates|] == candidates;
    return Ok(Some(TargetOf(least)));
  }

  // ---- what is selected ----

  lemma ExcessOrder(a: real, b: real, s: real)
    requires s > 0.0
    ensures (a - s) / s < (b - s) / s <==> a < b
    ensures (a - s) / s == (b - s) / s <==> a == b
  {
    var x, y := (a - s) / s, (b - s) / s;
    assert x * s == a - s && y * s == b - s;
    if x < y {
      assert (y - x) * s > 0.0;
    }
    if a < b {
      assert (y - x) * s > 0.0;
      assert y - x <= 0.0 ==> (y - x) * s <= 0.0;
    }
  }

  lemma KeyOrderMeans(c: Candidate, d: Candidate, vcpu: real, memory: real)
    requires vcpu > 0.0 && memory > 0.0 && !KeyLess(KeyOf(c, vcpu, memory), KeyOf(d, vcpu, memory))
    ensures d.row.vCores < c.row.vCores || (d.row.vCores == c.row.vCores && d.selectedMemory <= c.selectedMemory)
  {
    ExcessOrder(c.row.vCores, d.row.vCores, vcpu);
    ExcessOrder(c.selectedMemory, d.selectedMemory, memory);
  }

  /** No target exactly when no row is feasible. */
  lemma NoneExactlyWhenInfeasible(rows: seq<MiRow>, tier: string, vcpu: real, memory: real)
    ensures Selection(rows, tier, vcpu, memory) == Ok(None) <==>
            forall r | r in rows :: !Feasible(r, tier, vcpu, memory)
  {
    CandidatesAreTheFeasibleRows(rows, tier, vcpu, memory);
    hide Feasible, Candidates, SelectedMemory, Least, KeyOf, TargetOf;
    var cs := Candidates(rows, tier, vcpu, memory);
    if r :| r in rows && Feasible(r, tier, vcpu, memory) {
      FeasibleHasMemory(r, tier, vcpu, memory);
      assert Candidate(r, SelectedMemory(r, memory)) in cs;
    } else if cs != [] {
      assert cs[0] in cs;
    }
  }

  /** The target meets both requirements, and is least in vCores and then in memory among all rows that
      do, each with its least sufficient memory. */
  lemma TargetIsLexicographicMinimum(rows: seq<MiRow>, tier: string, vcpu: real, memory: real)
    requires vcpu > 0.0 && memory > 0.0
    ensures Selection(rows, tier, vcpu, memory).Ok?
    ensures Selection(rows, tier, vcpu, memory).value.Some? ==>
              var t := Selection(rows, tier, vcpu, memory).value.value;
              && t.row in rows && Eligible(t.row, tier) && t.row.vCores >= vcpu && t.selectedMemory >= memory
              && t.memoryOptions == MemoryOptions(t.row) && t.includedMemory == t.memoryOptions[0]
              && t.selectedMemory in t.memoryOptions
              && (forall r, m | r in rows && Eligible(r, tier) && r.vCores >= vcpu && m in MemoryOptions(r)
                && m >= memory ::
                    t.row.vCores < r.vCores || (t.row.vCores == r.vCores && t.selectedMemory <= m))
  {
    var cs := Candidates(rows, tier, vcpu, memory);
    CandidatesAreTheFeasibleRows(rows, tier, vcpu, memory);
    if cs != [] {
      LeastIsLeast(cs, vcpu, memory);
      hide Candidates, Least, KeyOf, KeyLess, MemoryOptions, Eligible;
      var best := Least(cs, vcpu, memory);
      forall r, m | r in rows && Eligible(r, tier) && r.vCores >= vcpu && m in MemoryOptions(r) && m >= memory
        ensures best.row.vCores < r.vCores || (best.row.vCores == r.vCores && best.selectedMemory <= m)
      {
        var c := Candidate(r, SelectedMemory(r, memory));
        assert c in cs;
        KeyOrderMeans(c, best, vcpu, memory);
      }
    }
  }

  /** With distinct configuration keys the order of the rows does not matter. */
  lemma SelectionIgnoresOrder(rows: seq<MiRow>, others: seq<MiRow>, tier: string, vcpu: real, memory: real)
    requires forall r :: r in rows <==> r in others
    requires forall r, s | r in rows && s in rows && r.configurationKey == s.configurationKey :: r == s
    ensures Selection(rows, tier, vcpu, memory) == Selection(others, tier, vcpu, memory)
  {
    var cs, ds := Candidates(rows, tier, vcpu, memory), Candidates(others, tier, vcpu, memory);
    CandidatesAreTheFeasibleRows(rows, tier, vcpu, memory);
    CandidatesAreTheFeasibleRows(others, tier, vcpu, memory);
    hide Candidates, Least, KeyLess, Feasible, SelectedMemory, TargetOf, TierPriority;
    assert forall c :: c in cs <==> c in ds;
    assert cs == [] <==> ds == [] by {
      if cs != [] { assert cs[0] in ds; }
      if ds != [] { assert ds[0] in cs; }
    }
    if cs != [] && vcpu != 0.0 && memory != 0.0 {
      LeastIsLeast(cs, vcpu, memory);
      LeastIsLeast(ds, vcpu, memory);
      var a, b := Least(cs, vcpu, memory), Least(ds, vcpu, memory);
      KeyLessIsTotal(KeyOf(a, vcpu, memory), KeyOf(b, vcpu, memory));
      assert KeyOf(a, vcpu, memory) == KeyOf(b, vcpu, memory);
      assert a.row == b.row;
    }
  }

  /** Raising a requirement never makes an infeasible request feasible and never lowers the vCores. */
  lemma SelectionIsMonotone(rows: seq<MiRow>, tier: string, vcpu: real, memory: real, moreVcpu: real, moreMemory: real)
    requires 0.0 < vcpu <= moreVcpu && 0.0 < memory <= moreMemory
    ensures var low, high := Selection(rows, tier, vcpu, memory), Selection(rows, tier, moreVcpu, moreMemory);
            && low.Ok? && high.Ok?
            && (low.value.None? ==> high.value.None?)
            && (high.value.Some? ==> low.value.Some? && low.value.value.row.vCores <= high.value.value.row.vCores)
  {
    TargetIsLexicographicMinimum(rows, tier, vcpu, memory);
    TargetIsLexicographicMinimum(rows, tier, moreVcpu, moreMemory);
    NoneExactlyWhenInfeasible(rows, tier, vcpu, memory);
    hide Selection, Eligible, MemoryOptions;
    var high := Selection(rows, tier, moreVcpu, moreMemory).value;
    if high.Some? {
      assert Feasible(high.value.row, tier, vcpu, memory);
    }
  }

  /** A zero requirement is an error exactly when some row is feasible. */
  lemma ZeroRequirementFails(rows: seq<MiRow>, tier: string, vcpu: real, memory: real)
    ensures Selection(rows, tier, vcpu, memory).Err? <==>
              (vcpu == 0.0 || memory == 0.0) && exists r | r in rows :: Feasible(r, tier, vcpu, memory)
  {
    NoneExactlyWhenInfeasible(rows, tier, vcpu, memory);
    hide Feasible, Candidates, Least, TargetOf;
  }

  predicate IsPremiumLocal(row: MiRow) {
    row.serviceTier == "Next Generation General Purpose" && row.hardwareFamily == "Premium Series" && !row.zoneRedundant
  }

  /** The memory of a premium local row is chosen among the options of its whole number of vCores; any other
      row, or number of vCores, has only its own memory. */
  lemma MemoryOptionsExactly(row: MiRow, n: int)
    requires n as real <= row.vCores < (n + 1) as real
    ensures IsPremiumLocal(row) && n in NGGP_PREMIUM_MEMORY_OPTIONS ==>
              MemoryOptions(row) == NGGP_PREMIUM_MEMORY_OPTIONS[n]
    ensures !IsPremiumLocal(row) || n !in NGGP_PREMIUM_MEMORY_OPTIONS ==> MemoryOptions(row) == [row.estimatedMemory]
  {
    assert forall i | i in NGGP_PREMIUM_MEMORY_OPTIONS :: i >= 4;
    TruncatedIs(row.vCores, n);
  }

  lemma TruncatedIs(x: real, n: int)
    requires n as real <= x < (n + 1) as real
    ensures x >= 0.0 ==> Truncated(x) == n
    ensures x < 0.0 ==> Truncated(x) <= 0 && n < 0
  {
  }

  lemma KeyTies(c: Candidate, d: Candidate, vcpu: real, memory: real)
    requires vcpu > 0.0 && memory > 0.0 && !KeyLess(KeyOf(c, vcpu, memory), KeyOf(d, vcpu, memory))
    requires c.row.vCores == d.row.vCores && c.selectedMemory == d.selectedMemory
             && c.row.serviceTier == d.row.serviceTier
    ensures d.row.zoneRedundant ==> c.row.zoneRedundant
    ensures d.row.zoneRedundant == c.row.zoneRedundant ==>
              !Json.Less(c.row.configurationKey, d.row.configurationKey)
  {
  }

  /** Among the rows that offer the target's vCores and memory, a local one is preferred to a zone-redundant
      one, and then the one with the least configuration key. */
  lemma TiesPreferLocalThenKey(rows: seq<MiRow>, tier: string, vcpu: real, memory: real, r: MiRow)
    requires vcpu > 0.0 && memory > 0.0
    requires var s := Selection(rows, tier, vcpu, memory);
             && s.Ok? && s.value.Some? && r in rows && Eligible(r, tier)
             && r.vCores == s.value.value.row.vCores && s.value.value.selectedMemory in MemoryOptions(r)
    ensures var t := Selection(rows, tier, vcpu, memory).value.value.row;
            && (t.zoneRedundant ==> r.zoneRedundant)
            && (t.zoneRedundant == r.zoneRedundant ==> !Json.Less(r.configurationKey, t.configurationKey))
  {
    var cs := Candidates(rows, tier, vcpu, memory);
    CandidatesAreTheFeasibleRows(rows, tier, vcpu, memory);
    LeastIsLeast(cs, vcpu, memory);
    TargetIsLexicographicMinimum(rows, tier, vcpu, memory);
    hide Candidates, Least, KeyOf, KeyLess, MemoryOptions;
    var best := Least(cs, vcpu, memory);
    var m := SelectedMemory(r, memory);
    var c := Candidate(r, m);
    assert c in cs;
    assert best.selectedMemory <= m <= best.selectedMemory;
    KeyTies(c, best, vcpu, memory);
  }
}
