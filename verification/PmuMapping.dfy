/**
 Which PMU counts for which GPU (mapGPUPMUs in gpu_pmu_linux.go): a greedy matching by driver and PCI
 address, then a fallback for the one GPU and the one PMU that nothing else identifies.
 */
module PmuMapping {
  import opened PciAddress

  datatype Gpu = Gpu(bdf: string, driver: string)
  datatype Pmu = Pmu(name: string, driver: string, bdf: string)

  predicate Fits(gpu: Gpu, pmu: Pmu) {
    pmu.bdf != "" && pmu.driver == gpu.driver && MatchBDF(pmu.bdf, gpu.bdf)
  }

  /** The first PMU from j on that fits and is not taken, or -1. */
  function FirstFree(gpu: Gpu, pmus: seq<Pmu>, taken: seq<int>, j: nat): (r: int)
    requires j <= |pmus|
    ensures r == -1 || (j <= r < |pmus| && Fits(gpu, pmus[r]) && r !in taken)
    ensures forall k | j <= k < (if r < 0 then |pmus| else r) :: Fits(gpu, pmus[k]) ==> k in taken
    decreases |pmus| - j
  {
    if j == |pmus| then -1
    else if Fits(gpu, pmus[j]) && j !in taken then j
    else FirstFree(gpu, pmus, taken, j + 1)
  }

  /** The address stage: GPUs in order, each with its first free fitting PMU or -1. */
  function Greedy(gpus: seq<Gpu>, pmus: seq<Pmu>): (m: seq<int>)
    ensures |m| == |gpus|
  {
    if gpus == [] then []
    else
      var before := Greedy(gpus[..|gpus| - 1], pmus);
      before + [FirstFree(gpus[|gpus| - 1], pmus, before, 0)]
  }

  /** A GPU of the PMUs' driver without a PMU after the address stage. */
  predicate Lonely(gpus: seq<Gpu>, pmus: seq<Pmu>, g: seq<int>, i: int) {
    0 <= i < |gpus| == |g| && pmus != [] && g[i] < 0 && gpus[i].driver == pmus[0].driver
  }

  /** A PMU named like its driver, without an address, that no GPU has. */
  predicate Spare(pmus: seq<Pmu>, g: seq<int>, j: int) {
    0 <= j < |pmus| && j !in g && pmus[j].bdf == "" && pmus[j].name == pmus[0].driver
  }

  ghost predicate OnlyLonely(gpus: seq<Gpu>, pmus: seq<Pmu>, g: seq<int>, i: int) {
    Lonely(gpus, pmus, g, i) && forall k :: Lonely(gpus, pmus, g, k) ==> k == i
  }

  ghost predicate OnlySpare(pmus: seq<Pmu>, g: seq<int>, j: int) {
    Spare(pmus, g, j) && forall k :: Spare(pmus, g, k) ==> k == j
  }

  /** m is the address stage's matching, with the only lonely GPU given the only spare PMU. */
  ghost predicate IsMapping(gpus: seq<Gpu>, pmus: seq<Pmu>, m: seq<int>) {
    var g := Greedy(gpus, pmus);
    if exists i, j :: OnlyLonely(gpus, pmus, g, i) && OnlySpare(pmus, g, j)
    then exists i, j :: OnlyLonely(gpus, pmus, g, i) && OnlySpare(pmus, g, j) && m == g[i := j]
    else m == g
  }

  /** The address stage: each GPU in turn claims its first free fitting PMU. */
  method AssignByAddress(gpus: seq<Gpu>, pmus: seq<Pmu>, mapped: array<int>, claimed: array<bool>)
    requires mapped.Length == |gpus| && claimed.Length == |pmus|
    requires forall i | 0 <= i < |gpus| :: mapped[i] == -1
    requires forall j | 0 <= j < |pmus| :: !claimed[j]
    modifies mapped, claimed
    ensures mapped[..] == Greedy(gpus, pmus)
    ensures forall j | 0 <= j < |pmus| :: claimed[j] <==> j in mapped[..]
  {
    hide Fits;
    for i := 0 to |gpus|
      invariant mapped[..i] == Greedy(gpus[..i], pmus)
      invariant forall k | i <= k < |gpus| :: mapped[k] == -1
      invariant forall j | 0 <= j < |pmus| :: claimed[j] <==> j in mapped[..i]
    {
      ghost var taken := mapped[..i];
      var j := 0;
      while j < |pmus|
        invariant j <= |pmus| && mapped[..i] == taken
        invariant forall k | 0 <= k < j :: Fits(gpus[i], pmus[k]) ==> k in taken
        invariant forall k | i <= k < |gpus| :: mapped[k] == -1
        invariant forall k | 0 <= k < |pmus| :: claimed[k] <==> k in taken
      {
        if !claimed[j] && Fits(gpus[i], pmus[j]) {
          mapped[i] := j;
          claimed[j] := true;
          break;
        }
        j := j + 1;
      }
      assert mapped[..i + 1] == taken + [mapped[i]];
      assert gpus[..i + 1][..i] == gpus[..i];
    }
    assert gpus[..|gpus|] == gpus && mapped[..] == mapped[..|gpus|];
  }

  method MapGPUPMUs(gpus: seq<Gpu>, pmus: seq<Pmu>) returns (mapped: array<int>)
    ensures fresh(mapped) && IsMapping(gpus, pmus, mapped[..])
  {
    hide Fits, Greedy;
    mapped := new int[|gpus|](_ => -1);
    ghost var g := Greedy(gpus, pmus);
    if |pmus| == 0 {
      NoPmus(gpus);
      assert mapped[..] == g;
      return;
    }
    var claimed := new bool[|pmus|](_ => false);
    AssignByAddress(gpus, pmus, mapped, claimed);
    var driver := pmus[0].driver;
    ghost var lonely := seq(|gpus|, i => Lonely(gpus, pmus, g, i));
    ghost var spare := seq(|pmus|, j => Spare(pmus, g, j));
    var unmapped, unmappedCount := -1, 0;
    for i := 0 to |gpus|
      invariant Tally(lonely, i, unmapped, unmappedCount)
    {
      assert lonely[i] == (mapped[i] < 0 && gpus[i].driver == driver);
      if mapped[i] < 0 && gpus[i].driver == driver {
        unmapped := i;
        unmappedCount := unmappedCount + 1;
      }
    }
    var fallback, fallbackCount := -1, 0;
    for j := 0 to |pmus|
      invariant Tally(spare, j, fallback, fallbackCount)
    {
      assert spare[j] == (!claimed[j] && pmus[j].bdf == "" && pmus[j].name == driver);
      if !claimed[j] && pmus[j].bdf == "" && pmus[j].name == driver {
        fallback := j;
        fallbackCount := fallbackCount + 1;
      }
    }
    assert forall i :: Lonely(gpus, pmus, g, i) ==> lonely[i];
    assert forall j :: Spare(pmus, g, j) ==> spare[j];
    if unmappedCount == 1 && fallbackCount == 1 {
      assert OnlyLonely(gpus, pmus, g, unmapped) && OnlySpare(pmus, g, fallback);
      mapped[unmapped] := fallback;
      assert mapped[..] == g[unmapped := fallback];
    }
  }

  lemma NoPmus(gpus: seq<Gpu>)
    ensures forall i | 0 <= i < |gpus| :: Greedy(gpus, [])[i] == -1
  {}

  /** Counting flags up to n: none, exactly one, or at least two are set; last is the latest. */
  ghost predicate Tally(flags: seq<bool>, n: nat, last: int, count: int) {
    && n <= |flags| && count >= 0
    && (count == 0 ==> forall k | 0 <= k < n :: !flags[k])
    && (count > 0 ==> 0 <= last < n && flags[last])
    && (count == 1 ==> forall k | 0 <= k < n :: flags[k] ==> k == last)
    && (count > 1 ==> exists k, l :: 0 <= k < l < n && flags[k] && flags[l])
  }
}
