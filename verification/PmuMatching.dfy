/**
 The greedy address stage is a maximum matching, because address matching is an equivalence: GPUs and
 PMUs fall into classes, and within a class every GPU fits every PMU.
 */
module PmuMatching {
  import opened Wrappers
  import opened PciAddress
  import opened PmuMapping

  /** A driver and a parsed address. */
  type Key = Option<(string, (nat, string))>

  function GpuKey(gpu: Gpu): Key {
    var bdf := SplitBDF(gpu.bdf);
    if bdf.Some? then Some((gpu.driver, bdf.value)) else None
  }

  function PmuKey(pmu: Pmu): Key {
    var bdf := SplitBDF(pmu.bdf);
    if pmu.bdf != "" && bdf.Some? then Some((pmu.driver, bdf.value)) else None
  }

  lemma FitsIsSameKey(gpu: Gpu, pmu: Pmu)
    ensures Fits(gpu, pmu) <==> PmuKey(pmu).Some? && PmuKey(pmu) == GpuKey(gpu)
  {
    hide SplitBDF;
  }

  /** An assignment that gives each GPU no PMU (-1) or a fitting one, and no PMU to two GPUs. */
  ghost predicate Matching(gpus: seq<Gpu>, pmus: seq<Pmu>, m: seq<int>) {
    && |m| == |gpus|
    && (forall i | 0 <= i < |m| :: m[i] >= 0 ==> m[i] < |pmus| && Fits(gpus[i], pmus[m[i]]))
    && Injective(m)
  }

  ghost predicate Injective(m: seq<int>) {
    forall i, k | 0 <= i < k < |m| && m[i] >= 0 :: m[i] != m[k]
  }

  /** The GPUs that have a PMU. */
  function Matched(m: seq<int>): set<int> {
    set i | 0 <= i < |m| && m[i] >= 0
  }

  lemma {:induction false} GreedyIsMatching(gpus: seq<Gpu>, pmus: seq<Pmu>)
    ensures Matching(gpus, pmus, Greedy(gpus, pmus))
    ensures forall i | 0 <= i < |gpus| :: Greedy(gpus, pmus)[i] >= -1
  {
    hide Fits;
    if gpus != [] {
      hide FirstFree;
      var n := |gpus| - 1;
      var before := Greedy(gpus[..n], pmus);
      GreedyIsMatching(gpus[..n], pmus);
      assert Greedy(gpus, pmus) == before + [FirstFree(gpus[n], pmus, before, 0)];
    }
  }

  /** A GPU is left without a PMU only when every PMU that fits it went to an earlier GPU. */
  lemma {:induction false} GreedyIsMaximal(gpus: seq<Gpu>, pmus: seq<Pmu>, i: int, j: int)
    requires 0 <= i < |gpus| && 0 <= j < |pmus| && Fits(gpus[i], pmus[j])
    ensures var g := Greedy(gpus, pmus); g[i] >= 0 || j in g[..i]
  {
    hide Fits;
    var n := |gpus| - 1;
    var before, g := Greedy(gpus[..n], pmus), Greedy(gpus, pmus);
    if i < n {
      GreedyIsMaximal(gpus[..n], pmus, i, j);
      assert g[..i] == before[..i];
    } else {
      assert g[..i] == before;
    }
  }

  // ----- counting

  lemma {:induction false} InjectiveImage(m: seq<int>, s: set<int>)
    requires Injective(m) && s <= Matched(m)
    ensures |set i | i in s :: m[i]| == |s|
  {
    var image := set i | i in s :: m[i];
    if x :| x in s {
      var rest := set i | i in s - {x} :: m[i];
      InjectiveImage(m, s - {x});
      assert m[x] !in rest;
      assert image == rest + {m[x]};
    } else {
      assert image == {};
    }
  }

  lemma SubsetSize(a: set<int>, b: set<int>)
    requires a <= b
    ensures |a| <= |b|
  {
    assert b == a + (b - a);
  }

  /** The members of s in the class of k. */
  function Class(s: set<int>, keys: seq<Key>, k: Key): set<int> {
    set i | i in s && 0 <= i < |keys| && keys[i] == k
  }

  /** A set that is no larger in any class is no larger. */
  lemma {:induction false} ClassesDecide(a: set<int>, b: set<int>, keys: seq<Key>)
    requires forall i | i in a || i in b :: 0 <= i < |keys|
    requires forall k :: |Class(b, keys, k)| <= |Class(a, keys, k)|
    ensures |b| <= |a|
    decreases |b|
  {
    if x :| x in b {
      var k := keys[x];
      var ak, bk := Class(a, keys, k), Class(b, keys, k);
      assert x in bk;
      forall l ensures |Class(b - bk, keys, l)| <= |Class(a - ak, keys, l)| {
        if l == k {
          assert Class(b - bk, keys, l) == {};
        } else {
          assert Class(b - bk, keys, l) == Class(b, keys, l);
          assert Class(a - ak, keys, l) == Class(a, keys, l);
        }
      }
      assert |b - bk| == |b| - |bk| && |a - ak| == |a| - |ak|;
      ClassesDecide(a - ak, b - bk, keys);
    } else {
      assert b == {};
    }
  }

  /** In one class, no matching serves more GPUs than the greedy one. */
  lemma GreedyBestInClass(gpus: seq<Gpu>, pmus: seq<Pmu>, m: seq<int>, keys: seq<Key>, k: Key)
    requires Matching(gpus, pmus, m)
    requires |keys| == |gpus| && forall i | 0 <= i < |gpus| :: keys[i] == GpuKey(gpus[i])
    ensures |Class(Matched(m), keys, k)| <= |Class(Matched(Greedy(gpus, pmus)), keys, k)|
  {
    hide Fits, Greedy, GpuKey, PmuKey;
    var g := Greedy(gpus, pmus);
    var a, b := Class(Matched(g), keys, k), Class(Matched(m), keys, k);
    GreedyIsMatching(gpus, pmus);
    if b <= a {
      SubsetSize(b, a);
    } else {
      var x :| x in b && x !in a;
      FitsIsSameKey(gpus[x], pmus[m[x]]);
      var wanted, given := (set i | i in b :: m[i]), (set i | i in a :: g[i]);
      forall j | j in wanted
        ensures j in given
      {
        var i :| i in b && m[i] == j;
        FitsIsSameKey(gpus[i], pmus[j]);
        FitsIsSameKey(gpus[x], pmus[j]);
        GreedyIsMaximal(gpus, pmus, x, j);
        var y :| 0 <= y < x && g[y] == j;
        FitsIsSameKey(gpus[y], pmus[j]);
        assert y in a;
      }
      InjectiveImage(m, b);
      InjectiveImage(g, a);
      SubsetSize(wanted, given);
    }
  }

  /** The address stage matches as many GPUs as any assignment could. */
  lemma GreedyIsMaximum(gpus: seq<Gpu>, pmus: seq<Pmu>, m: seq<int>)
    requires Matching(gpus, pmus, m)
    ensures Matching(gpus, pmus, Greedy(gpus, pmus))
    ensures |Matched(m)| <= |Matched(Greedy(gpus, pmus))|
  {
    hide Fits, Greedy, GpuKey;
    GreedyIsMatching(gpus, pmus);
    var keys := seq(|gpus|, i requires 0 <= i < |gpus| => GpuKey(gpus[i]));
    forall k ensures |Class(Matched(m), keys, k)| <= |Class(Matched(Greedy(gpus, pmus)), keys, k)| {
      GreedyBestInClass(gpus, pmus, m, keys, k);
    }
    ClassesDecide(Matched(Greedy(gpus, pmus)), Matched(m), keys);
  }

  // ----- the fallback

  /**
   The whole mapping keeps every address match, gives no PMU to two GPUs, and adds one GPU exactly
   when one GPU of the PMUs' driver is left and one spare PMU is: that pair.
   */
  lemma MappingIsSound(gpus: seq<Gpu>, pmus: seq<Pmu>, m: seq<int>)
    requires IsMapping(gpus, pmus, m)
    ensures
      var g := Greedy(gpus, pmus);
      && |m| == |gpus| && Injective(m)
      && (forall i | 0 <= i < |m| :: g[i] >= 0 ==> m[i] == g[i])
      && (forall i | 0 <= i < |m| :: m[i] >= 0 && g[i] < 0 <==>
                      OnlyLonely(gpus, pmus, g, i) && exists j :: OnlySpare(pmus, g, j))
      && (forall i | 0 <= i < |m| && m[i] >= 0 ::
            m[i] < |pmus| && (Fits(gpus[i], pmus[m[i]]) || OnlySpare(pmus, g, m[i])))
  {
    hide Fits, Greedy;
    GreedyIsMatching(gpus, pmus);
  }

  /**
   The fallback in plain terms: when exactly one GPU of the first PMU's driver has no PMU by address, and exactly one
   PMU that no GPU has carries no address and is named after that driver, the two are put together; else nothing is
   added.
   */
  lemma FallbackIsExact(gpus: seq<Gpu>, pmus: seq<Pmu>, m: seq<int>)
    requires IsMapping(gpus, pmus, m) && pmus != []
    ensures
      var g, driver := Greedy(gpus, pmus), pmus[0].driver;
      var unserved := set i | 0 <= i < |gpus| && g[i] < 0 && gpus[i].driver == driver;
      var linkless := set j | 0 <= j < |pmus| && j !in g && pmus[j].bdf == "" && pmus[j].name == driver;
      if |unserved| == 1 && |linkless| == 1
      then exists i, j :: i in unserved && j in linkless && m == g[i := j]
      else m == g
  {
    hide Fits, Greedy;
    var g, driver := Greedy(gpus, pmus), pmus[0].driver;
    var unserved := set i | 0 <= i < |gpus| && g[i] < 0 && gpus[i].driver == driver;
    var linkless := set j | 0 <= j < |pmus| && j !in g && pmus[j].bdf == "" && pmus[j].name == driver;
    assert forall i :: i in unserved <==> Lonely(gpus, pmus, g, i);
    assert forall j :: j in linkless <==> Spare(pmus, g, j);
    OnlyOne(unserved);
    OnlyOne(linkless);
    assert forall i :: OnlyLonely(gpus, pmus, g, i) <==> unserved == {i};
    assert forall j :: OnlySpare(pmus, g, j) <==> linkless == {j};
    assert forall i :: unserved == {i} ==> |unserved| == 1;
    assert forall j :: linkless == {j} ==> |linkless| == 1;
  }

  lemma OnlyOne<T>(s: set<T>)
    ensures |s| == 1 ==> exists x :: s == {x}
  {
    if |s| == 1 {
      var x :| x in s;
      assert |s - {x}| == 0;
      assert s == {x};
    }
  }

  /** The mapping is determined: at most one result meets the contract. */
  lemma MappingIsUnique(gpus: seq<Gpu>, pmus: seq<Pmu>, m: seq<int>, n: seq<int>)
    requires IsMapping(gpus, pmus, m) && IsMapping(gpus, pmus, n)
    ensures m == n
  {
    hide Fits, Greedy;
  }
}
