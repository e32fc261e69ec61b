/**
 The baseline that the block, network and CPU samplers keep between samples, and its meaning in terms
 of everything that was sampled: block_linux.go, network_linux.go and cpu_linux.go share this rule.
 */
module DeltaHistory {
  import opened Wrappers

  /** One sample: its instant and the counters of each key that was present. */
  datatype Observation<K, V> = Observation(at: int, seen: map<K, V>)

  datatype Baseline<K, V> = Unset | Set(at: int, kept: map<K, V>)

  function Restrict<K, V>(m: map<K, V>, keys: set<K>): map<K, V> {
    map k | k in m && k in keys :: m[k]
  }

  /** A later sample replaces the baseline; any other only drops the keys it lacks. */
  function Observe<K, V>(b: Baseline<K, V>, o: Observation<K, V>): Baseline<K, V> {
    match b
    case Unset => Set(o.at, o.seen)
    case Set(at, kept) => if o.at > at then Set(o.at, o.seen) else Set(at, Restrict(kept, o.seen.Keys))
  }

  /** The counters a rate at this instant is computed from. */
  function BaseFor<K, V>(b: Baseline<K, V>, k: K, at: int): Option<V> {
    if b.Set? && at > b.at && k in b.kept then Some(b.kept[k]) else None
  }

  function ElapsedSince<K, V>(b: Baseline<K, V>, at: int): int {
    if b.Set? then at - b.at else 0
  }

  // ----- the baseline against the full history

  function Kept<K, V>(h: seq<Observation<K, V>>): Baseline<K, V> {
    if h == [] then Unset else Observe(Kept(h[..|h| - 1]), h[|h| - 1])
  }

  /** The earliest of the latest samples: later than all before it, no earlier than any after it. */
  ghost predicate IsLatest<K, V>(h: seq<Observation<K, V>>, j: int) {
    && 0 <= j < |h|
    && (forall i | 0 <= i < j :: h[i].at < h[j].at)
    && (forall i | j < i < |h| :: h[i].at <= h[j].at)
  }

  /** The key was present in every sample from j on. */
  ghost predicate PresentSince<K, V>(h: seq<Observation<K, V>>, j: int, k: K) {
    forall i | 0 <= j <= i < |h| :: k in h[i].seen
  }

  lemma {:induction false} LatestExists<K, V>(h: seq<Observation<K, V>>)
    requires h != []
    ensures exists j :: IsLatest(h, j)
  {
    var n := |h| - 1;
    if n == 0 {
      assert IsLatest(h, 0);
    } else {
      LatestExists(h[..n]);
      var j :| IsLatest(h[..n], j);
      if h[n].at > h[j].at {
        assert forall i | 0 <= i < n :: h[..n][i].at <= h[..n][j].at;
        assert IsLatest(h, n);
      } else {
        assert IsLatest(h, j);
      }
    }
  }

  /**
   After any run, the baseline is the latest sample, restricted to the keys that were present in every
   sample since.
   */
  lemma {:induction false} BaselineIsLatest<K(!new), V>(h: seq<Observation<K, V>>, j: int)
    requires IsLatest(h, j)
    ensures
      var b := Kept(h);
      && b.Set? && b.at == h[j].at
      && (forall k :: k in b.kept <==> PresentSince(h, j, k))
      && (forall k :: k in b.kept ==> b.kept[k] == h[j].seen[k])
  {
    var n := |h| - 1;
    if j == n {
      if n > 0 {
        LatestExists(h[..n]);
        var i :| IsLatest(h[..n], i);
        BaselineIsLatest(h[..n], i);
      }
    } else {
      BaselineIsLatest(h[..n], j);
      forall k
        ensures PresentSince(h, j, k) <==> PresentSince(h[..n], j, k) && k in h[n].seen
      {
        if PresentSince(h, j, k) {
          assert forall i | j <= i < n :: h[..n][i] == h[i];
        }
        if PresentSince(h[..n], j, k) && k in h[n].seen {
          assert forall i | j <= i < n :: h[..n][i] == h[i];
        }
      }
    }
  }

  /**
   A sample computes a rate for a key from the latest earlier sample, and only when it is itself later
   and the key was present in every sample from that one on. A key that was absent from the sample
   just before, accepted or not, has no rate.
   */
  lemma RateBase<K(!new), V>(h: seq<Observation<K, V>>, j: int, k: K, at: int)
    requires IsLatest(h, j)
    ensures BaseFor(Kept(h), k, at) ==
            if at > h[j].at && PresentSince(h, j, k) then Some(h[j].seen[k]) else None
    ensures k !in h[|h| - 1].seen ==> BaseFor(Kept(h), k, at) == None
  {
    BaselineIsLatest(h, j);
  }

  // ----- conservation

  /** What one more sample adds to a field through a rate, when `ok` admits the two counters. */
  function Gain<K, V>(b: Baseline<K, V>, o: Observation<K, V>, k: K, field: V -> int, ok: (V, V) -> bool): int {
    var base := BaseFor(b, k, o.at);
    if base.Some? && k in o.seen && ok(base.value, o.seen[k]) then field(o.seen[k]) - field(base.value) else 0
  }

  /** The interval was accepted but gave no rate, because a counter went backwards. */
  predicate Loses<K, V>(b: Baseline<K, V>, o: Observation<K, V>, k: K, ok: (V, V) -> bool) {
    var base := BaseFor(b, k, o.at);
    base.Some? && k in o.seen && !ok(base.value, o.seen[k])
  }

  function Gained<K, V>(h: seq<Observation<K, V>>, k: K, field: V -> int, ok: (V, V) -> bool): int {
    if h == [] then 0
    else
      var n := |h| - 1;
      Gained(h[..n], k, field, ok) + Gain(Kept(h[..n]), h[n], k, field, ok)
  }

  /** What the intervals without a rate would have added. */
  function Lost<K, V>(h: seq<Observation<K, V>>, k: K, field: V -> int, ok: (V, V) -> bool): int {
    if h == [] then 0
    else
      var n := |h| - 1;
      var b := Kept(h[..n]);
      Lost(h[..n], k, field, ok) + if Loses(b, h[n], k, ok) then field(h[n].seen[k]) - field(b.kept[k]) else 0
  }

  function LostIntervals<K, V>(h: seq<Observation<K, V>>, k: K, ok: (V, V) -> bool): nat {
    if h == [] then 0
    else
      var n := |h| - 1;
      LostIntervals(h[..n], k, ok) + if Loses(Kept(h[..n]), h[n], k, ok) then 1 else 0
  }

  lemma {:induction false} GainsAddUp<K(!new), V>(h: seq<Observation<K, V>>, k: K, field: V -> int, ok: (V, V) -> bool)
    requires h != [] && PresentSince(h, 0, k)
    ensures Kept(h).Set? && k in Kept(h).kept
    ensures Gained(h, k, field, ok) + Lost(h, k, field, ok) == field(Kept(h).kept[k]) - field(h[0].seen[k])
  {
    var n := |h| - 1;
    assert k in h[n].seen;
    if n > 0 {
      assert forall i | 0 <= i < n :: h[..n][i] == h[i];
      GainsAddUp(h[..n], k, field, ok);
    } else {
      assert h[..n] == [];
    }
  }

  /**
   Rates conserve counts: for a key present in every sample, what all the rates account for, plus what
   the intervals with a regressed counter would have, is the latest counter minus the first, however
   many stalled or backwards samples lie between.
   */
  lemma RatesConserveCounts<K(!new), V>(h: seq<Observation<K, V>>, j: int, k: K, field: V -> int, ok: (V, V) -> bool)
    requires IsLatest(h, j) && PresentSince(h, 0, k)
    ensures k in h[j].seen && k in h[0].seen
    ensures Gained(h, k, field, ok) + Lost(h, k, field, ok) == field(h[j].seen[k]) - field(h[0].seen[k])
  {
    GainsAddUp(h, k, field, ok);
    BaselineIsLatest(h, j);
  }

  /** Counters that were reset at most once, in sample r: any two samples on one side are in order. */
  ghost predicate OneReset<K, V>(h: seq<Observation<K, V>>, k: K, ok: (V, V) -> bool, r: nat) {
    && PresentSince(h, 0, k)
    && forall i, j | 0 <= i < j < |h| && (j < r || r <= i) ::
         k in h[i].seen && k in h[j].seen && ok(h[i].seen[k], h[j].seen[k])
  }

  /** One more sample becomes the latest or leaves the latest where it was. */
  lemma LatestNext<K, V>(h: seq<Observation<K, V>>, i: int, j: int)
    requires |h| > 1 && IsLatest(h[..|h| - 1], i) && IsLatest(h, j)
    ensures j == if h[|h| - 1].at > h[i].at then |h| - 1 else i
  {
    var g := h[..|h| - 1];
    assert forall l | 0 <= l < |g| :: g[l] == h[l];
  }

  /** An interval is lost only from one side of the reset to the other. */
  lemma LossSpansReset<K(!new), V>(h: seq<Observation<K, V>>, i: int, k: K, ok: (V, V) -> bool, r: nat)
    requires |h| > 1 && IsLatest(h[..|h| - 1], i) && OneReset(h, k, ok, r)
    requires Loses(Kept(h[..|h| - 1]), h[|h| - 1], k, ok)
    ensures i < r <= |h| - 1 && h[|h| - 1].at > h[i].at
  {
    hide Kept;
    BaselineIsLatest(h[..|h| - 1], i);
    assert h[..|h| - 1][i] == h[i];
  }

  /** A reset costs at most one interval, and without one nothing is lost. */
  lemma {:induction false} ResetLosesOneInterval<K(!new), V>(h: seq<Observation<K, V>>, j: int, k: K,
                                                             ok: (V, V) -> bool, r: nat)
    requires IsLatest(h, j) && OneReset(h, k, ok, r)
    ensures LostIntervals(h, k, ok) <= if 0 < r <= j then 1 else 0
  {
    var n := |h| - 1;
    var g := h[..n];
    if n == 0 {
      assert g == [];
    } else {
      LatestExists(g);
      var i :| IsLatest(g, i);
      assert OneReset(g, k, ok, r) by {
        assert forall l | 0 <= l < n :: g[l] == h[l];
      }
      ResetLosesOneInterval(g, i, k, ok, r);
      LatestNext(h, i, j);
      hide Kept, IsLatest, OneReset, Loses;
      if Loses(Kept(g), h[n], k, ok) {
        LossSpansReset(h, i, k, ok, r);
      }
    }
  }

  /** Sample n is the first accepted one at or after r, and i was the latest before r. */
  ghost predicate Crosses<K, V>(h: seq<Observation<K, V>>, r: nat, i: int, n: int) {
    && 0 < r <= n < |h| && IsLatest(h[..r], i)
    && h[n].at > h[i].at && forall l | r <= l < n :: h[l].at <= h[i].at
  }

  lemma LatestUntilCrossing<K, V>(h: seq<Observation<K, V>>, r: nat, i: int, n: int)
    requires Crosses(h, r, i, n)
    ensures IsLatest(h[..n], i)
  {
    assert forall l | 0 <= l < r :: h[..r][l] == h[l];
    assert forall l | 0 <= l < n :: h[..n][l] == h[l];
  }

  lemma LatestAfterCrossing<K, V>(h: seq<Observation<K, V>>, r: nat, i: int, n: int, m: nat, j: int)
    requires Crosses(h, r, i, n) && n < m <= |h| && IsLatest(h[..m], j)
    ensures j >= r
  {
    assert forall l | 0 <= l < r :: h[..r][l] == h[l];
    assert forall l | 0 <= l < m :: h[..m][l] == h[l];
  }

  /**
   A reset in sample r costs exactly one interval, the one from the latest sample before it to the first
   accepted one after it, when some counter shows it by having gone back there; else it costs none.
   */
  lemma {:induction false} ResetLosesExactly<K(!new), V>(h: seq<Observation<K, V>>, k: K, ok: (V, V) -> bool, r: nat,
                                                         i: int, n: int)
    requires OneReset(h, k, ok, r) && Crosses(h, r, i, n)
    ensures k in h[i].seen && k in h[n].seen
    ensures LostIntervals(h, k, ok) == if ok(h[i].seen[k], h[n].seen[k]) then 0 else 1
    decreases |h|
  {
    var m := |h| - 1;
    var g := h[..m];
    assert forall l | 0 <= l < m :: g[l] == h[l];
    assert OneReset(g, k, ok, r);
    if m == n {
      LatestUntilCrossing(h, r, i, n);
      ResetLosesOneInterval(g, i, k, ok, r);
      BaselineIsLatest(g, i);
    } else {
      assert g[..r] == h[..r];
      ResetLosesExactly(g, k, ok, r, i, n);
      LatestExists(g);
      var j :| IsLatest(g, j);
      LatestAfterCrossing(h, r, i, n, m, j);
      hide Kept, IsLatest, Crosses, Loses;
      if Loses(Kept(g), h[m], k, ok) {
        LossSpansReset(h, j, k, ok, r);
      }
    }
  }

  lemma {:induction false} NoLostIntervalNoLoss<K, V>(h: seq<Observation<K, V>>, k: K, field: V -> int,
                                                      ok: (V, V) -> bool)
    requires LostIntervals(h, k, ok) == 0
    ensures Lost(h, k, field, ok) == 0
  {
    if h != [] {
      NoLostIntervalNoLoss(h[..|h| - 1], k, field, ok);
    }
  }
}
