/**
 The covering window: whatever the scheduler does between the reads of a walk, every process with a
 baseline gets a share, and the shares of one snapshot add up to at most the whole.
 */
module ProcessWindow {
  import opened Folds
  import opened Quotients
  import opened ProcessSampler

  /** The kernel's counters over time. */
  datatype Kernel = Kernel(total: nat -> nat, ticks: (Identity, nat) -> nat)

  /** How many ticks each process gains from one instant to another. */
  ghost function Growth(k: Kernel, from: nat, to: nat): Identity -> nat {
    id => if k.ticks(id, to) >= k.ticks(id, from) then k.ticks(id, to) - k.ticks(id, from) else 0
  }

  ghost predicate Monotone(k: Kernel) {
    forall id, s, t | s <= t :: k.ticks(id, s) <= k.ticks(id, t)
  }

  /** Ticks never decrease, and together processes gain no more than the aggregate does. */
  ghost predicate Sound(k: Kernel) {
    && Monotone(k)
    && forall ids, s, t | s <= t :: k.total(s) + SumOver(ids, Growth(k, s, t)) <= k.total(t)
  }

  /**
   One call of Sample in time: when the aggregate is read, when each process is read, when the aggregate
   is read again; incomplete when some step fails.
   */
  datatype Walk = Walk(before: nat, visits: seq<(Identity, nat)>, after: nat, complete: bool)

  /** The process reads fall between the two aggregate reads, and no process is read twice. */
  ghost predicate Proper(w: Walk) {
    && w.before <= w.after
    && (forall i | 0 <= i < |w.visits| :: w.before <= w.visits[i].1 <= w.after)
    && (forall i, j | 0 <= i < j < |w.visits| :: w.visits[i].0 != w.visits[j].0)
  }

  function Readings(k: Kernel, w: Walk): seq<Reading> {
    seq(|w.visits|, i requires 0 <= i < |w.visits| => Reading(w.visits[i].0, k.ticks(w.visits[i].0, w.visits[i].1)))
  }

  /** The baseline the sampler keeps: that of the last walk that completed. */
  function Kept(k: Kernel, b: Baseline, w: Walk): Baseline {
    if w.complete then Baseline(k.total(w.before), Current(Readings(k, w))) else b
  }

  function KeptAfter(k: Kernel, walks: seq<Walk>): Baseline {
    if walks == [] then NoBaseline else Kept(k, KeptAfter(k, walks[..|walks| - 1]), walks[|walks| - 1])
  }

  /** Walks one after another. */
  ghost predicate InSequence(walks: seq<Walk>) {
    && (forall i | 0 <= i < |walks| :: Proper(walks[i]))
    && (forall i | 0 < i < |walks| :: walks[i - 1].after <= walks[i].before)
  }

  function End(walks: seq<Walk>): nat {
    if walks == [] then 0 else walks[|walks| - 1].after
  }

  /** The baseline's total was read at some instant, and each of its processes between then and now. */
  ghost predicate Covers(k: Kernel, b: Baseline, from: nat, now: nat) {
    b.Baseline? ==>
      && from <= now && b.total == k.total(from)
      && forall id | id in b.ticks :: k.ticks(id, from) <= b.ticks[id] <= k.ticks(id, now)
  }

  lemma {:induction false} CurrentHolds(readings: seq<Reading>, id: Identity)
    ensures id in Current(readings) ==> Reading(id, Current(readings)[id]) in readings
    ensures id in Current(readings) <==> exists i | 0 <= i < |readings| :: readings[i].id == id
  {
    if readings != [] {
      var n := |readings| - 1;
      CurrentHolds(readings[..n], id);
      assert readings == readings[..n] + [readings[n]];
    }
  }

  lemma WalkCovers(k: Kernel, w: Walk)
    requires Monotone(k) && Proper(w)
    ensures Covers(k, Baseline(k.total(w.before), Current(Readings(k, w))), w.before, w.after)
  {
    hide Current;
    var rs := Readings(k, w);
    forall id | id in Current(rs)
      ensures k.ticks(id, w.before) <= Current(rs)[id] <= k.ticks(id, w.after)
    {
      CurrentHolds(rs, id);
    }
  }

  /** Over any sequence of walks, complete or not, the kept baseline covers. */
  lemma {:induction false} RunCovers(k: Kernel, walks: seq<Walk>)
    requires Monotone(k) && InSequence(walks)
    ensures exists from :: Covers(k, KeptAfter(k, walks), from, End(walks))
  {
    if walks == [] {
      assert Covers(k, KeptAfter(k, walks), 0, End(walks));
    } else {
      var n := |walks| - 1;
      var w := walks[n];
      var before := KeptAfter(k, walks[..n]);
      if w.complete {
        WalkCovers(k, w);
        assert Covers(k, KeptAfter(k, walks), w.before, End(walks));
      } else {
        RunCovers(k, walks[..n]);
        var from :| Covers(k, before, from, End(walks[..n]));
        assert End(walks[..n]) <= End(walks);
        assert KeptAfter(k, walks) == before;
        assert Covers(k, KeptAfter(k, walks), from, End(walks));
      }
    }
  }

  /** The shares of a snapshot, those without one counted as nothing. */
  function TotalShare(b: Baseline, current: map<Identity, nat>, ids: seq<Identity>, totalAfter: nat): real {
    if ids == [] then 0.0
    else
      TotalShare(b, current, ids[..|ids| - 1], totalAfter) + ShareOf(b, current, ids[|ids| - 1], totalAfter)
  }

  function Members(ids: seq<Identity>): set<Identity> {
    set id | id in ids
  }

  function ShareOf(b: Baseline, current: map<Identity, nat>, id: Identity, totalAfter: nat): real {
    var share := Fraction(b, current, id, totalAfter);
    if share.Some? then share.value else 0.0
  }

  lemma ShareAtMostGrowth(b: Baseline, current: map<Identity, nat>, id: Identity, totalAfter: nat, growth: nat)
    requires b.Baseline? && totalAfter > b.total
    requires id in current && id in b.ticks ==> current[id] <= b.ticks[id] + growth
    ensures Times(ShareOf(b, current, id, totalAfter), (totalAfter - b.total) as real) <= growth as real
  {
    if Fraction(b, current, id, totalAfter).Some? {
      var delta, window := (current[id] - b.ticks[id]) as real, (totalAfter - b.total) as real;
      assert delta / window * window == delta;
    }
  }

  lemma {:induction false} SharesAddUp(k: Kernel, b: Baseline, current: map<Identity, nat>, ids: seq<Identity>,
                                       from: nat, to: nat)
    requires Monotone(k) && from <= to && b.Baseline? && k.total(to) > b.total
    requires forall i, j | 0 <= i < j < |ids| :: ids[i] != ids[j]
    requires forall id | id in current && id in b.ticks ::
      k.ticks(id, from) <= b.ticks[id] && current[id] <= k.ticks(id, to)
    ensures Times(TotalShare(b, current, ids, k.total(to)), (k.total(to) - b.total) as real)
            <= SumOver(Members(ids), Growth(k, from, to)) as real
  {
    hide ShareOf, SumOver, Times;
    var growth, window := Growth(k, from, to), (k.total(to) - b.total) as real;
    if ids == [] {
      TimesZero(window);
    } else {
      var n := |ids| - 1;
      var id, before := ids[n], ids[..n];
      SharesAddUp(k, b, current, before, from, to);
      assert growth(id) == k.ticks(id, to) - k.ticks(id, from);
      ShareAtMostGrowth(b, current, id, k.total(to), growth(id));
      MembersNext(ids, growth);
      Distribute(TotalShare(b, current, before, k.total(to)), ShareOf(b, current, id, k.total(to)), window);
    }
  }

  lemma MembersNext(ids: seq<Identity>, f: Identity -> nat)
    requires ids != [] && forall i, j | 0 <= i < j < |ids| :: ids[i] != ids[j]
    ensures SumOver(Members(ids), f)
            == SumOver(Members(ids[..|ids| - 1]), f) + f(ids[|ids| - 1])
  {
    var n := |ids| - 1;
    var rest := Members(ids[..n]);
    assert Members(ids) == rest + {ids[n]} by {
      assert ids == ids[..n] + [ids[n]];
    }
    SumAdd(rest, f, ids[n]);
  }

  lemma AboveWhole(share: real, window: real)
    requires window > 0.0 && share > 1.0
    ensures Times(share, window) > window
  {}

  /**
   The covering-window theorem. After any sequence of walks, complete or failed at any step, take one
   more complete walk over a sound kernel, its reads at any instants between its two aggregate reads.
   If the aggregate advanced, every process that has a baseline gets a share, and the shares add up to
   at most 1.
   */
  lemma CoveringWindow(k: Kernel, walks: seq<Walk>, w: Walk)
    requires Sound(k) && InSequence(walks + [w]) && w.complete
    ensures
      var b, current := KeptAfter(k, walks), Current(Readings(k, w));
      var ids := seq(|w.visits|, i requires 0 <= i < |w.visits| => w.visits[i].0);
      && (forall id | id in ids && b.Baseline? && k.total(w.after) > b.total ::
            Fraction(b, current, id, k.total(w.after)).Some? <==> id in b.ticks)
      && TotalShare(b, current, ids, k.total(w.after)) <= 1.0
  {
    hide Current, KeptAfter, SumOver, TotalShare, Fraction;
    var b, rs := KeptAfter(k, walks), Readings(k, w);
    var current, to := Current(rs), w.after;
    var ids := seq(|w.visits|, i requires 0 <= i < |w.visits| => w.visits[i].0);
    Sequenced(walks, w);
    RunCovers(k, walks);
    var from :| Covers(k, b, from, End(walks));
    if b.Baseline? && k.total(to) > b.total {
      WalkCovers(k, w);
      forall id | id in current && id in b.ticks
        ensures k.ticks(id, from) <= b.ticks[id] <= current[id] <= k.ticks(id, to)
      {
        assert k.ticks(id, End(walks)) <= k.ticks(id, w.before);
      }
      forall id | id in ids
        ensures Fraction(b, current, id, k.total(to)).Some? <==> id in b.ticks
      {
        ReadHasShare(k, b, w, id, from);
      }
      SharesAtMostWhole(k, b, current, ids, from, to);
    } else {
      NoShares(b, current, ids, k.total(to));
    }
  }

  lemma SharesAtMostWhole(k: Kernel, b: Baseline, current: map<Identity, nat>, ids: seq<Identity>, from: nat, to: nat)
    requires Sound(k) && from <= to && b.Baseline? && k.total(to) > b.total && b.total == k.total(from)
    requires forall i, j | 0 <= i < j < |ids| :: ids[i] != ids[j]
    requires forall id | id in current && id in b.ticks ::
      k.ticks(id, from) <= b.ticks[id] && current[id] <= k.ticks(id, to)
    ensures TotalShare(b, current, ids, k.total(to)) <= 1.0
  {
    assert k.total(from) + SumOver(Members(ids), Growth(k, from, to)) <= k.total(to);
    hide TotalShare, SumOver, Growth, Times;
    SharesAddUp(k, b, current, ids, from, to);
    if TotalShare(b, current, ids, k.total(to)) > 1.0 {
      AboveWhole(TotalShare(b, current, ids, k.total(to)), (k.total(to) - b.total) as real);
    }
  }

  /** A process read in the closing walk has a share exactly when it has a baseline. */
  lemma ReadHasShare(k: Kernel, b: Baseline, w: Walk, id: Identity, from: nat)
    requires Sound(k) && b.Baseline? && k.total(w.after) > b.total && b.total == k.total(from) && from <= w.after
    requires exists i | 0 <= i < |w.visits| :: w.visits[i].0 == id
    requires var current := Current(Readings(k, w));
             id in current && id in b.ticks ==> k.ticks(id, from) <= b.ticks[id] <= current[id] <= k.ticks(id, w.after)
    ensures Fraction(b, Current(Readings(k, w)), id, k.total(w.after)).Some? <==> id in b.ticks
  {
    hide Current, SumOver;
    var i :| 0 <= i < |w.visits| && w.visits[i].0 == id;
    CurrentHolds(Readings(k, w), id);
    assert Readings(k, w)[i].id == id;
    SumOne(id, Growth(k, from, w.after));
    assert k.total(from) + SumOver({id}, Growth(k, from, w.after)) <= k.total(w.after);
  }

  lemma Sequenced(walks: seq<Walk>, w: Walk)
    requires InSequence(walks + [w])
    ensures InSequence(walks) && Proper(w) && End(walks) <= w.before
  {
    assert (walks + [w])[|walks|] == w;
    assert forall i | 0 <= i < |walks| :: (walks + [w])[i] == walks[i];
  }

  lemma SumOne(id: Identity, f: Identity -> nat)
    ensures SumOver({id}, f) == f(id)
  {
    SumSplit({id}, f, id);
    assert {id} - {id} == {};
  }

  lemma {:induction false} NoShares(b: Baseline, current: map<Identity, nat>, ids: seq<Identity>, totalAfter: nat)
    requires b.NoBaseline? || totalAfter <= b.total
    ensures TotalShare(b, current, ids, totalAfter) == 0.0
  {
    if ids != [] {
      NoShares(b, current, ids[..|ids| - 1], totalAfter);
    }
  }

  // ----- what a share is, in the kernel's own counters

  /** Walk c completed, and none after it did. */
  predicate IsLastComplete(walks: seq<Walk>, c: int) {
    0 <= c < |walks| && walks[c].complete && forall d | c < d < |walks| :: !walks[d].complete
  }

  lemma {:induction false} KeptIsLastComplete(k: Kernel, walks: seq<Walk>, c: int)
    requires IsLastComplete(walks, c)
    ensures KeptAfter(k, walks) == Baseline(k.total(walks[c].before), Current(Readings(k, walks[c])))
  {
    var n := |walks| - 1;
    if c < n {
      KeptIsLastComplete(k, walks[..n], c);
    }
  }

  lemma {:induction false} NothingKept(k: Kernel, walks: seq<Walk>)
    requires forall d | 0 <= d < |walks| :: !walks[d].complete
    ensures KeptAfter(k, walks) == NoBaseline
  {
    if walks != [] {
      NothingKept(k, walks[..|walks| - 1]);
    }
  }

  /** The ticks kept of a process are those its visit found. */
  lemma VisitIsKept(k: Kernel, w: Walk, i: nat)
    requires Proper(w) && i < |w.visits|
    ensures
      var (id, at) := w.visits[i];
      id in Current(Readings(k, w)) && Current(Readings(k, w))[id] == k.ticks(id, at)
  {
    hide Current;
    var rs := Readings(k, w);
    var (id, at) := w.visits[i];
    CurrentHolds(rs, id);
    assert rs[i].id == id;
    var j :| 0 <= j < |rs| && rs[j] == Reading(id, Current(rs)[id]);
    assert w.visits[j].0 == id;
  }

  lemma NotVisitedNotKept(k: Kernel, w: Walk, id: Identity)
    requires forall i | 0 <= i < |w.visits| :: w.visits[i].0 != id
    ensures id !in Current(Readings(k, w))
  {
    hide Current;
    CurrentHolds(Readings(k, w), id);
  }

  /**
   After any walks, complete or failed, a process that the last complete walk c visited and that w visits has
   the share (ticks at this visit - ticks at that visit) / (total closing w - total opening c), whenever the
   total advanced between the two; and one that c did not visit, or with no complete walk, has none.
   */
  lemma ShareIsExact(k: Kernel, walks: seq<Walk>, w: Walk, c: int, j: nat)
    requires Sound(k) && InSequence(walks + [w]) && j < |w.visits|
    requires IsLastComplete(walks, c)
    ensures
      var (id, now) := w.visits[j];
      var window := k.total(w.after) - k.total(walks[c].before);
      var share := Fraction(KeptAfter(k, walks), Current(Readings(k, w)), id, k.total(w.after));
      && (share.Some? <==> window > 0 && exists i | 0 <= i < |walks[c].visits| :: walks[c].visits[i].0 == id)
      && (share.Some? ==> forall i | 0 <= i < |walks[c].visits| && walks[c].visits[i].0 == id ::
            share.value * window as real == (k.ticks(id, now) - k.ticks(id, walks[c].visits[i].1)) as real)
  {
    hide Current, SumOver, KeptAfter;
    var (id, now) := w.visits[j];
    Sequenced(walks, w);
    KeptIsLastComplete(k, walks, c);
    EarlierEnds(walks, w, c);
    VisitIsKept(k, w, j);
    if exists i | 0 <= i < |walks[c].visits| :: walks[c].visits[i].0 == id {
      forall i | 0 <= i < |walks[c].visits| && walks[c].visits[i].0 == id
        ensures
          var b := KeptAfter(k, walks);
          && id in b.ticks && b.ticks[id] == k.ticks(id, walks[c].visits[i].1)
          && (k.total(w.after) > b.total ==>
                0 <= k.ticks(id, now) - b.ticks[id] <= k.total(w.after) - b.total)
      {
        VisitIsKept(k, walks[c], i);
        OneGrows(k, id, walks[c].before, walks[c].visits[i].1, now, w.after);
      }
      if k.total(w.after) > k.total(walks[c].before) {
        DivideThenMultiply((k.ticks(id, now) - KeptAfter(k, walks).ticks[id]) as real,
                           (k.total(w.after) - k.total(walks[c].before)) as real);
      }
    } else {
      NotVisitedNotKept(k, walks[c], id);
    }
  }

  /** Before the first complete walk nothing has a share. */
  lemma NoShareYet(k: Kernel, walks: seq<Walk>, current: map<Identity, nat>, id: Identity, totalAfter: nat)
    requires forall d | 0 <= d < |walks| :: !walks[d].complete
    ensures Fraction(KeptAfter(k, walks), current, id, totalAfter).None?
  {
    NothingKept(k, walks);
  }

  /** A process gains no more than the aggregate does over any longer time. */
  lemma OneGrows(k: Kernel, id: Identity, from: nat, s: nat, t: nat, to: nat)
    requires Sound(k) && from <= s <= t <= to
    ensures 0 <= k.ticks(id, t) - k.ticks(id, s) <= k.total(to) - k.total(from)
  {
    hide SumOver;
    assert k.ticks(id, from) <= k.ticks(id, s) <= k.ticks(id, t) <= k.ticks(id, to);
    SumOne(id, Growth(k, from, to));
    assert k.total(from) + SumOver({id}, Growth(k, from, to)) <= k.total(to);
  }

  lemma {:induction false} EarlierEnds(walks: seq<Walk>, w: Walk, c: int)
    requires InSequence(walks + [w]) && 0 <= c < |walks|
    ensures Proper(walks[c]) && walks[c].after <= w.before
    decreases |walks| - c
  {
    var all := walks + [w];
    assert all[c] == walks[c] && all[c + 1].before >= walks[c].after;
    if c < |walks| - 1 {
      EarlierEnds(walks, w, c + 1);
      assert all[c + 1] == walks[c + 1];
    }
  }
}
