/**
 When GPUSampler walks /proc for fdinfo (applyFDInfo in gpu_fdinfo_linux.go): only while some GPU lacks
 usage, and rarely once three walks in a row found nothing.
 */
module FdinfoWalk {
  import opened Wrappers
  import opened Fdinfo

  const MAX_EMPTY_WALKS: nat := 3
  const RETRY_EVERY: nat := 30

  type Address = string

  // ----- the back-off automaton

  datatype Walker = Walker(empty: nat, idle: nat, walks: nat)

  /** One sample: no GPU lacks usage, or some do and a walk would or would not find data for one of them. */
  datatype Need = Covered | Lacking(data: bool)

  datatype Effect = Effect(walker: Walker, walked: bool, gaveUp: bool)

  function Decide(w: Walker, need: Need): Effect {
    match need
    case Covered => Effect(w.(empty := 0, idle := 0), false, false)
    case Lacking(data) =>
      if w.empty >= MAX_EMPTY_WALKS && w.idle + 1 < RETRY_EVERY then Effect(w.(idle := w.idle + 1), false, false)
      else
        var empty := if data then 0 else w.empty + 1;
        var idle := if w.empty >= MAX_EMPTY_WALKS then 0 else w.idle;
        Effect(Walker(empty, idle, w.walks + 1), true, empty == MAX_EMPTY_WALKS)
  }

  // ----- the sampler

  class FdinfoSampler {
    var fdPrev: map<Address, Clients>
    var fdPrevAt: int
    var fdHasPrev: bool
    var fdEmpty: nat
    var fdIdle: nat
    var fdWalks: nat

    function Walking(): Walker
      reads this
    {
      Walker(fdEmpty, fdIdle, fdWalks)
    }

    constructor ()
      ensures Walking() == Walker(0, 0, 0) && !fdHasPrev
    {
      fdPrev, fdPrevAt, fdHasPrev, fdEmpty, fdIdle, fdWalks := map[], 0, false, 0, 0, 0;
    }

    /**
     Fills usage for the GPUs that lack it. A walk would find clients, at readAt; usage compares them
     with those of the walk before, over the time between the two walks.
     */
    method ApplyFDInfo(missing: seq<Address>, clients: map<Address, Clients>, readAt: int)
      returns (usages: seq<Option<real>>, gaveUp: bool)
      modifies this
      ensures Walking() == Decision(old(Walking()), missing, clients).walker
      ensures gaveUp == Decision(old(Walking()), missing, clients).gaveUp
      ensures if missing == [] then !fdHasPrev
              else if Decision(old(Walking()), missing, clients).walked
              then fdHasPrev && fdPrev == clients && fdPrevAt == readAt
              else fdHasPrev == old(fdHasPrev) && fdPrev == old(fdPrev) && fdPrevAt == old(fdPrevAt)
      ensures |usages| == |missing|
      ensures forall i | 0 <= i < |missing| ::
                if Decision(old(Walking()), missing, clients).walked && old(fdHasPrev)
                then IsUsage(ClientsOf(old(fdPrev), missing[i]), ClientsOf(clients, missing[i]),
                             readAt - old(fdPrevAt), usages[i])
                else usages[i] == None
    {
      hide IsUsage;
      usages, gaveUp := seq(|missing|, _ => None), false;
      if |missing| == 0 {
        fdPrev, fdHasPrev, fdEmpty, fdIdle := map[], false, 0, 0;
        return;
      }
      if fdEmpty >= MAX_EMPTY_WALKS {
        fdIdle := fdIdle + 1;
        if fdIdle < RETRY_EVERY {
          return;
        }
        fdIdle := 0;
      }
      fdWalks := fdWalks + 1;
      var anyData := false;
      for i := 0 to |missing|
        invariant anyData ==> AnyData(missing, clients)
        invariant !anyData ==> forall k | 0 <= k < i :: ClientsOf(clients, missing[k]) == map[]
      {
        if ClientsOf(clients, missing[i]) != map[] {
          anyData := true;
        }
      }
      if anyData {
        fdEmpty := 0;
      } else {
        fdEmpty := fdEmpty + 1;
        gaveUp := fdEmpty == MAX_EMPTY_WALKS;
      }
      if fdHasPrev {
        var elapsed := readAt - fdPrevAt;
        label Filling:
        for i := 0 to |missing|
          invariant |usages| == |missing| && unchanged@Filling(this)
          invariant forall k | 0 <= k < i ::
            IsUsage(ClientsOf(fdPrev, missing[k]), ClientsOf(clients, missing[k]), elapsed, usages[k])
        {
          var usage := FdinfoBusy(ClientsOf(fdPrev, missing[i]), ClientsOf(clients, missing[i]), elapsed);
          usages := usages[i := usage];
        }
      }
      fdPrev, fdPrevAt, fdHasPrev := clients, readAt, true;
    }
  }

  /** What the automaton does in a sample with these GPUs lacking usage. */
  function Decision(w: Walker, missing: seq<Address>, clients: map<Address, Clients>): Effect {
    Decide(w, if missing == [] then Covered else Lacking(AnyData(missing, clients)))
  }

  /** The walk finds engine data for some GPU that lacks usage. */
  predicate AnyData(missing: seq<Address>, clients: map<Address, Clients>) {
    exists i | 0 <= i < |missing| :: ClientsOf(clients, missing[i]) != map[]
  }

  function ClientsOf(m: map<Address, Clients>, bdf: Address): Clients {
    if bdf in m then m[bdf] else map[]
  }

  /** A walk finds data when some GPU that lacks usage has a client with counters. */
  lemma DecisionIsByData(w: Walker, missing: seq<Address>, clients: map<Address, Clients>)
    ensures missing == [] ==> Decision(w, missing, clients) == Decide(w, Covered)
    ensures missing != [] ==>
              var data := exists i | 0 <= i < |missing| :: missing[i] in clients && clients[missing[i]] != map[];
              Decision(w, missing, clients) == Decide(w, Lacking(data))
  {
    hide Decide;
  }

  // ----- whole runs

  function After(w: Walker, needs: seq<Need>): Walker {
    if needs == [] then w else Decide(After(w, needs[..|needs| - 1]), needs[|needs| - 1]).walker
  }

  /** How often the sampler reported that it gave up. */
  function Reports(w: Walker, needs: seq<Need>): nat {
    if needs == [] then 0
    else
      var n := |needs| - 1;
      Reports(w, needs[..n]) + if Decide(After(w, needs[..n]), needs[n]).gaveUp then 1 else 0
  }

  /** In every reachable state, samples are skipped only after the walk gave up, and fewer than 30. */
  ghost predicate Consistent(w: Walker) {
    (w.empty < 3 ==> w.idle == 0) && w.idle < 30
  }

  lemma {:induction false} RunsAreConsistent(w: Walker, needs: seq<Need>)
    requires Consistent(w)
    ensures Consistent(After(w, needs))
  {
    if needs != [] {
      RunsAreConsistent(w, needs[..|needs| - 1]);
    }
  }

  /** A walk counts as one; giving up is reported with the third empty walk in a row, and only then. */
  lemma EffectOfSample(w: Walker, need: Need)
    requires Consistent(w)
    ensures
      var e := Decide(w, need);
      && e.walker.walks == w.walks + (if e.walked then 1 else 0)
      && (e.gaveUp <==> need == Lacking(false) && w.empty == 2)
      && (e.walked <==> need.Lacking? && (w.empty < 3 || w.idle == 29))
      && (need == Covered ==> e.walker.empty == 0 && e.walker.idle == 0)
  {}

  function Min(a: nat, b: nat): nat {
    if a < b then a else b
  }

  /** The walks a streak of n samples without data costs: three, then one in thirty. */
  function Budget(n: nat): nat {
    Min(n, 3) + (n - Min(n, 3)) / 30
  }

  /**
   From a fresh streak, n samples that lack usage and find nothing make exactly Budget(n) walks, and
   report giving up once, with the third.
   */
  lemma {:induction false} StreakBudget(w: Walker, needs: seq<Need>)
    requires w.empty == 0 && w.idle == 0
    requires forall i | 0 <= i < |needs| :: needs[i] == Lacking(false)
    ensures
      var n, v := |needs|, After(w, needs);
      && v.walks == w.walks + Budget(n) && v.empty == Budget(n)
      && v.idle == (if n <= 3 then 0 else (n - 3) % 30)
      && Reports(w, needs) == (if n < 3 then 0 else 1)
  {
    var n := |needs|;
    if n > 0 {
      StreakBudget(w, needs[..n - 1]);
      BudgetNext(n - 1);
      hide Budget;
    }
  }

  lemma BudgetNext(n: nat)
    ensures Budget(n + 1) == Budget(n) + (if n < 3 || (n - 3) % 30 == 29 then 1 else 0)
    ensures n < 3 ==> Budget(n) == n
    ensures n >= 3 ==> Budget(n) >= 3 && (n + 1 - 3) % 30 == if (n - 3) % 30 == 29 then 0 else (n - 3) % 30 + 1
  {}

  lemma {:induction false} AfterParts(w: Walker, a: seq<Need>, b: seq<Need>)
    ensures After(w, a + b) == After(After(w, a), b)
    ensures Reports(w, a + b) == Reports(w, a) + Reports(After(w, a), b)
  {
    if b == [] {
      assert a + b == a;
    } else {
      var n := |b| - 1;
      assert (a + b)[..|a + b| - 1] == a + b[..n];
      AfterParts(w, a, b[..n]);
    }
  }

  /** A sample in which no GPU lacks usage, or a walk that finds data, ends the streak: the next one pays anew. */
  lemma StreaksArePaidAnew(w: Walker, earlier: seq<Need>, last: Need, streak: seq<Need>)
    requires last == Covered || (last == Lacking(true) && Decide(After(w, earlier), last).walked)
    requires Consistent(w)
    requires forall i | 0 <= i < |streak| :: streak[i] == Lacking(false)
    ensures
      var before := After(w, earlier + [last]);
      && After(w, earlier + [last] + streak).walks == before.walks + Budget(|streak|)
      && Reports(w, earlier + [last] + streak) == Reports(w, earlier + [last]) + (if |streak| < 3 then 0 else 1)
  {
    hide Reports;
    RunsAreConsistent(w, earlier);
    assert (earlier + [last])[..|earlier|] == earlier;
    AfterParts(w, earlier + [last], streak);
    StreakBudget(After(w, earlier + [last]), streak);
  }

  /** The samples until the next walk, once some GPU lacks usage. */
  function Wait(w: Walker): nat
    requires Consistent(w)
  {
    if w.empty < 3 then 1 else 30 - w.idle
  }

  /**
   In any reachable state, if a client's data is there from now on, the walk that finds it is the
   Wait(w)-th sample from now, at most the thirtieth, and none is made before.
   */
  lemma {:induction false} ClientIsFound(w: Walker, needs: seq<Need>)
    requires Consistent(w) && 0 < |needs| <= Wait(w)
    requires forall i | 0 <= i < |needs| :: needs[i] == Lacking(true)
    ensures Wait(w) <= 30
    ensures if |needs| < Wait(w) then After(w, needs) == w.(idle := w.idle + |needs|)
            else After(w, needs) == Walker(0, 0, w.walks + 1)
  {
    var n := |needs| - 1;
    if n > 0 {
      ClientIsFound(w, needs[..n]);
    } else {
      assert needs[..n] == [];
    }
  }
}
