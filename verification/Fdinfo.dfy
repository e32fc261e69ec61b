/**
 GPU usage from DRM client fdinfo (gpu_fdinfo_linux.go): the busiest engine class's share of its
 capacity, summed over the clients seen in two samples. The maps are walked in any order.
 */
module Fdinfo {
  import opened Wrappers
  import opened Text
  import opened Folds

  type Class = string
  type Id = string

  /** One client's cumulative counters per engine class. */
  datatype Client = Client(
    busy: map<Class, nat>, cycles: map<Class, nat>, total: map<Class, nat>, capacity: map<Class, nat>)

  type Clients = map<Id, Client>

  /** Engine time is measured against the clock, cycles against the GPU's own total. */
  datatype Kind = EngineTime | GpuCycles

  function Counter(kind: Kind, c: Client): map<Class, nat> {
    if kind.EngineTime? then c.busy else c.cycles
  }

  predicate Decreased(before: map<Class, nat>, now: map<Class, nat>) {
    exists engine | engine in now :: engine in before && now[engine] < before[engine]
  }

  predicate CountersRegressed(before: Client, now: Client) {
    || Decreased(before.busy, now.busy)
    || Decreased(before.cycles, now.cycles)
    || Decreased(before.total, now.total)
  }

  /** The class has a baseline on this client: a counter in both samples, and an advancing total for cycles. */
  predicate HasBaseline(kind: Kind, before: Client, now: Client, engine: Class) {
    && engine in Counter(kind, now) && engine in Counter(kind, before)
    && (kind.GpuCycles? ==> engine in now.total && engine in before.total && now.total[engine] > before.total[engine])
  }

  // ----- the specification

  /** The client contributes to the class: it is in both samples, nothing regressed, the class has a baseline. */
  predicate Counts(kind: Kind, prev: Clients, cur: Clients, engine: Class, id: Id) {
    id in prev && id in cur && !CountersRegressed(prev[id], cur[id]) && HasBaseline(kind, prev[id], cur[id], engine)
  }

  function DeltaOf(kind: Kind, prev: Clients, cur: Clients, engine: Class): Id -> nat {
    id => if Counts(kind, prev, cur, engine, id)
            && Counter(kind, cur[id])[engine] >= Counter(kind, prev[id])[engine]
          then Counter(kind, cur[id])[engine] - Counter(kind, prev[id])[engine] else 0
  }

  function TotalOf(prev: Clients, cur: Clients, engine: Class): Id -> nat {
    id => if Counts(GpuCycles, prev, cur, engine, id) then cur[id].total[engine] - prev[id].total[engine] else 0
  }

  function Get(m: map<Class, nat>, engine: Class): nat {
    if engine in m then m[engine] else 0
  }

  function CapacityOf(kind: Kind, prev: Clients, cur: Clients, engine: Class): Id -> nat {
    id => if Counts(kind, prev, cur, engine, id) then Max(Get(cur[id].capacity, engine), 1) else 0
  }

  ghost predicate Read(kind: Kind, prev: Clients, cur: Clients, engine: Class) {
    exists id :: Counts(kind, prev, cur, engine, id)
  }

  ghost function Window(kind: Kind, prev: Clients, cur: Clients, elapsed: nat, engine: Class): nat {
    if kind.EngineTime? then elapsed else MaxOver(cur.Keys, TotalOf(prev, cur, engine))
  }

  /** The counters are 64 bits wide, and so is their sum. */
  ghost function Advance(kind: Kind, prev: Clients, cur: Clients, engine: Class): nat {
    Wrap(SumOver(cur.Keys, DeltaOf(kind, prev, cur, engine)))
  }

  function Fraction(advance: nat, capacity: nat, window: nat): real {
    if capacity * window == 0 then 0.0 else advance as real / (capacity as real * window as real)
  }

  /** The class's share: what its clients used of its capacity in the window. */
  ghost function Share(kind: Kind, prev: Clients, cur: Clients, elapsed: nat, engine: Class): real {
    Fraction(Advance(kind, prev, cur, engine), MaxOver(cur.Keys, CapacityOf(kind, prev, cur, engine)),
             Window(kind, prev, cur, elapsed, engine))
  }

  function Clamp(x: real): real {
    if x > 1.0 then 1.0 else x
  }

  /** x is the largest share of a class that can be read, at most 1; without such a class there is no x. */
  ghost predicate IsReading(kind: Kind, prev: Clients, cur: Clients, elapsed: int, x: Option<real>) {
    if (kind.EngineTime? && elapsed <= 0) || !exists engine :: Read(kind, prev, cur, engine) then x == None
    else
      var window := if elapsed > 0 then elapsed else 0;
      && x.Some?
      && (exists engine :: Read(kind, prev, cur, engine) && x.value == Clamp(Share(kind, prev, cur, window, engine)))
      && (forall engine :: Read(kind, prev, cur, engine) ==> Clamp(Share(kind, prev, cur, window, engine)) <= x.value)
  }

  // ----- the algorithm

  /** The accumulators after some clients: per class, the sum, the largest total and the largest capacity. */
  datatype Sums = Sums(sums: map<Class, nat>, totals: map<Class, nat>, capacity: map<Class, nat>)

  /** The accumulators hold exactly what the clients in ids contribute to the class. */
  ghost predicate Tally(kind: Kind, prev: Clients, cur: Clients, a: Sums, engine: Class, ids: set<Id>) {
    && (engine in a.sums <==> exists id | id in ids :: Counts(kind, prev, cur, engine, id))
    && Get(a.sums, engine) == Wrap(SumOver(ids, DeltaOf(kind, prev, cur, engine)))
    && Get(a.capacity, engine) == MaxOver(ids, CapacityOf(kind, prev, cur, engine))
    && (kind.GpuCycles? ==> Get(a.totals, engine) == MaxOver(ids, TotalOf(prev, cur, engine)))
  }

  /** Adds one client's class to the accumulators. */
  function Added(kind: Kind, a: Sums, before: Client, now: Client, engine: Class): Sums
    requires HasBaseline(kind, before, now, engine) && Counter(kind, before)[engine] <= Counter(kind, now)[engine]
  {
    var delta := Counter(kind, now)[engine] - Counter(kind, before)[engine];
    var total := if kind.EngineTime? then 0 else now.total[engine] - before.total[engine];
    Sums(a.sums[engine := Wrap(Get(a.sums, engine) + delta)],
         a.totals[engine := Max(Get(a.totals, engine), total)],
         a.capacity[engine := Max(Get(a.capacity, engine), Max(Get(now.capacity, engine), 1))])
  }

  lemma TallyAdd(kind: Kind, prev: Clients, cur: Clients, a: Sums, engine: Class, ids: set<Id>, id: Id)
    requires Tally(kind, prev, cur, a, engine, ids) && id !in ids
    requires Counts(kind, prev, cur, engine, id) && Counter(kind, prev[id])[engine] <= Counter(kind, cur[id])[engine]
    ensures Tally(kind, prev, cur, Added(kind, a, prev[id], cur[id], engine), engine, ids + {id})
  {
    hide CountersRegressed, Tally, Wrap, Max, SumOver, MaxOver;
    var b := Added(kind, a, prev[id], cur[id], engine);
    assert DeltaOf(kind, prev, cur, engine)(id) == Counter(kind, cur[id])[engine] - Counter(kind, prev[id])[engine];
    assert CapacityOf(kind, prev, cur, engine)(id) == Max(Get(cur[id].capacity, engine), 1);
    assert kind.GpuCycles? ==> TotalOf(prev, cur, engine)(id) == cur[id].total[engine] - prev[id].total[engine];
    TallyFrom(kind, prev, cur, a, b, engine, ids, id);
  }

  lemma TallyFrom(kind: Kind, prev: Clients, cur: Clients, a: Sums, b: Sums, engine: Class, ids: set<Id>, id: Id)
    requires Tally(kind, prev, cur, a, engine, ids) && id !in ids && Counts(kind, prev, cur, engine, id)
    requires engine in b.sums
    requires Get(b.sums, engine) == Wrap(Get(a.sums, engine) + DeltaOf(kind, prev, cur, engine)(id))
    requires Get(b.capacity, engine) == Max(Get(a.capacity, engine), CapacityOf(kind, prev, cur, engine)(id))
    requires kind.GpuCycles? ==> Get(b.totals, engine) == Max(Get(a.totals, engine), TotalOf(prev, cur, engine)(id))
    ensures Tally(kind, prev, cur, b, engine, ids + {id})
  {
    hide Counts, DeltaOf, CapacityOf, TotalOf, SumOver, MaxOver, Wrap, Max, Get;
    SumAdd(ids, DeltaOf(kind, prev, cur, engine), id);
    MaxAdd(ids, CapacityOf(kind, prev, cur, engine), id);
    MaxAdd(ids, TotalOf(prev, cur, engine), id);
    WrapSum(SumOver(ids, DeltaOf(kind, prev, cur, engine)), DeltaOf(kind, prev, cur, engine)(id));
    assert id in ids + {id};
  }

  lemma TallySkip(kind: Kind, prev: Clients, cur: Clients, a: Sums, engine: Class, ids: set<Id>, id: Id)
    requires Tally(kind, prev, cur, a, engine, ids) && id !in ids && !Counts(kind, prev, cur, engine, id)
    ensures Tally(kind, prev, cur, a, engine, ids + {id})
  {
    hide CountersRegressed, HasBaseline, SumOver, MaxOver, Wrap;
    SumAdd(ids, DeltaOf(kind, prev, cur, engine), id);
    MaxAdd(ids, CapacityOf(kind, prev, cur, engine), id);
    if kind.GpuCycles? {
      MaxAdd(ids, TotalOf(prev, cur, engine), id);
    }
    assert forall i :: i in ids + {id} <==> i in ids || i == id;
  }

  lemma TallyOther(kind: Kind, prev: Clients, cur: Clients, a: Sums, engine: Class, ids: set<Id>, before: Client,
                   now: Client, other: Class)
    requires Tally(kind, prev, cur, a, engine, ids) && other != engine
    requires HasBaseline(kind, before, now, other) && Counter(kind, before)[other] <= Counter(kind, now)[other]
    ensures Tally(kind, prev, cur, Added(kind, a, before, now, other), engine, ids)
  {
    hide SumOver, MaxOver, Counts, CapacityOf, TotalOf, DeltaOf;
  }

  /** Adds every class of one client that regressed nowhere. */
  method AddClient(kind: Kind, prev: Clients, cur: Clients, a: Sums, ghost done: set<Id>, id: Id) returns (b: Sums)
    requires id in prev && id in cur && id !in done && !CountersRegressed(prev[id], cur[id])
    requires forall e :: Tally(kind, prev, cur, a, e, done)
    ensures forall e :: Tally(kind, prev, cur, b, e, done + {id})
  {
    hide Tally;
    b := a;
    var before, now := prev[id], cur[id];
    var todo := Counter(kind, now).Keys;
    forall e | e !in todo
      ensures Tally(kind, prev, cur, b, e, done + {id})
    {
      TallySkip(kind, prev, cur, b, e, done, id);
    }
    while todo != {}
      invariant todo <= Counter(kind, now).Keys
      invariant forall e :: Tally(kind, prev, cur, b, e, if e in todo then done else done + {id})
      decreases todo
    {
      var engine :| engine in todo;
      ghost var c := b;
      if HasBaseline(kind, before, now, engine) {
        NotDecreased(kind, before, now, engine);
        b := Added(kind, b, before, now, engine);
        TallyAdd(kind, prev, cur, c, engine, done, id);
        forall e | e != engine
          ensures Tally(kind, prev, cur, b, e, if e in todo then done else done + {id})
        {
          TallyOther(kind, prev, cur, c, e, if e in todo then done else done + {id}, before, now, engine);
        }
      } else {
        TallySkip(kind, prev, cur, b, engine, done, id);
      }
      todo := todo - {engine};
    }
    forall e ensures Tally(kind, prev, cur, b, e, done + {id}) {
      assert Tally(kind, prev, cur, b, e, if e in todo then done else done + {id});
    }
  }

  lemma NotDecreased(kind: Kind, before: Client, now: Client, engine: Class)
    requires !CountersRegressed(before, now) && HasBaseline(kind, before, now, engine)
    ensures Counter(kind, before)[engine] <= Counter(kind, now)[engine]
  {}

  /** Walks the clients in any order. */
  method Accumulate(kind: Kind, prev: Clients, cur: Clients) returns (a: Sums)
    ensures forall e :: Tally(kind, prev, cur, a, e, cur.Keys)
  {
    hide CountersRegressed;
    a := Sums(map[], map[], map[]);
    var todo := cur.Keys;
    ghost var done: set<Id> := {};
    while todo != {}
      invariant done == cur.Keys - todo && todo <= cur.Keys
      invariant forall e :: Tally(kind, prev, cur, a, e, done)
      decreases todo
    {
      hide Tally;
      var id :| id in todo;
      if id in prev && !CountersRegressed(prev[id], cur[id]) {
        a := AddClient(kind, prev, cur, a, done, id);
      } else {
        forall e ensures Tally(kind, prev, cur, a, e, done + {id}) {
          TallySkip(kind, prev, cur, a, e, done, id);
        }
      }
      todo := todo - {id};
      done := done + {id};
    }
    assert done == cur.Keys;
  }

  /** A class's share as the accumulators have it. */
  function ShareOf(kind: Kind, a: Sums, window: nat, engine: Class): (share: real)
    ensures share >= 0.0
  {
    FractionNotNegative(Get(a.sums, engine), Get(a.capacity, engine),
                        if kind.EngineTime? then window else Get(a.totals, engine));
    Fraction(Get(a.sums, engine), Get(a.capacity, engine), if kind.EngineTime? then window else Get(a.totals, engine))
  }

  /** The largest share, at most 1; the classes are visited in any order. */
  method Busiest(kind: Kind, a: Sums, window: nat) returns (r: real)
    requires a.sums != map[]
    ensures exists e | e in a.sums :: r == Clamp(ShareOf(kind, a, window, e))
    ensures forall e | e in a.sums :: Clamp(ShareOf(kind, a, window, e)) <= r
  {
    hide ShareOf;
    var busiest := 0.0;
    var todo := a.sums.Keys;
    while todo != {}
      invariant busiest >= 0.0 && todo <= a.sums.Keys
      invariant forall e | e in a.sums.Keys - todo :: ShareOf(kind, a, window, e) <= busiest
      invariant if todo == a.sums.Keys then busiest == 0.0
                else exists e | e in a.sums.Keys - todo :: ShareOf(kind, a, window, e) == busiest
      decreases todo
    {
      var e :| e in todo;
      todo := todo - {e};
      assert e in a.sums.Keys - todo;
      if ShareOf(kind, a, window, e) > busiest {
        busiest := ShareOf(kind, a, window, e);
      }
    }
    assert a.sums.Keys != {};
    r := Clamp(busiest);
  }

  /**
   The busiest class's share, from engine time or from cycles: the specified reading for every order in
   which clients and classes are visited.
   */
  method Busy(kind: Kind, prev: Clients, cur: Clients, elapsed: int) returns (r: Option<real>)
    ensures IsReading(kind, prev, cur, elapsed, r)
  {
    if kind.EngineTime? && elapsed <= 0 {
      return None;
    }
    var a := Accumulate(kind, prev, cur);
    var window := if elapsed > 0 then elapsed else 0;
    forall e
      ensures e in a.sums <==> Read(kind, prev, cur, e)
      ensures ShareOf(kind, a, window, e) == Share(kind, prev, cur, window, e)
    {
      TallyIsShare(kind, prev, cur, a, window, e);
    }
    hide Read, Share, ShareOf;
    if a.sums == map[] {
      return None;
    }
    var busiest := Busiest(kind, a, window);
    r := Some(busiest);
  }

  lemma TallyIsShare(kind: Kind, prev: Clients, cur: Clients, a: Sums, window: nat, engine: Class)
    requires Tally(kind, prev, cur, a, engine, cur.Keys)
    ensures engine in a.sums <==> Read(kind, prev, cur, engine)
    ensures ShareOf(kind, a, window, engine) == Share(kind, prev, cur, window, engine)
  {
    hide Fraction, CountersRegressed, HasBaseline;
  }

  lemma FractionNotNegative(advance: nat, capacity: nat, window: nat)
    ensures Fraction(advance, capacity, window) >= 0.0
  {
    if capacity * window > 0 {
      Positive(capacity, window);
      assert capacity as real * window as real > 0.0;
    }
  }

  lemma Positive(a: nat, b: nat)
    requires a * b > 0
    ensures a > 0 && b > 0
  {}

  /** The larger of two readings, or the only one. */
  function Larger(a: Option<real>, b: Option<real>): Option<real> {
    if a.None? then b else if b.None? || b.value <= a.value then a else b
  }

  /** The usage of a device is the larger of its engine-time and cycle readings, or the only one. */
  ghost predicate IsUsage(prev: Clients, cur: Clients, elapsed: int, usage: Option<real>) {
    exists b, c ::
      && IsReading(EngineTime, prev, cur, elapsed, b) && IsReading(GpuCycles, prev, cur, elapsed, c)
      && usage == Larger(b, c)
  }

  /** The usage of a device: from cycles when they read busier or alone, else from engine time. */
  method FdinfoBusy(prev: Clients, cur: Clients, elapsed: int) returns (r: Option<real>)
    ensures IsUsage(prev, cur, elapsed, r)
  {
    var busy := Busy(EngineTime, prev, cur, elapsed);
    var cycles := Busy(GpuCycles, prev, cur, elapsed);
    hide IsReading;
    r := busy;
    if cycles.Some? && (busy.None? || cycles.value > busy.value) {
      r := cycles;
    }
    assert r == Larger(busy, cycles);
  }
}
