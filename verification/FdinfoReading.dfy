/** What an fdinfo reading means, and what cannot disturb it. */
module FdinfoReading {
  import opened Wrappers
  import opened Text
  import opened Folds
  import opened Fdinfo

  lemma ShareNotNegative(kind: Kind, prev: Clients, cur: Clients, elapsed: nat, engine: Class)
    ensures Share(kind, prev, cur, elapsed, engine) >= 0.0
  {
    var capacity := MaxOver(cur.Keys, CapacityOf(kind, prev, cur, engine));
    FractionNotNegative(Advance(kind, prev, cur, engine), capacity, Window(kind, prev, cur, elapsed, engine));
  }

  /** A reading lies between 0 and 1, and there is only one: map order decides nothing. */
  lemma ReadingIsUnique(kind: Kind, prev: Clients, cur: Clients, elapsed: int, x: Option<real>, y: Option<real>)
    requires IsReading(kind, prev, cur, elapsed, x) && IsReading(kind, prev, cur, elapsed, y)
    ensures x == y
    ensures x.Some? ==> 0.0 <= x.value <= 1.0
  {
    hide Read, Share;
    if x.Some? {
      var window := if elapsed > 0 then elapsed else 0;
      var e :| Read(kind, prev, cur, e) && x.value == Clamp(Share(kind, prev, cur, window, e));
      ShareNotNegative(kind, prev, cur, window, e);
    }
  }

  /** A class that can be read has instances and a window to divide by. */
  lemma ReadIsDivisible(kind: Kind, prev: Clients, cur: Clients, elapsed: nat, engine: Class)
    requires Read(kind, prev, cur, engine) && (kind.EngineTime? ==> elapsed > 0)
    ensures MaxOver(cur.Keys, CapacityOf(kind, prev, cur, engine)) >= 1
    ensures Window(kind, prev, cur, elapsed, engine) >= 1
  {
    hide CountersRegressed, MaxOver;
    var id :| Counts(kind, prev, cur, engine, id);
    MaxReaches(cur.Keys, CapacityOf(kind, prev, cur, engine), id);
    if kind.GpuCycles? {
      MaxReaches(cur.Keys, TotalOf(prev, cur, engine), id);
    }
  }

  lemma FractionExact(advance: nat, capacity: nat, window: nat)
    requires capacity >= 1 && window >= 1
    ensures Fraction(advance, capacity, window) * (capacity as real * window as real) == advance as real
  {
    assert capacity * window > 0;
    assert capacity as real * window as real > 0.0;
  }

  /**
   The share of a class that can be read is its clients' advance over capacity times window, with both
   factors positive, as long as that advance fits the 64 bits it is summed in.
   */
  lemma ShareIsExact(kind: Kind, prev: Clients, cur: Clients, elapsed: nat, engine: Class)
    requires Read(kind, prev, cur, engine) && (kind.EngineTime? ==> elapsed > 0)
    requires SumOver(cur.Keys, DeltaOf(kind, prev, cur, engine)) <= MAX_UINT64
    ensures
      var capacity := MaxOver(cur.Keys, CapacityOf(kind, prev, cur, engine));
      var window := Window(kind, prev, cur, elapsed, engine);
      && capacity >= 1 && window >= 1
      && Share(kind, prev, cur, elapsed, engine) * (capacity as real * window as real)
         == SumOver(cur.Keys, DeltaOf(kind, prev, cur, engine)) as real
  {
    hide CapacityOf, Window, MaxOver, SumOver, DeltaOf, Fraction, Read;
    ReadIsDivisible(kind, prev, cur, elapsed, engine);
    FractionExact(SumOver(cur.Keys, DeltaOf(kind, prev, cur, engine)),
                  MaxOver(cur.Keys, CapacityOf(kind, prev, cur, engine)), Window(kind, prev, cur, elapsed, engine));
  }

  /** The two samples agree on what every client of cur contributes. */
  ghost predicate SameContributions(kind: Kind, prev: Clients, cur: Clients, prev': Clients, cur': Clients) {
    forall e, id :: Counts(kind, prev, cur, e, id) == Counts(kind, prev', cur', e, id)
                    && (Counts(kind, prev, cur, e, id) ==> prev[id] == prev'[id] && cur[id] == cur'[id])
  }

  lemma ContributionsDecide(kind: Kind, prev: Clients, cur: Clients, prev': Clients, cur': Clients, elapsed: nat,
                            engine: Class, id: Id)
    requires SameContributions(kind, prev, cur, prev', cur')
    requires
      || cur'.Keys == cur.Keys
      || (id !in cur && cur'.Keys == cur.Keys + {id} && !Counts(kind, prev', cur', engine, id))
    ensures Read(kind, prev, cur, engine) == Read(kind, prev', cur', engine)
    ensures Share(kind, prev, cur, elapsed, engine) == Share(kind, prev', cur', elapsed, engine)
  {
    hide Counts, Fraction;
    var d, d' := DeltaOf(kind, prev, cur, engine), DeltaOf(kind, prev', cur', engine);
    var c, c' := CapacityOf(kind, prev, cur, engine), CapacityOf(kind, prev', cur', engine);
    assert Read(kind, prev, cur, engine) == Read(kind, prev', cur', engine);
    forall i | i in cur.Keys
      ensures d(i) == d'(i) && c(i) == c'(i)
      ensures kind.GpuCycles? ==> TotalOf(prev, cur, engine)(i) == TotalOf(prev', cur', engine)(i)
    {
      ContributionOf(kind, prev, cur, prev', cur', engine, i);
    }
    SumAgree(cur.Keys, d, d');
    MaxAgree(cur.Keys, c, c');
    if kind.GpuCycles? {
      MaxAgree(cur.Keys, TotalOf(prev, cur, engine), TotalOf(prev', cur', engine));
    }
    if cur'.Keys != cur.Keys {
      SumAdd(cur.Keys, d', id);
      MaxAdd(cur.Keys, c', id);
      if kind.GpuCycles? {
        MaxAdd(cur.Keys, TotalOf(prev', cur', engine), id);
      }
    }
  }

  lemma ContributionOf(kind: Kind, prev: Clients, cur: Clients, prev': Clients, cur': Clients, engine: Class, id: Id)
    requires SameContributions(kind, prev, cur, prev', cur')
    ensures DeltaOf(kind, prev, cur, engine)(id) == DeltaOf(kind, prev', cur', engine)(id)
    ensures CapacityOf(kind, prev, cur, engine)(id) == CapacityOf(kind, prev', cur', engine)(id)
    ensures kind.GpuCycles? ==> TotalOf(prev, cur, engine)(id) == TotalOf(prev', cur', engine)(id)
  {
    hide CountersRegressed;
  }

  /** Samples whose classes agree have the same reading. */
  lemma SameReading(kind: Kind, prev: Clients, cur: Clients, prev': Clients, cur': Clients, elapsed: int, id: Id,
                    x: Option<real>)
    requires SameContributions(kind, prev, cur, prev', cur')
    requires
      || cur'.Keys == cur.Keys
      || (id !in cur && cur'.Keys == cur.Keys + {id} && forall e :: !Counts(kind, prev', cur', e, id))
    ensures IsReading(kind, prev, cur, elapsed, x) <==> IsReading(kind, prev', cur', elapsed, x)
  {
    var window := if elapsed > 0 then elapsed else 0;
    forall e
      ensures Read(kind, prev, cur, e) == Read(kind, prev', cur', e)
      ensures Share(kind, prev, cur, window, e) == Share(kind, prev', cur', window, e)
    {
      hide Read, Share, Counts, SameContributions;
      ContributionsDecide(kind, prev, cur, prev', cur', window, e, id);
    }
    hide Read, Share, Counts, SameContributions;
  }

  // ----- the usage of a device, from both readings

  /** A usage lies between 0 and 1, and there is only one; it exists exactly when a class can be read. */
  lemma UsageIsUnique(prev: Clients, cur: Clients, elapsed: int, x: Option<real>, y: Option<real>)
    requires IsUsage(prev, cur, elapsed, x) && IsUsage(prev, cur, elapsed, y)
    ensures x == y
    ensures x.Some? ==> 0.0 <= x.value <= 1.0
    ensures x.Some? <==> exists engine ::
      (elapsed > 0 && Read(EngineTime, prev, cur, engine)) || Read(GpuCycles, prev, cur, engine)
  {
    var b, c :| IsReading(EngineTime, prev, cur, elapsed, b) && IsReading(GpuCycles, prev, cur, elapsed, c)
                && x == Larger(b, c);
    var d, e :| IsReading(EngineTime, prev, cur, elapsed, d) && IsReading(GpuCycles, prev, cur, elapsed, e)
                && y == Larger(d, e);
    ReadingIsUnique(EngineTime, prev, cur, elapsed, b, d);
    ReadingIsUnique(GpuCycles, prev, cur, elapsed, c, e);
    hide Read, Share;
  }

  lemma SameUsage(prev: Clients, cur: Clients, prev': Clients, cur': Clients, elapsed: int, x: Option<real>)
    requires forall kind, r :: IsReading(kind, prev, cur, elapsed, r) <==> IsReading(kind, prev', cur', elapsed, r)
    ensures IsUsage(prev, cur, elapsed, x) <==> IsUsage(prev', cur', elapsed, x)
  {
    hide IsReading;
  }

  /** A client seen for the first time, or one that regressed, has no influence on the usage. */
  lemma NewcomerDoesNotMatter(prev: Clients, cur: Clients, id: Id, client: Client, elapsed: int, x: Option<real>)
    requires id !in cur && (id !in prev || CountersRegressed(prev[id], client))
    ensures IsUsage(prev, cur, elapsed, x) <==> IsUsage(prev, cur[id := client], elapsed, x)
  {
    hide CountersRegressed, HasBaseline, IsReading, IsUsage;
    forall kind, r
      ensures IsReading(kind, prev, cur, elapsed, r) <==> IsReading(kind, prev, cur[id := client], elapsed, r)
    {
      assert SameContributions(kind, prev, cur, prev, cur[id := client]);
      SameReading(kind, prev, cur, prev, cur[id := client], elapsed, id, r);
    }
    SameUsage(prev, cur, prev, cur[id := client], elapsed, x);
  }

  /** Neither has a client that exited before the second sample. */
  lemma LeaverDoesNotMatter(prev: Clients, cur: Clients, id: Id, client: Client, elapsed: int, x: Option<real>)
    requires id !in cur
    ensures IsUsage(prev, cur, elapsed, x) <==> IsUsage(prev[id := client], cur, elapsed, x)
  {
    hide CountersRegressed, HasBaseline, IsReading, IsUsage;
    forall kind, r
      ensures IsReading(kind, prev, cur, elapsed, r) <==> IsReading(kind, prev[id := client], cur, elapsed, r)
    {
      assert SameContributions(kind, prev, cur, prev[id := client], cur);
      SameReading(kind, prev, cur, prev[id := client], cur, elapsed, id, r);
    }
    SameUsage(prev, cur, prev[id := client], cur, elapsed, x);
  }
}
