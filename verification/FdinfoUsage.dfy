/**
 The fdinfo usage in the samples' own counters: which clients take part in a class, what they used of its
 capacity, and the usage of the device.
 */
module FdinfoUsage {
  import opened Wrappers
  import opened Text
  import opened Folds
  import opened Fdinfo
  import opened FdinfoReading

  /** Some counter that is in both readings of a client is smaller in the second. */
  ghost predicate WentBack(before: Client, now: Client) {
    || (exists e :: e in before.busy && e in now.busy && now.busy[e] < before.busy[e])
    || (exists e :: e in before.cycles && e in now.cycles && now.cycles[e] < before.cycles[e])
    || (exists e :: e in before.total && e in now.total && now.total[e] < before.total[e])
  }

  lemma RegressedExactly(before: Client, now: Client)
    ensures CountersRegressed(before, now) <==> WentBack(before, now)
  {
    hide *;
    DecreasedExactly(before.busy, now.busy);
    DecreasedExactly(before.cycles, now.cycles);
    DecreasedExactly(before.total, now.total);
    RegressedFrom(before, now);
  }

  lemma DecreasedExactly(before: map<Class, nat>, now: map<Class, nat>)
    ensures Decreased(before, now) <==> exists e :: e in before && e in now && now[e] < before[e]
  {}

  lemma RegressedFrom(before: Client, now: Client)
    requires Decreased(before.busy, now.busy) <==>
      exists e :: e in before.busy && e in now.busy && now.busy[e] < before.busy[e]
    requires Decreased(before.cycles, now.cycles) <==>
      exists e :: e in before.cycles && e in now.cycles && now.cycles[e] < before.cycles[e]
    requires Decreased(before.total, now.total) <==>
      exists e :: e in before.total && e in now.total && now.total[e] < before.total[e]
    ensures CountersRegressed(before, now) <==> WentBack(before, now)
  {
    hide Decreased;
  }

  /** The client takes part in the class by engine time: it has the class in both samples and never went back. */
  ghost predicate UsesTime(prev: Clients, cur: Clients, e: Class, id: Id) {
    id in prev && id in cur && e in prev[id].busy && e in cur[id].busy && !WentBack(prev[id], cur[id])
  }

  /** By cycles: the same with cycles, and the GPU's total for the class went forward. */
  ghost predicate UsesCycles(prev: Clients, cur: Clients, e: Class, id: Id) {
    && id in prev && id in cur && e in prev[id].cycles && e in cur[id].cycles && !WentBack(prev[id], cur[id])
    && e in prev[id].total && e in cur[id].total && prev[id].total[e] < cur[id].total[e]
  }

  ghost predicate Uses(kind: Kind, prev: Clients, cur: Clients, e: Class, id: Id) {
    match kind
    case EngineTime => UsesTime(prev, cur, e, id)
    case GpuCycles => UsesCycles(prev, cur, e, id)
  }

  ghost function Users(kind: Kind, prev: Clients, cur: Clients, e: Class): set<Id> {
    set id | id in cur && Uses(kind, prev, cur, e, id)
  }

  /** How much of the class each of its users used. */
  ghost function UsedBy(kind: Kind, prev: Clients, cur: Clients, e: Class): Id -> nat {
    id =>
      if id !in prev || id !in cur then 0
      else match kind
        case EngineTime => Gained(prev[id].busy, cur[id].busy, e)
        case GpuCycles => Gained(prev[id].cycles, cur[id].cycles, e)
  }

  function Gained(before: map<Class, nat>, now: map<Class, nat>, e: Class): nat {
    if e in before && e in now && before[e] <= now[e] then now[e] - before[e] else 0
  }

  /** c is the largest number of instances any user reports for the class, at least one. */
  ghost predicate IsCapacity(cur: Clients, users: set<Id>, e: Class, c: nat) {
    && c >= 1
    && (forall id | id in users && id in cur && e in cur[id].capacity :: cur[id].capacity[e] <= c)
    && (c == 1 || exists id :: id in users && id in cur && e in cur[id].capacity && cur[id].capacity[e] == c)
  }

  /** w is the time between the samples, or for cycles the largest advance of the total among the users. */
  ghost predicate IsWindow(kind: Kind, prev: Clients, cur: Clients, users: set<Id>, elapsed: int, e: Class, w: nat) {
    match kind
    case EngineTime => w == elapsed
    case GpuCycles =>
      && (forall id | id in users && id in prev && id in cur :: Gained(prev[id].total, cur[id].total, e) <= w)
      && (exists id :: id in users && id in prev && id in cur && Gained(prev[id].total, cur[id].total, e) == w)
  }

  ghost function UsedInAll(kind: Kind, prev: Clients, cur: Clients, e: Class): nat {
    SumOver(Users(kind, prev, cur, e), UsedBy(kind, prev, cur, e))
  }

  /** x is what the users of the class used of its capacity in the window. */
  ghost predicate IsClassShare(kind: Kind, prev: Clients, cur: Clients, elapsed: int, e: Class, x: real) {
    var users := Users(kind, prev, cur, e);
    exists c, w ::
      && IsCapacity(cur, users, e, c) && IsWindow(kind, prev, cur, users, elapsed, e, w) && w > 0
      && x * (c as real * w as real) == UsedInAll(kind, prev, cur, e) as real
  }

  lemma CountsIsUses(kind: Kind, prev: Clients, cur: Clients, e: Class, id: Id)
    ensures Counts(kind, prev, cur, e, id) <==> Uses(kind, prev, cur, e, id)
  {
    if id in prev && id in cur {
      RegressedExactly(prev[id], cur[id]);
      hide CountersRegressed, WentBack;
    }
  }

  lemma ReadIsUsed(kind: Kind, prev: Clients, cur: Clients, e: Class)
    ensures Read(kind, prev, cur, e) <==> Users(kind, prev, cur, e) != {}
  {
    hide Counts, Uses;
    forall id ensures Counts(kind, prev, cur, e, id) <==> Uses(kind, prev, cur, e, id) {
      CountsIsUses(kind, prev, cur, e, id);
    }
    if id :| Counts(kind, prev, cur, e, id) {
      CountedIsThere(kind, prev, cur, e, id);
      assert id in Users(kind, prev, cur, e);
    }
    if Users(kind, prev, cur, e) != {} {
      var id :| id in Users(kind, prev, cur, e);
    }
  }

  lemma CountedIsThere(kind: Kind, prev: Clients, cur: Clients, e: Class, id: Id)
    requires Counts(kind, prev, cur, e, id)
    ensures id in prev && id in cur
  {}

  /** A user's terms in the sum and the maxima, and those of the others. */
  lemma TermsOf(kind: Kind, prev: Clients, cur: Clients, e: Class, id: Id)
    requires id in cur
    ensures DeltaOf(kind, prev, cur, e)(id) ==
            if id in Users(kind, prev, cur, e) then UsedBy(kind, prev, cur, e)(id) else 0
    ensures CapacityOf(kind, prev, cur, e)(id) ==
            if id !in Users(kind, prev, cur, e) then 0
            else if e in cur[id].capacity && cur[id].capacity[e] > 1 then cur[id].capacity[e] else 1
    ensures kind.GpuCycles? && id in Users(kind, prev, cur, e) ==>
              id in prev && TotalOf(prev, cur, e)(id) == Gained(prev[id].total, cur[id].total, e)
    ensures kind.GpuCycles? && id !in Users(kind, prev, cur, e) ==> TotalOf(prev, cur, e)(id) == 0
  {
    CountsIsUses(kind, prev, cur, e, id);
    hide CountersRegressed, WentBack;
  }

  lemma SumIsUsed(kind: Kind, prev: Clients, cur: Clients, e: Class)
    ensures SumOver(cur.Keys, DeltaOf(kind, prev, cur, e)) == UsedInAll(kind, prev, cur, e)
  {
    hide DeltaOf, Uses, UsedBy, SumOver;
    var users := Users(kind, prev, cur, e);
    forall id | id in cur.Keys
      ensures DeltaOf(kind, prev, cur, e)(id) == if id in users then UsedBy(kind, prev, cur, e)(id) else 0
    {
      TermsOf(kind, prev, cur, e, id);
    }
    SumRestrict(cur.Keys, users, DeltaOf(kind, prev, cur, e), UsedBy(kind, prev, cur, e));
  }

  lemma CapacityIsLargest(kind: Kind, prev: Clients, cur: Clients, e: Class)
    requires Users(kind, prev, cur, e) != {}
    ensures IsCapacity(cur, Users(kind, prev, cur, e), e, MaxOver(cur.Keys, CapacityOf(kind, prev, cur, e)))
  {
    hide CapacityOf, Uses, MaxOver;
    var users, f := Users(kind, prev, cur, e), CapacityOf(kind, prev, cur, e);
    forall id | id in cur.Keys
      ensures f(id) == (if id !in users then 0
                        else if e in cur[id].capacity && cur[id].capacity[e] > 1 then cur[id].capacity[e] else 1)
      ensures f(id) <= MaxOver(cur.Keys, f)
    {
      TermsOf(kind, prev, cur, e, id);
      MaxReaches(cur.Keys, f, id);
    }
    var some :| some in users;
    assert some in cur.Keys;
    MaxAttained(cur.Keys, f);
  }

  lemma WindowIsLargest(kind: Kind, prev: Clients, cur: Clients, elapsed: int, e: Class)
    requires Users(kind, prev, cur, e) != {} && (kind.EngineTime? ==> elapsed > 0)
    ensures
      var w := Window(kind, prev, cur, if elapsed > 0 then elapsed else 0, e);
      w > 0 && IsWindow(kind, prev, cur, Users(kind, prev, cur, e), elapsed, e, w)
  {
    if kind.GpuCycles? {
      CycleWindow(prev, cur, e);
    }
  }

  lemma CycleWindow(prev: Clients, cur: Clients, e: Class)
    requires Users(GpuCycles, prev, cur, e) != {}
    ensures
      var w, users := MaxOver(cur.Keys, TotalOf(prev, cur, e)), Users(GpuCycles, prev, cur, e);
      && w > 0
      && (forall id | id in users && id in prev && id in cur :: Gained(prev[id].total, cur[id].total, e) <= w)
      && (exists id :: id in users && id in prev && id in cur && Gained(prev[id].total, cur[id].total, e) == w)
  {
    var users, f := Users(GpuCycles, prev, cur, e), TotalOf(prev, cur, e);
    var some :| some in users;
    assert Gained(prev[some].total, cur[some].total, e) > 0;
    hide TotalOf, Uses, MaxOver, Gained;
    forall id | id in cur.Keys
      ensures f(id) == if id in users && id in prev then Gained(prev[id].total, cur[id].total, e) else 0
      ensures f(id) <= MaxOver(cur.Keys, f)
    {
      TermsOf(GpuCycles, prev, cur, e, id);
      MaxReaches(cur.Keys, f, id);
    }
    UserIsThere(GpuCycles, prev, cur, e, some);
    assert some in cur.Keys;
    MaxAttained(cur.Keys, f);
  }

  lemma UserIsThere(kind: Kind, prev: Clients, cur: Clients, e: Class, id: Id)
    requires id in Users(kind, prev, cur, e)
    ensures id in prev && id in cur
  {}

  /** The share of a class that has users is what they used of its capacity in the window. */
  lemma ClassShareIsExact(kind: Kind, prev: Clients, cur: Clients, elapsed: int, e: Class)
    requires Users(kind, prev, cur, e) != {} && (kind.EngineTime? ==> elapsed > 0)
    requires UsedInAll(kind, prev, cur, e) <= MAX_UINT64
    ensures IsClassShare(kind, prev, cur, elapsed, e, Share(kind, prev, cur, if elapsed > 0 then elapsed else 0, e))
  {
    var window := if elapsed > 0 then elapsed else 0;
    hide *;
    ReadIsUsed(kind, prev, cur, e);
    SumIsUsed(kind, prev, cur, e);
    ShareIsExact(kind, prev, cur, window, e);
    CapacityIsLargest(kind, prev, cur, e);
    WindowIsLargest(kind, prev, cur, elapsed, e);
    ShareFrom(kind, prev, cur, elapsed, e, MaxOver(cur.Keys, CapacityOf(kind, prev, cur, e)),
              Window(kind, prev, cur, window, e), Share(kind, prev, cur, window, e));
  }

  lemma ShareFrom(kind: Kind, prev: Clients, cur: Clients, elapsed: int, e: Class, c: nat, w: nat, x: real)
    requires
      var users := Users(kind, prev, cur, e);
      IsCapacity(cur, users, e, c) && IsWindow(kind, prev, cur, users, elapsed, e, w) && w > 0
    requires x * (c as real * w as real) == UsedInAll(kind, prev, cur, e) as real
    ensures IsClassShare(kind, prev, cur, elapsed, e, x)
  {
    hide IsCapacity, IsWindow, UsedInAll, Users;
  }

  /** The class can be read: it has a user, and time passed if it is read by engine time. */
  ghost predicate Readable(kind: Kind, prev: Clients, cur: Clients, elapsed: int, e: Class) {
    Users(kind, prev, cur, e) != {} && (kind.EngineTime? ==> elapsed > 0)
  }

  /** x is the share of some readable class. */
  ghost predicate SomeShare(prev: Clients, cur: Clients, elapsed: int, x: real) {
    exists kind, e :: Readable(kind, prev, cur, elapsed, e) && IsClassShare(kind, prev, cur, elapsed, e, x)
  }

  /**
   The usage of a device is the largest share of a readable class, by engine time or cycles, at most 1; it is
   there exactly when some class can be read. A client that is in one sample only, or has a counter that went
   back, takes part in no class; every other takes part in every class it has in both samples.
   */
  lemma UsageIsLargestShare(prev: Clients, cur: Clients, elapsed: int, usage: Option<real>)
    requires IsUsage(prev, cur, elapsed, usage)
    requires forall kind, e :: UsedInAll(kind, prev, cur, e) <= MAX_UINT64
    ensures usage.Some? <==> exists kind, e :: Readable(kind, prev, cur, elapsed, e)
    ensures usage.Some? ==> exists x :: SomeShare(prev, cur, elapsed, x) && usage.value == (if x > 1.0 then 1.0 else x)
    ensures usage.Some? ==> forall kind, e | Readable(kind, prev, cur, elapsed, e) ::
              exists x :: IsClassShare(kind, prev, cur, elapsed, e, x) && (if x > 1.0 then 1.0 else x) <= usage.value
  {
    var b, c :| IsReading(EngineTime, prev, cur, elapsed, b) && IsReading(GpuCycles, prev, cur, elapsed, c)
                && usage == Larger(b, c);
    hide *;
    ReadingIsLargest(EngineTime, prev, cur, elapsed, b);
    ReadingIsLargest(GpuCycles, prev, cur, elapsed, c);
    LargerIsLargest(prev, cur, elapsed, b, c);
  }

  lemma LargerIsLargest(prev: Clients, cur: Clients, elapsed: int, b: Option<real>, c: Option<real>)
    requires IsLargest(EngineTime, prev, cur, elapsed, b) && IsLargest(GpuCycles, prev, cur, elapsed, c)
    ensures
      var usage := Larger(b, c);
      && (usage.Some? <==> exists kind, e :: Readable(kind, prev, cur, elapsed, e))
      && (usage.Some? ==>
            exists x :: SomeShare(prev, cur, elapsed, x) && usage.value == (if x > 1.0 then 1.0 else x))
      && (usage.Some? ==> forall kind, e | Readable(kind, prev, cur, elapsed, e) ::
            exists x :: IsClassShare(kind, prev, cur, elapsed, e, x) && (if x > 1.0 then 1.0 else x) <= usage.value)
  {
    hide Readable, IsClassShare, SomeShare, KindShare;
    var usage := Larger(b, c);
    if b.Some? {
      var e :| Readable(EngineTime, prev, cur, elapsed, e);
      var x :| KindShare(EngineTime, prev, cur, elapsed, x) && b.value == Clamp(x);
      KindIsSome(EngineTime, prev, cur, elapsed, x);
    }
    if c.Some? {
      var e :| Readable(GpuCycles, prev, cur, elapsed, e);
      var x :| KindShare(GpuCycles, prev, cur, elapsed, x) && c.value == Clamp(x);
      KindIsSome(GpuCycles, prev, cur, elapsed, x);
    }
    forall kind, e | Readable(kind, prev, cur, elapsed, e)
      ensures usage.Some? && exists x ::
        IsClassShare(kind, prev, cur, elapsed, e, x) && (if x > 1.0 then 1.0 else x) <= usage.value
    {
      var r := if kind.EngineTime? then b else c;
      assert IsLargest(kind, prev, cur, elapsed, r);
      var x :| IsClassShare(kind, prev, cur, elapsed, e, x) && Clamp(x) <= r.value;
    }
  }

  /** r is the largest share of a class readable this way, at most 1, or None without such a class. */
  ghost predicate IsLargest(kind: Kind, prev: Clients, cur: Clients, elapsed: int, r: Option<real>) {
    && (r.Some? <==> exists e :: Readable(kind, prev, cur, elapsed, e))
    && (r.Some? ==> exists x :: KindShare(kind, prev, cur, elapsed, x) && r.value == Clamp(x))
    && (r.Some? ==> forall e | Readable(kind, prev, cur, elapsed, e) ::
          exists x :: IsClassShare(kind, prev, cur, elapsed, e, x) && Clamp(x) <= r.value)
  }

  ghost predicate KindShare(kind: Kind, prev: Clients, cur: Clients, elapsed: int, x: real) {
    exists e :: Readable(kind, prev, cur, elapsed, e) && IsClassShare(kind, prev, cur, elapsed, e, x)
  }

  lemma KindIsSome(kind: Kind, prev: Clients, cur: Clients, elapsed: int, x: real)
    requires KindShare(kind, prev, cur, elapsed, x)
    ensures SomeShare(prev, cur, elapsed, x)
  {
    hide Readable, IsClassShare;
  }

  lemma ReadableIsRead(kind: Kind, prev: Clients, cur: Clients, elapsed: int, e: Class)
    requires UsedInAll(kind, prev, cur, e) <= MAX_UINT64
    ensures Readable(kind, prev, cur, elapsed, e) <==> Read(kind, prev, cur, e) && (kind.EngineTime? ==> elapsed > 0)
    ensures Readable(kind, prev, cur, elapsed, e) ==>
              IsClassShare(kind, prev, cur, elapsed, e, Share(kind, prev, cur, if elapsed > 0 then elapsed else 0, e))
  {
    hide Read, Share, IsClassShare, UsedInAll, Users;
    ReadIsUsed(kind, prev, cur, e);
    if Readable(kind, prev, cur, elapsed, e) {
      ClassShareIsExact(kind, prev, cur, elapsed, e);
    }
  }

  lemma ReadingIsLargest(kind: Kind, prev: Clients, cur: Clients, elapsed: int, r: Option<real>)
    requires IsReading(kind, prev, cur, elapsed, r)
    requires forall e :: UsedInAll(kind, prev, cur, e) <= MAX_UINT64
    ensures IsLargest(kind, prev, cur, elapsed, r)
  {
    var window := if elapsed > 0 then elapsed else 0;
    hide Read, Share, IsClassShare, UsedInAll, Readable, Clamp;
    forall e
      ensures Readable(kind, prev, cur, elapsed, e) <==> Read(kind, prev, cur, e) && (kind.EngineTime? ==> elapsed > 0)
      ensures Readable(kind, prev, cur, elapsed, e) ==>
                IsClassShare(kind, prev, cur, elapsed, e, Share(kind, prev, cur, window, e))
    {
      ReadableIsRead(kind, prev, cur, elapsed, e);
    }
    if r.Some? {
      var e :| Read(kind, prev, cur, e) && r.value == Clamp(Share(kind, prev, cur, window, e));
      assert Readable(kind, prev, cur, elapsed, e);
      assert KindShare(kind, prev, cur, elapsed, Share(kind, prev, cur, window, e));
      forall f | Readable(kind, prev, cur, elapsed, f)
        ensures exists x :: IsClassShare(kind, prev, cur, elapsed, f, x) && Clamp(x) <= r.value
      {
        assert IsClassShare(kind, prev, cur, elapsed, f, Share(kind, prev, cur, window, f));
      }
    }
  }
}
