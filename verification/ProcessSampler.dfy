/**
 The process sampler (process_linux.go): aggregate CPU ticks are read before and after a walk over the
 processes, and each process's share is taken over a window that covers both of its readings.
 */
module ProcessSampler {
  import opened Wrappers
  import opened Quotients

  /** A process, told apart from a later one with the same PID by its start time. */
  datatype Identity = Identity(pid: int, startTimeTicks: nat)

  /** One process row of the walk: its identity and CPU ticks. */
  datatype Reading = Reading(id: Identity, ticks: nat)

  datatype Baseline = NoBaseline | Baseline(total: nat, ticks: map<Identity, nat>)

  /** The ticks by identity; a later reading of an identity replaces an earlier one. */
  function Current(readings: seq<Reading>): map<Identity, nat> {
    if readings == [] then map[]
    else
      var r := readings[|readings| - 1];
      Current(readings[..|readings| - 1])[r.id := r.ticks]
  }

  /** A process's share of the ticks counted from the baseline's total to the closing one. */
  function Fraction(b: Baseline, current: map<Identity, nat>, id: Identity, totalAfter: nat): Option<real> {
    if b.NoBaseline? || totalAfter <= b.total || id !in current || id !in b.ticks || current[id] < b.ticks[id]
       || current[id] - b.ticks[id] > totalAfter - b.total
    then None
    else Some((current[id] - b.ticks[id]) as real / (totalAfter - b.total) as real)
  }

  /**
   A share exists exactly when the total advanced and the process is in both samples with an advance that fits it;
   times the advance of the total it is the advance of the process. An impossible advance has no share.
   */
  lemma FractionExactly(b: Baseline, current: map<Identity, nat>, id: Identity, totalAfter: nat)
    ensures
      var share := Fraction(b, current, id, totalAfter);
      && (share.Some? <==>
            && b.Baseline? && totalAfter > b.total && id in current && id in b.ticks
            && b.ticks[id] <= current[id] <= b.ticks[id] + (totalAfter - b.total))
      && (share.Some? ==>
            && 0.0 <= share.value <= 1.0
            && share.value * (totalAfter - b.total) as real == (current[id] - b.ticks[id]) as real)
  {
    if Fraction(b, current, id, totalAfter).Some? {
      Share(current[id] - b.ticks[id], totalAfter - b.total);
    }
  }

  /** The rows of a walk that could be read and parsed. */
  function Readable(rows: seq<Option<Reading>>): seq<Reading> {
    if rows == [] then []
    else
      var row := rows[|rows| - 1];
      Readable(rows[..|rows| - 1]) + if row.Some? then [row.value] else []
  }

  /** Only the rows that could not be read are left out, and the others keep their order. */
  lemma {:induction false} ReadableOfParts(a: seq<Option<Reading>>, b: seq<Option<Reading>>, row: Reading)
    ensures Readable(a + b) == Readable(a) + Readable(b)
    ensures Readable([Some(row)]) == [row] && Readable([None]) == []
  {
    if b == [] {
      assert a + b == a;
    } else {
      var n := |b| - 1;
      assert (a + b)[..|a + b| - 1] == a + b[..n];
      ReadableOfParts(a, b[..n], row);
    }
  }

  class ProcessSampler {
    var previousTotal: nat
    var previous: map<Identity, nat>
    var hasPrevious: bool

    function State(): Baseline
      reads this
    {
      if hasPrevious then Baseline(previousTotal, previous) else NoBaseline
    }

    constructor ()
      ensures State() == NoBaseline
    {
      previousTotal, previous, hasPrevious := 0, map[], false;
    }

    /**
     One sample: the aggregate before the walk, the rows of the walk, the aggregate after it. Any of the
     three steps may fail, and then nothing is kept of the sample.
     */
    method Sample(totalBefore: Result<nat>, rows: Result<seq<Option<Reading>>>, totalAfter: Result<nat>)
      returns (r: Result<seq<(Identity, Option<real>)>>)
      modifies this
      ensures r.Ok? <==> totalBefore.Ok? && rows.Ok? && totalAfter.Ok?
      ensures r.Err? ==> State() == old(State())
      ensures r.Ok? ==>
                var readings := Readable(rows.value);
                && State() == Baseline(totalBefore.value, Current(readings))
                && |r.value| == |readings|
                && forall i | 0 <= i < |readings| ::
                     var id := readings[i].id;
                     r.value[i] == (id, Fraction(old(State()), Current(readings), id, totalAfter.value))
    {
      if totalBefore.Err? || rows.Err? {
        return Err;
      }
      var current: map<Identity, nat> := map[];
      var processes: seq<Identity> := [];
      ghost var readings := Readable(rows.value);
      for i := 0 to |rows.value|
        invariant current == Current(Readable(rows.value[..i]))
        invariant |processes| == |Readable(rows.value[..i])|
        invariant forall k | 0 <= k < |processes| :: processes[k] == Readable(rows.value[..i])[k].id
      {
        var row := rows.value[i];
        assert rows.value[..i + 1][..i] == rows.value[..i];
        if row.Some? {
          ghost var before := Readable(rows.value[..i]);
          assert (before + [row.value])[..|before|] == before;
          current := current[row.value.id := row.value.ticks];
          processes := processes + [row.value.id];
        } else {
          assert Readable(rows.value[..i]) + [] == Readable(rows.value[..i]);
        }
      }
      assert rows.value[..|rows.value|] == rows.value;
      if totalAfter.Err? {
        return Err;
      }
      var result: seq<(Identity, Option<real>)> := [];
      for i := 0 to |processes|
        invariant |result| == i
        invariant forall k | 0 <= k < i ::
          result[k] == (processes[k], Fraction(State(), current, processes[k], totalAfter.value))
      {
        var id := processes[i];
        var share: Option<real> := None;
        if hasPrevious && totalAfter.value > previousTotal {
          var totalDelta := totalAfter.value - previousTotal;
          if id in current && id in previous && current[id] >= previous[id] {
            var delta := current[id] - previous[id];
            if delta <= totalDelta {
              share := Some(delta as real / totalDelta as real);
            }
          }
        }
        result := result + [(id, share)];
      }
      previousTotal, previous, hasPrevious := totalBefore.value, current, true;
      return Ok(result);
    }
  }
}
