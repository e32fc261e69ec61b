/**
 The life of a resource the sampler owns, a child process or an open counter: opened once under a
 fresh number, used only while open, closed once.
 */
module Ledger {
  import opened Wrappers

  datatype Event = Opened(id: nat) | Used(id: nat) | Closed(id: nat)

  /** What an auditor knows after reading a log: every number ever opened, and those still open. */
  datatype Books = Books(ever: set<nat>, live: set<nat>)

  function Enter(books: Books, e: Event): Option<Books> {
    match e
    case Opened(id) => if id in books.ever then None else Some(Books(books.ever + {id}, books.live + {id}))
    case Used(id) => if id in books.live then Some(books) else None
    case Closed(id) => if id in books.live then Some(books.(live := books.live - {id})) else None
  }

  /** Reads a log from its start; None at the first event that breaks the rules. */
  function Audit(log: seq<Event>): Option<Books> {
    if log == [] then Some(Books({}, {}))
    else
      var books := Audit(log[..|log| - 1]);
      if books.None? then None else Enter(books.value, log[|log| - 1])
  }

  lemma AuditNext(log: seq<Event>, e: Event)
    requires Audit(log).Some?
    ensures Audit(log + [e]) == Enter(Audit(log).value, e)
  {
    assert (log + [e])[..|log|] == log;
  }

  /** An accepted log has an accepted start. */
  lemma {:induction false} AuditPrefix(log: seq<Event>, n: nat)
    requires n <= |log| && Audit(log).Some?
    ensures Audit(log[..n]).Some?
  {
    if n < |log| {
      AuditPrefix(log[..|log| - 1], n);
      assert log[..|log| - 1][..n] == log[..n];
    } else {
      assert log[..n] == log;
    }
  }

  /** The books list exactly the numbers opened, and as live exactly those opened and not closed. */
  lemma {:induction false} AuditLive(log: seq<Event>)
    requires Audit(log).Some?
    ensures forall id :: id in Audit(log).value.ever <==> Opened(id) in log
    ensures forall id :: id in Audit(log).value.live <==> Opened(id) in log && Closed(id) !in log
  {
    if log != [] {
      var rest, e := log[..|log| - 1], log[|log| - 1];
      AuditLive(rest);
      AuditOrigin(rest);
      assert log == rest + [e];
    }
  }

  /** Nothing is closed or used that was not opened before. */
  lemma {:induction false} AuditOrigin(log: seq<Event>)
    requires Audit(log).Some?
    ensures Audit(log).value.live <= Audit(log).value.ever
    ensures forall id :: Closed(id) in log || Used(id) in log ==> id in Audit(log).value.ever
  {
    if log != [] {
      var rest, e := log[..|log| - 1], log[|log| - 1];
      AuditOrigin(rest);
      assert log == rest + [e];
    }
  }

  /** In an accepted log a number is opened once, closed at most once, and silent after that. */
  lemma AuditMeaning(log: seq<Event>, i: nat, j: nat)
    requires Audit(log).Some? && i < j < |log|
    ensures log[i].Closed? ==> log[j].id != log[i].id
    ensures log[i].Opened? ==> log[j] != log[i]
    ensures !log[j].Opened? ==> Opened(log[j].id) in log[..j] && Closed(log[j].id) !in log[..j]
  {
    AuditPrefix(log, j);
    AuditPrefix(log, j + 1);
    assert log[..j + 1][..j] == log[..j];
    assert log[..j][i] == log[i];
    AuditLive(log[..j]);
    AuditOrigin(log[..j]);
  }
}
