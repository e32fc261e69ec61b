/** Sums of sequences, and sums and maxima over finite sets, where the order of the members does not matter. */
module Folds {

  function Sum(s: seq<nat>): nat {
    if s == [] then 0 else Sum(s[..|s| - 1]) + s[|s| - 1]
  }

  lemma SumNext(s: seq<nat>, i: nat)
    requires i < |s|
    ensures Sum(s[..i + 1]) == Sum(s[..i]) + s[i]
  {
    assert s[..i + 1][..i] == s[..i];
  }

  lemma SumAppend(s: seq<nat>, x: nat)
    ensures Sum(s + [x]) == Sum(s) + x
  {
    assert (s + [x])[..|s|] == s;
  }

  lemma {:induction false} SumPrefix(s: seq<nat>, i: nat)
    requires i <= |s|
    ensures Sum(s[..i]) <= Sum(s)
    decreases |s| - i
  {
    if i < |s| {
      SumNext(s, i);
      SumPrefix(s, i + 1);
    } else {
      assert s[..i] == s;
    }
  }

  ghost function SumOver<T(!new)>(s: set<T>, f: T -> nat): nat {
    if s == {} then 0 else
    var x :| x in s;
    f(x) + SumOver(s - {x}, f)
  }

  lemma {:induction false} SumSplit<T(!new)>(s: set<T>, f: T -> nat, x: T)
    requires x in s
    ensures SumOver(s, f) == f(x) + SumOver(s - {x}, f)
    decreases s
  {
    var y :| y in s && SumOver(s, f) == f(y) + SumOver(s - {y}, f);
    if x != y {
      SumSplit(s - {y}, f, x);
      SumSplit(s - {x}, f, y);
      assert s - {y} - {x} == s - {x} - {y};
    }
  }

  lemma SumAdd<T(!new)>(s: set<T>, f: T -> nat, x: T)
    requires x !in s
    ensures SumOver(s + {x}, f) == SumOver(s, f) + f(x)
  {
    SumSplit(s + {x}, f, x);
    assert s + {x} - {x} == s;
  }

  lemma {:induction false} SumAgree<T(!new)>(s: set<T>, f: T -> nat, g: T -> nat)
    requires forall x | x in s :: f(x) == g(x)
    ensures SumOver(s, f) == SumOver(s, g)
  {
    if s != {} {
      var x :| x in s;
      SumSplit(s, f, x);
      SumSplit(s, g, x);
      SumAgree(s - {x}, f, g);
    }
  }

  function Max(a: nat, b: nat): nat {
    if a < b then b else a
  }

  /** The largest f over s, at least 0. */
  ghost function MaxOver<T(!new)>(s: set<T>, f: T -> nat): nat {
    if s == {} then 0 else
    var x :| x in s;
    Max(f(x), MaxOver(s - {x}, f))
  }

  lemma {:induction false} MaxSplit<T(!new)>(s: set<T>, f: T -> nat, x: T)
    requires x in s
    ensures MaxOver(s, f) == Max(f(x), MaxOver(s - {x}, f))
    decreases s
  {
    var y :| y in s && MaxOver(s, f) == Max(f(y), MaxOver(s - {y}, f));
    if x != y {
      assert s - {y} - {x} == s - {x} - {y};
      var rest := MaxOver(s - {x} - {y}, f);
      MaxSplit(s - {y}, f, x);
      MaxSplit(s - {x}, f, y);
      assert MaxOver(s, f) == Max(f(y), Max(f(x), rest));
      assert MaxOver(s - {x}, f) == Max(f(y), rest);
    }
  }

  lemma MaxAdd<T(!new)>(s: set<T>, f: T -> nat, x: T)
    requires x !in s
    ensures MaxOver(s + {x}, f) == Max(MaxOver(s, f), f(x))
  {
    MaxSplit(s + {x}, f, x);
    assert s + {x} - {x} == s;
  }

  lemma {:induction false} MaxAgree<T(!new)>(s: set<T>, f: T -> nat, g: T -> nat)
    requires forall x | x in s :: f(x) == g(x)
    ensures MaxOver(s, f) == MaxOver(s, g)
  {
    if s != {} {
      var x :| x in s;
      MaxSplit(s, f, x);
      MaxSplit(s, g, x);
      MaxAgree(s - {x}, f, g);
    }
  }

  /** Members that add nothing can be left out. */
  lemma {:induction false} SumRestrict<T(!new)>(t: set<T>, s: set<T>, f: T -> nat, g: T -> nat)
    requires s <= t
    requires forall x | x in s :: f(x) == g(x)
    requires forall x | x in t && x !in s :: f(x) == 0
    ensures SumOver(t, f) == SumOver(s, g)
    decreases t
  {
    if t == s {
      SumAgree(t, f, g);
    } else {
      var x :| x in t && x !in s;
      SumSplit(t, f, x);
      SumRestrict(t - {x}, s, f, g);
    }
  }

  lemma {:induction false} MaxReaches<T(!new)>(s: set<T>, f: T -> nat, x: T)
    requires x in s
    ensures f(x) <= MaxOver(s, f)
  {
    MaxSplit(s, f, x);
  }

  lemma {:induction false} MaxAttained<T(!new)>(s: set<T>, f: T -> nat)
    ensures MaxOver(s, f) > 0 ==> exists x :: x in s && f(x) == MaxOver(s, f)
  {
    if s != {} {
      var x :| x in s;
      MaxSplit(s, f, x);
      MaxAttained(s - {x}, f);
    }
  }
}
