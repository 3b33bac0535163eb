/** Small vocabulary shared by every component: results, and finite sets and sequences of ids.

    Transaction ids, batch ids, note ids, nullifiers, account ids and digests are opaque, totally
    ordered words in the node. They are modelled as natural numbers, ordered as numbers. */
module Prelude {

  datatype Option<+T> = None | Some(value: T)

  /** What an operation that may fail reports. */
  datatype Outcome<+E> = Pass | Fail(error: E)

  datatype Result<+T, +E> = Ok(value: T) | Err(error: E) {

    /** The new state, or the one before when the operation was rejected. */
    function Else(before: T): T {
      if Ok? then value else before
    }

    function Report(): Outcome<E> {
      if Ok? then Pass else Fail(error)
    }
  }

  function Elems<T>(s: seq<T>): set<T> {
    set x | x in s
  }

  ghost predicate NoDup<T>(s: seq<T>) {
    forall i, j :: 0 <= i < j < |s| ==> s[i] != s[j]
  }

  lemma NoDupAppend<T>(s: seq<T>, t: seq<T>)
    requires NoDup(s) && NoDup(t)
    requires forall x :: x in s ==> x !in t
    ensures NoDup(s + t)
  {
    forall i, j | 0 <= i < j < |s + t| ensures (s + t)[i] != (s + t)[j] {
      if i < |s| <= j {
        assert (s + t)[i] in s && (s + t)[j] in t;
      }
    }
  }

  lemma NoDupSplit<T>(s: seq<T>, t: seq<T>)
    requires NoDup(s + t)
    ensures NoDup(s) && NoDup(t)
    ensures forall x :: x in s ==> x !in t
  {
    var all := s + t;
    assert forall i :: 0 <= i < |s| ==> all[i] == s[i];
    assert forall j :: 0 <= j < |t| ==> all[|s| + j] == t[j];
  }

  lemma DifferenceEmpty<T>(a: set<T>, b: set<T>)
    ensures a - b == {} <==> a <= b
  {
    if a - b == {} {
      forall x | x in a ensures x in b {
        assert x !in a - b;
      }
    }
  }

  lemma IntersectionEmpty<T>(a: set<T>, b: set<T>)
    ensures a * b == {} <==> a !! b
  {
    if a * b == {} {
      forall x | x in a ensures x !in b {
        assert x !in a * b;
      }
    }
  }

  // The least element of an ordered set, which is what `first` and `pop_first` return.

  predicate IsLeast(s: set<nat>, m: nat) {
    m in s && forall x :: x in s ==> m <= x
  }

  lemma {:induction false} MinExists(s: set<nat>)
    requires s != {}
    ensures exists m :: IsLeast(s, m)
  {
    var m :| m in s;
    var rest := s - {m};
    if rest == {} {
      assert s == {m};
      assert IsLeast(s, m);
    } else {
      MinExists(rest);
      var n :| IsLeast(rest, n);
      assert forall x :: x in s ==> x == m || x in rest;
      assert IsLeast(s, if n < m then n else m);
    }
  }

  function Min(s: set<nat>): (m: nat)
    requires s != {}
    ensures m in s && forall x :: x in s ==> m <= x
  {
    MinExists(s);
    var m :| m in s && IsLeast(s, m);
    m
  }

  lemma LeastIsMin(s: set<nat>, m: nat)
    requires m in s && forall x :: x in s ==> m <= x
    ensures Min(s) == m
  {
    assert m <= Min(s) <= m;
  }
}
