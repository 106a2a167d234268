/** Counting the members of a sequence that have a property. */
module Tally {

  function Count<T(!new)>(s: seq<T>, f: T -> bool): (n: nat)
    ensures n <= |s|
  {
    if s == [] then 0
    else Count(s[..|s| - 1], f) + One(f(s[|s| - 1]))
  }

  function One(b: bool): nat {
    if b then 1 else 0
  }

  lemma {:induction false} Update<T(!new)>(s: seq<T>, f: T -> bool, t: nat, x: T)
    requires t < |s|
    ensures Count(s[t := x], f) == Count(s, f) - One(f(s[t])) + One(f(x))
  {
    var n := |s| - 1;
    if t == n {
      assert s[t := x][..n] == s[..n];
    } else {
      Update(s[..n], f, t, x);
      assert s[t := x][..n] == s[..n][t := x];
    }
  }

  /** Nothing is counted exactly when no member has the property. */
  lemma {:induction false} Zero<T(!new)>(s: seq<T>, f: T -> bool)
    ensures Count(s, f) == 0 <==> forall i :: 0 <= i < |s| ==> !f(s[i])
  {
    if s != [] {
      Zero(s[..|s| - 1], f);
    }
  }

  /** A member without the property is not counted. */
  lemma {:induction false} Misses<T(!new)>(s: seq<T>, f: T -> bool, t: nat)
    requires t < |s| && !f(s[t])
    ensures Count(s, f) < |s|
  {
    if t < |s| - 1 {
      Misses(s[..|s| - 1], f, t);
    }
  }

  /** How often `x` occurs. */
  function Times<T(==)>(s: seq<T>, x: T): nat {
    multiset(s)[x]
  }

  lemma TimesPlus<T>(s: seq<T>, t: seq<T>, x: T)
    ensures Times(s + t, x) == Times(s, x) + Times(t, x)
  {
  }
}
