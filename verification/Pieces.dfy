/** Strings made of pieces, and the pieces found in them again. */
module Pieces {

  /** `w` holds `f` at offset `at`. */
  predicate Has<T(==)>(w: seq<T>, at: nat, f: seq<T>) {
    at + |f| <= |w| && w[at..at + |f|] == f
  }

  lemma HasBoth<T>(w: seq<T>, at: nat, f: seq<T>, g: seq<T>, next: nat)
    requires Has(w, at, f + g) && next == at + |f|
    ensures Has(w, at, f) && Has(w, next, g)
  {
    var fg := f + g;
    forall i | 0 <= i < |f| ensures w[at + i] == f[i] {
      assert w[at..at + |fg|][i] == fg[i];
    }
    forall i | 0 <= i < |g| ensures w[next + i] == g[i] {
      assert w[at..at + |fg|][|f| + i] == fg[|f| + i];
    }
  }

  lemma HasOctet<T>(w: seq<T>, at: nat, f: seq<T>, i: nat)
    requires Has(w, at, f) && i < |f|
    ensures w[at + i] == f[i]
  {
    assert w[at..at + |f|][i] == f[i];
  }

  lemma HasEach<T>(w: seq<T>, at: nat, f: seq<T>)
    requires at + |f| <= |w| && forall i :: 0 <= i < |f| ==> w[at + i] == f[i]
    ensures Has(w, at, f)
  {
  }

  lemma HasSame<T>(s: seq<T>, w: seq<T>, at: nat, f: seq<T>)
    requires Has(s, at, f) && |w| == |s| && forall k :: at <= k < at + |f| ==> w[k] == s[k]
    ensures Has(w, at, f)
  {
    forall i | 0 <= i < |f| ensures w[at + i] == f[i] {
      HasOctet(s, at, f, i);
    }
  }

  /** Where two strings hold the same piece they are the same. */
  lemma SamePiece<T>(s: seq<T>, w: seq<T>, at: nat, f: seq<T>, k: nat)
    requires Has(s, at, f) && Has(w, at, f) && at <= k < at + |f|
    ensures s[k] == w[k]
  {
    HasOctet(s, at, f, k - at);
    HasOctet(w, at, f, k - at);
  }
}
