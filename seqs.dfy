/** Sequence helpers shared by the profiler and the cleaner: an option type,
    an order-preserving filter that keeps every copy of what it keeps, the
    subsequence relation, duplicate-freedom and element counts. */
module Seqs {

  datatype Option<T> = None | Some(value: T)

  /** `a` can be obtained from `b` by deleting elements, keeping the order of
      the rest. */
  predicate IsSubseq<T(==)>(a: seq<T>, b: seq<T>)
    decreases |b|
  {
    if a == [] then true
    else if |a| > |b| then false
    else (a[|a| - 1] == b[|b| - 1] && IsSubseq(a[..|a| - 1], b[..|b| - 1]))
         || IsSubseq(a, b[..|b| - 1])
  }

  /** No element occurs twice. */
  predicate NoDuplicates<T(==)>(s: seq<T>)
  {
    forall i, j :: 0 <= i < j < |s| ==> s[i] != s[j]
  }

  /** The elements of `s` that satisfy `p`, in their original order. */
  function Filter<T(==,!new)>(p: T -> bool, s: seq<T>): (r: seq<T>)
    ensures |r| <= |s|
    ensures forall x :: x in r <==> x in s && p(x)
    ensures forall x {:trigger Count(r, x)} :: Count(r, x) == if p(x) then Count(s, x) else 0
    decreases |s|
  {
    if s == [] then []
    else
      var init := Filter(p, s[..|s| - 1]);
      var last := s[|s| - 1];
      var r := if p(last) then init + [last] else init;
      assert forall x {:trigger Count(r, x)} :: Count(r, x) == if p(x) then Count(s, x) else 0 by {
        assert s == s[..|s| - 1] + [last];
        forall x ensures Count(r, x) == if p(x) then Count(s, x) else 0 {
          assert Count(init, x) == if p(x) then Count(s[..|s| - 1], x) else 0;
          assert multiset(s) == multiset(s[..|s| - 1]) + multiset{last};
          if p(last) {
            assert multiset(r) == multiset(init) + multiset{last};
          }
        }
      }
      r
  }

  lemma {:induction false} FilterIsSubseq<T(!new)>(p: T -> bool, s: seq<T>)
    ensures IsSubseq(Filter(p, s), s)
    decreases |s|
  {
    if s != [] {
      var init := Filter(p, s[..|s| - 1]);
      FilterIsSubseq(p, s[..|s| - 1]);
      if p(s[|s| - 1]) {
        var r := init + [s[|s| - 1]];
        assert r[..|r| - 1] == init;
      } else {
        SubseqDropLast(init, s);
      }
    }
  }

  /** Filtering with a predicate that every element meets changes nothing. */
  lemma {:induction false} FilterAll<T(!new)>(p: T -> bool, s: seq<T>)
    requires forall x :: x in s ==> p(x)
    ensures Filter(p, s) == s
    decreases |s|
  {
    if s != [] {
      FilterAll(p, s[..|s| - 1]);
      assert s == s[..|s| - 1] + [s[|s| - 1]];
    }
  }

  /** Filtering with a predicate that no element meets leaves nothing. */
  lemma {:induction false} FilterNone<T(!new)>(p: T -> bool, s: seq<T>)
    requires forall x :: x in s ==> !p(x)
    ensures Filter(p, s) == []
    decreases |s|
  {
    if s != [] {
      FilterNone(p, s[..|s| - 1]);
      assert s[|s| - 1] in s;
    }
  }

  /** Appending to the larger sequence keeps a subsequence one. */
  lemma SubseqDropLast<T>(a: seq<T>, b: seq<T>)
    requires b != []
    requires IsSubseq(a, b[..|b| - 1])
    ensures IsSubseq(a, b)
  {
    assert |a| <= |b| - 1 by { SubseqLength(a, b[..|b| - 1]); }
  }

  lemma SubseqLength<T>(a: seq<T>, b: seq<T>)
    requires IsSubseq(a, b)
    ensures |a| <= |b|
  {
  }

  lemma {:induction false} SubseqRefl<T>(a: seq<T>)
    ensures IsSubseq(a, a)
    decreases |a|
  {
    if a != [] {
      SubseqRefl(a[..|a| - 1]);
    }
  }

  lemma {:induction false} SubseqTrans<T>(a: seq<T>, b: seq<T>, c: seq<T>)
    requires IsSubseq(a, b) && IsSubseq(b, c)
    ensures IsSubseq(a, c)
    decreases |c|
  {
    if a != [] {
      SubseqLength(a, b);
      SubseqLength(b, c);
      if IsSubseq(b, c[..|c| - 1]) {
        SubseqTrans(a, b, c[..|c| - 1]);
      } else if IsSubseq(a, b[..|b| - 1]) {
        SubseqTrans(a, b[..|b| - 1], c[..|c| - 1]);
      } else {
        SubseqTrans(a[..|a| - 1], b[..|b| - 1], c[..|c| - 1]);
      }
    }
  }

  /** Every element of a subsequence is an element of the whole. */
  lemma {:induction false} SubseqMembers<T>(a: seq<T>, b: seq<T>)
    requires IsSubseq(a, b)
    ensures forall x :: x in a ==> x in b
    decreases |b|
  {
    if a != [] {
      if IsSubseq(a, b[..|b| - 1]) {
        SubseqMembers(a, b[..|b| - 1]);
      } else {
        SubseqMembers(a[..|a| - 1], b[..|b| - 1]);
        assert a == a[..|a| - 1] + [a[|a| - 1]];
      }
    }
  }

  /** `f(j)` for each index `j < n` that `keep` selects, in index order. */
  function Select<T>(keep: nat -> bool, f: nat -> T, n: nat): seq<T>
  {
    if n == 0 then [] else Select(keep, f, n - 1) + (if keep(n - 1) then [f(n - 1)] else [])
  }

  /** A value is selected exactly when some selected index maps to it. */
  lemma {:induction false} SelectMembers<T>(keep: nat -> bool, f: nat -> T, n: nat)
    ensures forall x :: x in Select(keep, f, n) <==> exists j :: 0 <= j < n && keep(j) && x == f(j)
  {
    if n > 0 {
      SelectMembers(keep, f, n - 1);
    }
  }

  /** The number of occurrences of `x` in `s`. */
  function Count<T(==)>(s: seq<T>, x: T): nat
  {
    multiset(s)[x]
  }
}
