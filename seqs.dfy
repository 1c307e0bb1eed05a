/** Order-preserving filtering of sequences, the model of JavaScript's
    `Array.prototype.filter`, with the facts the rest of the model uses. */
module Seqs {

  /** The elements of `s` that satisfy `p`, in their original order. */
  function Filter<T>(s: seq<T>, p: T -> bool): (r: seq<T>)
    ensures |r| <= |s|
    ensures forall i :: 0 <= i < |r| ==> r[i] in s && p(r[i])
    ensures forall i :: 0 <= i < |s| && p(s[i]) ==> s[i] in r
  {
    if s == [] then []
    else if p(s[0]) then [s[0]] + Filter(s[1..], p)
    else Filter(s[1..], p)
  }

  /** `a` can be obtained from `b` by deleting elements (order is kept). */
  predicate IsSubseq<T(==)>(a: seq<T>, b: seq<T>)
  {
    if a == [] then true
    else if b == [] then false
    else if a[0] == b[0] then IsSubseq(a[1..], b[1..])
    else IsSubseq(a, b[1..])
  }

  /** Filtering a non-empty sequence: the head counts once if it passes. */
  lemma FilterCons<T>(s: seq<T>, p: T -> bool)
    requires s != []
    ensures |Filter(s, p)| == |Filter(s[1..], p)| + (if p(s[0]) then 1 else 0)
  {
  }

  /** Number of elements of `s` that satisfy `p`. */
  function Count<T>(s: seq<T>, p: T -> bool): nat
  {
    |Filter(s, p)|
  }

  lemma {:induction false} SubseqOfSelf<T>(s: seq<T>)
    ensures IsSubseq(s, s)
  {
    if s != [] { SubseqOfSelf(s[1..]); }
  }

  /** A filter result is an order-preserving subsequence of its input. */
  lemma {:induction false} FilterIsSubseq<T>(s: seq<T>, p: T -> bool)
    ensures IsSubseq(Filter(s, p), s)
  {
    if s != [] {
      FilterIsSubseq(s[1..], p);
      if p(s[0]) {
        assert Filter(s, p) == [s[0]] + Filter(s[1..], p);
        assert (Filter(s, p))[1..] == Filter(s[1..], p);
      }
    }
  }

  /** Filtering with a predicate that every element meets is the identity. */
  lemma {:induction false} FilterAll<T>(s: seq<T>, p: T -> bool)
    requires forall i :: 0 <= i < |s| ==> p(s[i])
    ensures Filter(s, p) == s
  {
    if s != [] {
      FilterAll(s[1..], p);
    }
  }

  /** Filtering with a predicate that no element meets gives the empty sequence. */
  lemma FilterNone<T>(s: seq<T>, p: T -> bool)
    requires forall i :: 0 <= i < |s| ==> !p(s[i])
    ensures Filter(s, p) == []
  {
  }

  /** Filtering distributes over concatenation. */
  lemma {:induction false} FilterConcat<T>(a: seq<T>, b: seq<T>, p: T -> bool)
    ensures Filter(a + b, p) == Filter(a, p) + Filter(b, p)
  {
    if a == [] {
      assert a + b == b;
    } else {
      assert (a + b)[0] == a[0];
      assert (a + b)[1..] == a[1..] + b;
      FilterConcat(a[1..], b, p);
    }
  }

  /** A predicate and its negation split a sequence without loss or overlap:
      every element goes to exactly one side. */
  lemma {:induction false} FilterSplit<T>(s: seq<T>, p: T -> bool, q: T -> bool)
    requires forall i :: 0 <= i < |s| ==> q(s[i]) == !p(s[i])
    ensures multiset(Filter(s, p)) + multiset(Filter(s, q)) == multiset(s)
    ensures |Filter(s, p)| + |Filter(s, q)| == |s|
  {
    if s != [] {
      FilterSplit(s[1..], p, q);
      assert s == [s[0]] + s[1..];
      assert multiset(s) == multiset{s[0]} + multiset(s[1..]);
    }
  }

  /** Filtering twice with the same predicate is the same as filtering once. */
  lemma {:induction false} FilterIdempotent<T>(s: seq<T>, p: T -> bool)
    ensures Filter(Filter(s, p), p) == Filter(s, p)
  {
    var r := Filter(s, p);
    FilterAll(r, p);
  }

  /** The number of occurrences of each value after a filter: those that pass
      keep all their copies, the others lose them all. */
  lemma {:induction false} FilterMultiplicity<T>(s: seq<T>, p: T -> bool, x: T)
    ensures multiset(Filter(s, p))[x] == if p(x) then multiset(s)[x] else 0
  {
    if s != [] {
      FilterMultiplicity(s[1..], p, x);
      assert s == [s[0]] + s[1..];
      assert multiset(s) == multiset{s[0]} + multiset(s[1..]);
    }
  }

  /** A stronger predicate keeps no more elements than a weaker one. */
  lemma {:induction false} FilterMono<T>(s: seq<T>, p: T -> bool, q: T -> bool)
    requires forall i :: 0 <= i < |s| && p(s[i]) ==> q(s[i])
    ensures |Filter(s, p)| <= |Filter(s, q)|
  {
    if s != [] {
      FilterMono(s[1..], p, q);
    }
  }

  /** Predicates that agree on every element of `s` filter it alike. */
  lemma {:induction false} FilterCongruent<T>(s: seq<T>, p: T -> bool, q: T -> bool)
    requires forall i :: 0 <= i < |s| ==> p(s[i]) == q(s[i])
    ensures Filter(s, p) == Filter(s, q)
  {
    if s != [] {
      FilterCongruent(s[1..], p, q);
    }
  }

  /** The total size of the filters of `s` by each predicate of `ps`. */
  function CountAll<T>(s: seq<T>, ps: seq<T -> bool>): nat
  {
    if ps == [] then 0 else |Filter(s, ps[0])| + CountAll(s, ps[1..])
  }

  /** How many predicates of `ps` accept `x`. */
  function Hits<T>(x: T, ps: seq<T -> bool>): nat
  {
    if ps == [] then 0 else (if ps[0](x) then 1 else 0) + Hits(x, ps[1..])
  }

  lemma {:induction false} CountAllNil<T>(ps: seq<T -> bool>)
    ensures CountAll([], ps) == 0
  {
    if ps != [] {
      CountAllNil(ps[1..]);
    }
  }

  lemma {:induction false} CountAllCons<T>(s: seq<T>, ps: seq<T -> bool>)
    requires s != []
    ensures CountAll(s, ps) == CountAll(s[1..], ps) + Hits(s[0], ps)
  {
    if ps != [] {
      CountAllCons(s, ps[1..]);
      FilterCons(s, ps[0]);
    }
  }

  /** `x` is accepted by no predicate of `ps` except possibly the one at `j`. */
  lemma {:induction false} HitsAt<T>(x: T, ps: seq<T -> bool>, j: int)
    requires forall k :: 0 <= k < |ps| && k != j ==> !ps[k](x)
    ensures Hits(x, ps) == if 0 <= j < |ps| && ps[j](x) then 1 else 0
  {
    if ps != [] {
      assert forall k :: 0 <= k < |ps[1..]| && k != j - 1 ==> !ps[1..][k](x) by {
        forall k | 0 <= k < |ps[1..]| && k != j - 1 ensures !ps[1..][k](x) {
          assert ps[1..][k] == ps[k + 1];
        }
      }
      HitsAt(x, ps[1..], j - 1);
    }
  }

  /** A family of filters together with one more filter partitions `s` when
      every element is accepted by exactly one of them: the sizes add up. */
  lemma {:induction false} FamilyPartition<T>(s: seq<T>, ps: seq<T -> bool>, q: T -> bool)
    requires forall i :: 0 <= i < |s| ==> Hits(s[i], ps) + (if q(s[i]) then 1 else 0) == 1
    ensures CountAll(s, ps) + |Filter(s, q)| == |s|
  {
    if s != [] {
      assert forall i :: 0 <= i < |s[1..]| ==> Hits(s[1..][i], ps) + (if q(s[1..][i]) then 1 else 0) == 1 by {
        forall i | 0 <= i < |s[1..]| ensures Hits(s[1..][i], ps) + (if q(s[1..][i]) then 1 else 0) == 1 {
          assert s[1..][i] == s[i + 1];
        }
      }
      FamilyPartition(s[1..], ps, q);
      CountAllCons(s, ps);
      FilterCons(s, q);
      assert Hits(s[0], ps) + (if q(s[0]) then 1 else 0) == 1;
    } else {
      CountAllNil(ps);
    }
  }

  /** The position of the first element satisfying `p`, or `|s|` when there is
      none: JavaScript's `findIndex`, with `|s|` in place of -1. */
  function FirstIndex<T>(s: seq<T>, p: T -> bool): (k: nat)
    ensures k <= |s|
    ensures k < |s| ==> p(s[k])
    ensures forall j :: 0 <= j < k ==> !p(s[j])
  {
    if s == [] then 0
    else if p(s[0]) then 0
    else 1 + FirstIndex(s[1..], p)
  }

  /** The filter is the longest subsequence whose elements all satisfy `p`,
      and the only one of that length: a result that is a subsequence, keeps
      only elements satisfying `p` and has `Count(s, p)` elements is the
      filter. */
  lemma {:induction false} SubseqFilterUnique<T>(r: seq<T>, s: seq<T>, p: T -> bool)
    requires IsSubseq(r, s)
    requires forall i :: 0 <= i < |r| ==> p(r[i])
    ensures |r| <= Count(s, p)
    ensures |r| == Count(s, p) ==> r == Filter(s, p)
  {
    if r != [] && s != [] {
      assert forall i :: 0 <= i < |r[1..]| ==> p(r[1..][i]) by {
        forall i | 0 <= i < |r[1..]| ensures p(r[1..][i]) {
          assert r[1..][i] == r[i + 1];
        }
      }
      if r[0] == s[0] {
        SubseqFilterUnique(r[1..], s[1..], p);
        assert p(s[0]);
        assert r == [r[0]] + r[1..];
      } else {
        SubseqFilterUnique(r, s[1..], p);
      }
    }
  }

  /** Every element of a subsequence occurs in the whole. */
  lemma {:induction false} SubseqMembers<T>(a: seq<T>, b: seq<T>)
    requires IsSubseq(a, b)
    ensures forall x :: x in a ==> x in b
  {
    if a != [] && b != [] {
      if a[0] == b[0] {
        SubseqMembers(a[1..], b[1..]);
        forall x | x in a ensures x in b {
          if x != a[0] {
            assert x in a[1..];
            assert x in b[1..];
          }
        }
      } else {
        SubseqMembers(a, b[1..]);
        forall x | x in a ensures x in b {
          assert x in b[1..];
        }
      }
    }
  }
}
