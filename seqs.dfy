/** Order-preserving filtering of sequences, the model of a boolean-mask
    selection `frame[frame.column <op> value]` on a data frame. */
module Seqs {

  /** The elements of `s` that satisfy `p`, in the order of `s`. */
  function Keep<T(!new)>(s: seq<T>, p: T -> bool): (r: seq<T>)
    ensures |r| <= |s|
    ensures forall x :: x in r ==> x in s && p(x)
    ensures forall x :: x in s && p(x) ==> x in r
  {
    if s == [] then [] else (if p(s[0]) then [s[0]] else []) + Keep(s[1..], p)
  }

  /** The conjunction of two predicates. */
  function Both<T>(p: T -> bool, q: T -> bool): T -> bool {
    x => p(x) && q(x)
  }

  /** Two successive selections are one selection by the conjunction. */
  lemma {:induction false} KeepKeep<T(!new)>(s: seq<T>, p: T -> bool, q: T -> bool)
    ensures Keep(Keep(s, p), q) == Keep(s, Both(p, q))
  {
    var pq := Both(p, q);
    if s != [] {
      KeepKeep(s[1..], p, q);
      var k := Keep(s, p);
      if p(s[0]) {
        assert k == [s[0]] + Keep(s[1..], p);
        assert k[0] == s[0] && k[1..] == Keep(s[1..], p);
        calc {
          Keep(k, q);
          (if q(s[0]) then [s[0]] else []) + Keep(Keep(s[1..], p), q);
          (if pq(s[0]) then [s[0]] else []) + Keep(s[1..], pq);
          Keep(s, pq);
        }
      } else {
        assert k == Keep(s[1..], p);
      }
    }
  }

  /** Selections by predicates that agree on the elements are equal. */
  lemma {:induction false} KeepExt<T(!new)>(s: seq<T>, p: T -> bool, q: T -> bool)
    requires forall i :: 0 <= i < |s| ==> p(s[i]) == q(s[i])
    ensures Keep(s, p) == Keep(s, q)
  {
    if s != [] {
      KeepExt(s[1..], p, q);
    }
  }

  /** Selecting by a predicate every element already satisfies changes nothing. */
  lemma {:induction false} KeepAll<T(!new)>(s: seq<T>, p: T -> bool)
    requires forall i :: 0 <= i < |s| ==> p(s[i])
    ensures Keep(s, p) == s
  {
    if s != [] {
      KeepAll(s[1..], p);
    }
  }

  /** Selection is idempotent. */
  lemma KeepIdempotent<T(!new)>(s: seq<T>, p: T -> bool)
    ensures Keep(Keep(s, p), p) == Keep(s, p)
  {
    var r := Keep(s, p);
    assert forall i :: 0 <= i < |r| ==> p(r[i]);
    KeepAll(r, p);
  }

  /** The duplicate-free sequence of the values of `s` in order of first appearance
      (pandas `Series.unique()`). */
  function Unique<T(==)>(s: seq<T>): (u: seq<T>)
  {
    if s == [] then []
    else
      var u := Unique(s[..|s| - 1]);
      if s[|s| - 1] in u then u else u + [s[|s| - 1]]
  }

  /** Position of the first occurrence of `x` in `s`. */
  function FirstIndex<T(==)>(s: seq<T>, x: T): (k: nat)
    requires x in s
    ensures k < |s| && s[k] == x && forall j :: 0 <= j < k ==> s[j] != x
  {
    if s[0] == x then 0 else 1 + FirstIndex(s[1..], x)
  }

  lemma {:induction false} FirstIndexPrefix<T>(s: seq<T>, n: nat, x: T)
    requires n <= |s| && x in s[..n]
    ensures x in s && FirstIndex(s, x) == FirstIndex(s[..n], x)
  {
    if s[0] != x {
      assert s[1..][..n - 1] == s[..n][1..];
      FirstIndexPrefix(s[1..], n - 1, x);
    }
  }

  /** `Unique` keeps each value once, keeps every value, and lists them in the
      order in which they first appear. */
  lemma {:induction false} UniqueSpec<T>(s: seq<T>)
    ensures forall i :: 0 <= i < |Unique(s)| ==> Unique(s)[i] in s
    ensures forall i :: 0 <= i < |s| ==> s[i] in Unique(s)
    ensures forall i, j :: 0 <= i < j < |Unique(s)| ==> Unique(s)[i] != Unique(s)[j]
    ensures forall i, j :: 0 <= i < j < |Unique(s)| ==>
              FirstIndex(s, Unique(s)[i]) < FirstIndex(s, Unique(s)[j])
  {
    if s != [] {
      var p := s[..|s| - 1];
      var last := s[|s| - 1];
      UniqueSpec(p);
      assert s == p + [last];
      var u := Unique(p);
      forall x | x in p ensures x in s && FirstIndex(s, x) == FirstIndex(p, x) {
        assert p == s[..|s| - 1];
        FirstIndexPrefix(s, |s| - 1, x);
      }
      if last !in u {
        assert last !in p;
        assert FirstIndex(s, last) == |s| - 1 by {
          assert forall j :: 0 <= j < |p| ==> s[j] == p[j];
        }
        forall i, j | 0 <= i < j < |u + [last]|
          ensures FirstIndex(s, (u + [last])[i]) < FirstIndex(s, (u + [last])[j])
        {
          assert (u + [last])[i] == u[i];
          if j < |u| {
            assert (u + [last])[j] == u[j];
          } else {
            assert u[i] in p;
            assert FirstIndex(p, u[i]) < |p|;
          }
        }
      }
    }
  }

  // ----- mapping and sorting -----

  function MapSeq<T, U>(s: seq<T>, f: T -> U): (r: seq<U>)
    ensures |r| == |s| && forall i :: 0 <= i < |s| ==> r[i] == f(s[i])
  {
    seq(|s|, i requires 0 <= i < |s| => f(s[i]))
  }

  lemma MapSeqConcat<T, U>(a: seq<T>, b: seq<T>, f: T -> U)
    ensures MapSeq(a + b, f) == MapSeq(a, f) + MapSeq(b, f)
  {
  }

  lemma RemoveAt<T>(t: seq<T>, k: nat)
    requires k < |t|
    ensures multiset(t[..k] + t[k + 1..]) == multiset(t) - multiset{t[k]}
  {
    assert t == t[..k] + [t[k]] + t[k + 1..];
  }

  /** Mapping two permutations of each other gives two permutations of each other. */
  lemma {:induction false} MapSeqPermutation<T, U>(s: seq<T>, t: seq<T>, f: T -> U)
    requires multiset(s) == multiset(t)
    ensures multiset(MapSeq(s, f)) == multiset(MapSeq(t, f))
    decreases |s|
  {
    if s == [] {
      assert |multiset(t)| == 0;
    } else {
      var x := s[0];
      assert s == [x] + s[1..];
      assert x in multiset(s);
      var k :| 0 <= k < |t| && t[k] == x;
      var rest := t[..k] + t[k + 1..];
      assert t == t[..k] + ([x] + t[k + 1..]);
      assert s[..0] + s[1..] == s[1..];
      RemoveAt(t, k);
      RemoveAt(s, 0);
      MapSeqPermutation(s[1..], rest, f);
      MapSeqConcat(t[..k], t[k + 1..], f);
      MapSeqConcat(t[..k], [x] + t[k + 1..], f);
      MapSeqConcat([x], t[k + 1..], f);
      MapSeqConcat([x], s[1..], f);
    }
  }

  predicate SortedBy<T>(s: seq<T>, key: T -> int) {
    forall i, j :: 0 <= i < j < |s| ==> key(s[i]) <= key(s[j])
  }

  /** Insertion sort of an array by an integer key. */
  method SortByKey<T>(a: array<T>, key: T -> int)
    modifies a
    ensures SortedBy(a[..], key)
    ensures multiset(a[..]) == multiset(old(a[..]))
  {
    var i := 0;
    while i < a.Length
      invariant 0 <= i <= a.Length
      invariant SortedBy(a[..i], key)
      invariant multiset(a[..]) == multiset(old(a[..]))
    {
      InsertInto(a, i, key);
      i := i + 1;
    }
    assert a[..a.Length] == a[..];
  }

  /** Sorted up to `hi`, except that the element at `j` may be smaller than those before it. */
  predicate SortedExcept<T>(s: seq<T>, hi: nat, j: nat, key: T -> int)
    requires hi < |s|
  {
    forall p, q :: 0 <= p < q <= hi && q != j ==> key(s[p]) <= key(s[q])
  }

  lemma SwapStep<T>(s: seq<T>, hi: nat, j: nat, key: T -> int)
    requires 0 < j <= hi < |s| && SortedExcept(s, hi, j, key) && key(s[j - 1]) > key(s[j])
    ensures SortedExcept(s[j - 1 := s[j]][j := s[j - 1]], hi, j - 1, key)
    ensures multiset(s[j - 1 := s[j]][j := s[j - 1]]) == multiset(s)
  {
    var r := s[j - 1 := s[j]][j := s[j - 1]];
    forall p, q | 0 <= p < q <= hi && q != j - 1 ensures key(r[p]) <= key(r[q]) {
      if q == j && p < j - 1 {
        assert key(s[p]) <= key(s[j - 1]);
      } else if p == j - 1 {
        assert q > j ==> key(s[j]) < key(s[j - 1]) <= key(s[q]);
      } else if p == j {
        assert key(s[j - 1]) <= key(s[q]);
      }
    }
    assert r == s[..j - 1] + [s[j], s[j - 1]] + s[j + 1..];
    assert s == s[..j - 1] + [s[j - 1], s[j]] + s[j + 1..];
  }

  /** Moves `a[i]` left past the larger elements before it, so that `a[..i + 1]` is sorted. */
  method InsertInto<T>(a: array<T>, i: nat, key: T -> int)
    requires i < a.Length && SortedBy(a[..i], key)
    modifies a
    ensures SortedBy(a[..i + 1], key)
    ensures multiset(a[..]) == multiset(old(a[..]))
  {
    var j := i;
    assert SortedExcept(a[..], i, i, key) by {
      assert forall p :: 0 <= p < i ==> a[..i][p] == a[..][p];
    }
    while j > 0 && key(a[j - 1]) > key(a[j])
      invariant 0 <= j <= i
      invariant SortedExcept(a[..], i, j, key)
      invariant multiset(a[..]) == multiset(old(a[..]))
    {
      SwapStep(a[..], i, j, key);
      a[j - 1], a[j] := a[j], a[j - 1];
      j := j - 1;
    }
    assert forall p :: 0 <= p <= i ==> a[..i + 1][p] == a[..][p];
    SortedAfterInsert(a[..i + 1], j, key);
  }

  lemma SortedAfterInsert<T>(s: seq<T>, j: nat, key: T -> int)
    requires j < |s|
    requires forall p, q :: 0 <= p < q < |s| && q != j ==> key(s[p]) <= key(s[q])
    requires j > 0 ==> key(s[j - 1]) <= key(s[j])
    ensures SortedBy(s, key)
  {
    forall p, q | 0 <= p < q < |s| ensures key(s[p]) <= key(s[q]) {
      if q == j && p < j - 1 {
        assert key(s[p]) <= key(s[j - 1]);
      }
    }
  }
}
