/** Sequence operations the components use on JavaScript arrays: `filter`,
    `map` of a field, and the insertion-order iteration of a `Set`, with the
    order-preserving subsequence relation that relates their results to their
    inputs. */
module Seqs {

  /** `r` is obtained from `s` by deleting elements, keeping the order of the rest. */
  predicate Subseq<T(==,!new)>(r: seq<T>, s: seq<T>)
  {
    if r == [] then true
    else if s == [] then false
    else if r[0] == s[0] then Subseq(r[1..], s[1..])
    else Subseq(r, s[1..])
  }

  /** No element occurs twice. */
  predicate NoDup<T(==,!new)>(s: seq<T>)
  {
    forall i, j :: 0 <= i < j < |s| ==> s[i] != s[j]
  }

  /** `s.filter(p)`: every element of `s` that satisfies `p`, each occurrence
      kept, in the original order; nothing else. */
  function Filter<T(==,!new)>(s: seq<T>, p: T -> bool): (r: seq<T>)
    ensures Subseq(r, s)
    ensures forall x :: x in r <==> x in s && p(x)
  {
    if s == [] then []
    else
      var rest := Filter(s[1..], p);
      assert s == [s[0]] + s[1..];
      if p(s[0]) then
        assert ([s[0]] + rest)[1..] == rest;
        [s[0]] + rest
      else
        assert rest != [] ==> rest[0] != s[0] by {
          if rest != [] { assert rest[0] in rest; }
        }
        rest
  }

  /** The filter keeps every occurrence of a passing element and none of a failing one. */
  lemma {:induction false} FilterCount<T(!new)>(s: seq<T>, p: T -> bool)
    ensures forall x :: multiset(Filter(s, p))[x] == if p(x) then multiset(s)[x] else 0
  {
    if s != [] {
      FilterCount(s[1..], p);
      assert s == [s[0]] + s[1..];
    }
  }

  /** A subsequence holds no element its source lacks and is no longer. */
  lemma {:induction false} SubseqElements<T(!new)>(r: seq<T>, s: seq<T>)
    requires Subseq(r, s)
    ensures |r| <= |s|
    ensures forall x :: x in r ==> x in s
  {
    if r != [] {
      assert s != [];
      if r[0] == s[0] {
        SubseqElements(r[1..], s[1..]);
        forall x | x in r ensures x in s {
          if x != r[0] { assert x in r[1..]; }
        }
      } else {
        SubseqElements(r, s[1..]);
      }
    }
  }

  /** Filtering with two predicates that agree on the elements gives the same result. */
  lemma {:induction false} FilterExt<T(!new)>(s: seq<T>, p: T -> bool, q: T -> bool)
    requires forall x :: x in s ==> p(x) == q(x)
    ensures Filter(s, p) == Filter(s, q)
  {
    if s != [] {
      assert forall x :: x in s[1..] ==> x in s;
      FilterExt(s[1..], p, q);
    }
  }

  /** A filter that every element passes returns its input unchanged. */
  lemma {:induction false} FilterKeepsAll<T(!new)>(s: seq<T>, p: T -> bool)
    requires forall x :: x in s ==> p(x)
    ensures Filter(s, p) == s
  {
    if s != [] {
      assert forall x :: x in s[1..] ==> x in s;
      FilterKeepsAll(s[1..], p);
      assert s == [s[0]] + s[1..];
    }
  }

  /** Dropping the head keeps a sequence free of repetitions, and the head does
      not reappear. */
  lemma NoDupTail<T(!new)>(s: seq<T>)
    requires NoDup(s) && s != []
    ensures NoDup(s[1..]) && s[0] !in s[1..]
  {
    forall i, j | 0 <= i < j < |s[1..]| ensures s[1..][i] != s[1..][j] {
      assert s[1..][i] == s[i + 1] && s[1..][j] == s[j + 1];
    }
    forall k | 0 <= k < |s[1..]| ensures s[1..][k] != s[0] {
      assert s[1..][k] == s[k + 1];
    }
  }

  /** An element absent from a repetition-free sequence can be put in front of it. */
  lemma NoDupCons<T(!new)>(x: T, t: seq<T>)
    requires NoDup(t) && x !in t
    ensures NoDup([x] + t)
  {
    var r := [x] + t;
    forall i, j | 0 <= i < j < |r| ensures r[i] != r[j] {
      assert r[j] == t[j - 1];
      if i > 0 { assert r[i] == t[i - 1]; }
    }
  }

  /** The filter of a sequence without repetitions has none either. */
  lemma {:induction false} FilterNoDup<T(!new)>(s: seq<T>, p: T -> bool)
    requires NoDup(s)
    ensures NoDup(Filter(s, p))
  {
    if s != [] {
      NoDupTail(s);
      FilterNoDup(s[1..], p);
      if p(s[0]) {
        NoDupCons(s[0], Filter(s[1..], p));
      }
    }
  }

  /** Index of the first occurrence of `x` in `s`. */
  function FirstIndex<T(==,!new)>(s: seq<T>, x: T): (k: nat)
    requires x in s
    ensures k < |s| && s[k] == x
    ensures forall j :: 0 <= j < k ==> s[j] != x
  {
    if s[0] == x then 0 else 1 + FirstIndex(s[1..], x)
  }

  /** The elements of `s` without repetitions, in the order of their first
      occurrence: the iteration order of `new Set(s)`. */
  function Distinct<T(==,!new)>(s: seq<T>): (r: seq<T>)
    ensures forall x :: x in r <==> x in s
    ensures NoDup(r)
  {
    if s == [] then []
    else
      var init := s[..|s| - 1];
      var d := Distinct(init);
      assert forall x :: x in s <==> x in init || x == s[|s| - 1] by {
        assert s == init + [s[|s| - 1]];
      }
      if s[|s| - 1] in d then d
      else
        var r := d + [s[|s| - 1]];
        assert forall i :: 0 <= i < |d| ==> r[i] == d[i];
        r
  }

  /** A first occurrence found in a prefix is the first occurrence in the whole
      sequence. */
  lemma FirstIndexPrefix<T(!new)>(s: seq<T>, n: nat, x: T)
    requires n <= |s| && x in s[..n]
    ensures FirstIndex(s, x) == FirstIndex(s[..n], x)
  {
    var k := FirstIndex(s[..n], x);
    assert forall j :: 0 <= j < n ==> s[..n][j] == s[j];
  }

  /** `Distinct` lists the elements in strictly increasing order of their first
      occurrence in `s`. */
  lemma {:induction false} DistinctFirstAppearance<T(!new)>(s: seq<T>, i: nat, j: nat)
    requires i < j < |Distinct(s)|
    ensures Distinct(s)[i] in s && Distinct(s)[j] in s
    ensures FirstIndex(s, Distinct(s)[i]) < FirstIndex(s, Distinct(s)[j])
  {
    var r := Distinct(s);
    assert r[i] in r && r[j] in r;
    var n := |s| - 1;
    var init := s[..n];
    var d := Distinct(init);
    assert s == init + [s[n]];
    if s[n] in d {
      DistinctFirstAppearance(init, i, j);
      assert d[i] in init && d[j] in init;
      FirstIndexPrefix(s, n, d[i]);
      FirstIndexPrefix(s, n, d[j]);
    } else {
      assert r == d + [s[n]];
      if j < |d| {
        assert r[i] == d[i] && r[j] == d[j];
        DistinctFirstAppearance(init, i, j);
        FirstIndexPrefix(s, n, d[i]);
        FirstIndexPrefix(s, n, d[j]);
      } else {
        assert r[j] == s[n] && s[n] !in init;
        assert r[i] == d[i] && d[i] in d && d[i] in init;
        FirstIndexPrefix(s, n, d[i]);
        assert FirstIndex(s, s[n]) == n by {
          assert forall k :: 0 <= k < n ==> s[k] == init[k] && init[k] in init;
        }
      }
    }
  }

  /** The elements of `d` occur in `s`, in increasing order of their first occurrence there. */
  ghost predicate FirstAppearanceOrder<T(!new)>(s: seq<T>, d: seq<T>)
  {
    forall i, j :: 0 <= i < j < |d| ==> d[i] in s && d[j] in s && FirstIndex(s, d[i]) < FirstIndex(s, d[j])
  }

  /** `Distinct` lists the elements of `s` in the order of their first occurrence. */
  lemma DistinctInFirstAppearanceOrder<T(!new)>(s: seq<T>)
    ensures FirstAppearanceOrder(s, Distinct(s))
  {
    forall i, j | 0 <= i < j < |Distinct(s)|
      ensures Distinct(s)[i] in s && Distinct(s)[j] in s && FirstIndex(s, Distinct(s)[i]) < FirstIndex(s, Distinct(s)[j])
    {
      DistinctFirstAppearance(s, i, j);
    }
  }
}
