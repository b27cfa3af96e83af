/** Sequence operations behind the source's `filter`, `new Set(...)` and `reverse` calls. */
module Seqs {

  /** `r` can be obtained from `s` by deleting elements (greedy match from the front). */
  predicate IsSubseq<T(==,!new)>(r: seq<T>, s: seq<T>)
    decreases |s|
  {
    if |r| == 0 then true
    else if |s| == 0 then false
    else if r[0] == s[0] then IsSubseq(r[1..], s[1..])
    else IsSubseq(r, s[1..])
  }

  /** `s.filter(f)`: exactly the elements satisfying `f`, as often as in `s`, in their order. */
  function Filter<T(==,!new)>(s: seq<T>, f: T -> bool): (r: seq<T>)
    ensures |r| <= |s|
    ensures forall i :: 0 <= i < |r| ==> f(r[i])
    ensures forall x :: x in r <==> x in s && f(x)
    ensures forall x :: multiset(r)[x] == if f(x) then multiset(s)[x] else 0
    decreases |s|
  {
    if |s| == 0 then []
    else
      var t := Filter(s[1..], f);
      assert s == [s[0]] + s[1..];
      assert multiset(s) == multiset{s[0]} + multiset(s[1..]);
      if f(s[0]) then [s[0]] + t else t
  }

  /** What survives a filter keeps its relative order. */
  lemma {:induction false} FilterSubseq<T(!new)>(s: seq<T>, f: T -> bool)
    ensures IsSubseq(Filter(s, f), s)
    decreases |s|
  {
    if |s| > 0 {
      FilterSubseq(s[1..], f);
      var t := Filter(s[1..], f);
      assert s == [s[0]] + s[1..];
      if !f(s[0]) {
        assert |t| > 0 ==> t[0] != s[0];
      }
    }
  }

  /** A prefix of a subsequence is still a subsequence. */
  lemma {:induction false} PrefixSubseq<T(!new)>(r: seq<T>, s: seq<T>, n: nat)
    requires IsSubseq(r, s) && n <= |r|
    ensures IsSubseq(r[..n], s)
    decreases |s|
  {
    if n > 0 {
      if r[0] == s[0] {
        PrefixSubseq(r[1..], s[1..], n - 1);
        assert r[..n][1..] == r[1..][..n - 1];
      } else {
        PrefixSubseq(r, s[1..], n);
      }
    }
  }

  /** Filtering a sequence all of whose elements pass leaves it unchanged. */
  lemma {:induction false} FilterAll<T(!new)>(s: seq<T>, f: T -> bool)
    requires forall i :: 0 <= i < |s| ==> f(s[i])
    ensures Filter(s, f) == s
    decreases |s|
  {
    if |s| > 0 {
      FilterAll(s[1..], f);
    }
  }

  /** Filtering distributes over concatenation, so relative order is kept. */
  lemma {:induction false} FilterConcat<T(!new)>(a: seq<T>, b: seq<T>, f: T -> bool)
    ensures Filter(a + b, f) == Filter(a, f) + Filter(b, f)
    decreases |a|
  {
    if |a| > 0 {
      assert (a + b)[1..] == a[1..] + b;
      FilterConcat(a[1..], b, f);
    } else {
      assert a + b == b;
    }
  }

  /** No element occurs twice. */
  predicate Distinct<T(==,!new)>(s: seq<T>)
  {
    forall i, j :: 0 <= i < j < |s| ==> s[i] != s[j]
  }

  /** The head of a sequence without duplicates does not occur in its tail. */
  lemma DistinctHead<T(!new)>(s: seq<T>)
    requires |s| > 0 && Distinct(s)
    ensures s[0] !in s[1..]
  {
    var t := s[1..];
    assert forall m :: 0 <= m < |t| ==> t[m] == s[m + 1];
  }

  lemma DistinctCons<T(!new)>(x: T, s: seq<T>)
    requires Distinct(s) && x !in s
    ensures Distinct([x] + s)
  {
    var r := [x] + s;
    assert forall m :: 0 < m < |r| ==> r[m] == s[m - 1];
  }

  /** `s` with every occurrence of `x` removed. */
  function Without<T(==,!new)>(s: seq<T>, x: T): (r: seq<T>)
    ensures forall y :: y in r <==> y in s && y != x
    ensures |r| <= |s|
    decreases |s|
  {
    if |s| == 0 then []
    else if s[|s| - 1] == x then Without(s[..|s| - 1], x)
    else Without(s[..|s| - 1], x) + [s[|s| - 1]]
  }

  /** `[...new Set(s)]`: each element is added in turn and kept only the first time it is
      seen. */
  function Dedupe<T(==,!new)>(s: seq<T>): (r: seq<T>)
    ensures Distinct(r)
    ensures forall x :: x in r <==> x in s
    ensures |r| <= |s|
    decreases |s|
  {
    if |s| == 0 then []
    else
      var p := Dedupe(s[..|s| - 1]);
      assert forall x :: x in s <==> x in s[..|s| - 1] || x == s[|s| - 1] by {
        assert s == s[..|s| - 1] + [s[|s| - 1]];
      }
      if s[|s| - 1] in p then p else p + [s[|s| - 1]]
  }

  lemma {:induction false} DedupeSnoc<T(!new)>(s: seq<T>, y: T)
    ensures Dedupe(s + [y]) == if y in Dedupe(s) then Dedupe(s) else Dedupe(s) + [y]
  {
    assert (s + [y])[..|s|] == s;
  }

  lemma WithoutSnoc<T(!new)>(s: seq<T>, y: T, x: T)
    ensures Without(s + [y], x) == if y == x then Without(s, x) else Without(s, x) + [y]
  {
    assert (s + [y])[..|s|] == s;
  }

  /** The first-occurrence law: the head is kept and its later copies are dropped. Together
      with `Dedupe([]) == []` this determines `Dedupe` completely. */
  lemma {:induction false} DedupeCons<T(!new)>(x: T, t: seq<T>)
    ensures Dedupe([x] + t) == [x] + Dedupe(Without(t, x))
    decreases |t|
  {
    if |t| == 0 {
      assert [x][..0] == [];
      assert Dedupe([x]) == [x];
      assert Without(t, x) == [];
    } else {
      var t', y := t[..|t| - 1], t[|t| - 1];
      assert t == t' + [y];
      DedupeCons(x, t');
      DedupeConsStep(x, t', y);
    }
  }

  lemma DedupeConsStep<T(!new)>(x: T, t: seq<T>, y: T)
    requires Dedupe([x] + t) == [x] + Dedupe(Without(t, x))
    ensures Dedupe([x] + (t + [y])) == [x] + Dedupe(Without(t + [y], x))
  {
    assert [x] + (t + [y]) == ([x] + t) + [y];
    DedupeSnoc([x] + t, y);
    if y != x {
      DedupeConsNew(x, t, y);
    } else {
      DedupeConsRepeat(x, t);
    }
  }

  lemma DedupeConsNew<T(!new)>(x: T, t: seq<T>, y: T)
    requires y != x
    ensures var q := Dedupe(Without(t, x));
      (if y in [x] + q then [x] + q else ([x] + q) + [y]) == [x] + Dedupe(Without(t + [y], x))
  {
    var q := Dedupe(Without(t, x));
    PrependKeeps(x, q, y);
    DedupeSnoc(Without(t, x), y);
    WithoutSnoc(t, y, x);
  }

  lemma DedupeConsRepeat<T(!new)>(x: T, t: seq<T>)
    ensures Dedupe(Without(t + [x], x)) == Dedupe(Without(t, x))
  {
    WithoutSnoc(t, x, x);
  }

  lemma PrependKeeps<T(!new)>(x: T, q: seq<T>, y: T)
    requires y != x
    ensures (if y in [x] + q then [x] + q else ([x] + q) + [y])
         == [x] + (if y in q then q else q + [y])
  {
    assert y in [x] + q <==> y in q;
    assert ([x] + q) + [y] == [x] + (q + [y]);
  }

  /** De-duplicating a sequence that has no duplicates returns it unchanged. */
  lemma {:induction false} DedupeDistinct<T(!new)>(s: seq<T>)
    requires Distinct(s)
    ensures Dedupe(s) == s
    decreases |s|
  {
    if |s| > 0 {
      var p := s[..|s| - 1];
      assert Distinct(p);
      DedupeDistinct(p);
      assert s[|s| - 1] !in p;
      assert p + [s[|s| - 1]] == s;
    }
  }

  /** A prefix one longer is the prefix and the next element. */
  lemma PrefixSnoc<T>(s: seq<T>, i: nat)
    requires i < |s|
    ensures s[..i + 1] == s[..i] + [s[i]]
  {
  }

  /** `s.reverse()`. */
  function Reverse<T>(s: seq<T>): (r: seq<T>)
    ensures |r| == |s|
    ensures forall i :: 0 <= i < |s| ==> r[i] == s[|s| - 1 - i]
    decreases |s|
  {
    if |s| == 0 then [] else [s[|s| - 1]] + Reverse(s[..|s| - 1])
  }
}
