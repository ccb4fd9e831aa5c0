/** Sequence operations shared by the models: filtering, membership and order. */
module SeqOps {

  /** The elements of `q` that satisfy `keep`, in their original order. */
  function Filter<T>(q: seq<T>, keep: T -> bool): (r: seq<T>)
    ensures forall x :: x in r ==> x in q && keep(x)
    ensures forall x :: x in q && keep(x) ==> x in r
    ensures |r| <= |q|
  {
    if q == [] then []
    else
      var last := q[|q| - 1];
      assert q == q[..|q| - 1] + [last];
      Filter(q[..|q| - 1], keep) + (if keep(last) then [last] else [])
  }

  ghost predicate NoDup<T>(q: seq<T>) {
    forall i, j :: 0 <= i < j < |q| ==> q[i] != q[j]
  }

  /** `a` is obtained from `b` by leaving elements out, without reordering the rest. */
  ghost predicate Subsequence<T>(a: seq<T>, b: seq<T>) {
    if a == [] then true
    else if b == [] then false
    else if a[|a| - 1] == b[|b| - 1] && Subsequence(a[..|a| - 1], b[..|b| - 1]) then true
    else Subsequence(a, b[..|b| - 1])
  }

  lemma FilterAppend<T>(q: seq<T>, x: T, keep: T -> bool)
    ensures Filter(q + [x], keep) == Filter(q, keep) + (if keep(x) then [x] else [])
  {
    assert (q + [x])[..|q|] == q;
  }

  lemma {:induction false} FilterNoDup<T>(q: seq<T>, keep: T -> bool)
    requires NoDup(q)
    ensures NoDup(Filter(q, keep))
  {
    if q != [] {
      FilterNoDup(q[..|q| - 1], keep);
    }
  }

  /** Filtering keeps the position of a surviving element, or moves it forward. */
  lemma {:induction false} FilterPosition<T>(q: seq<T>, keep: T -> bool, k: nat)
    requires k < |q| && keep(q[k])
    ensures exists j :: 0 <= j <= k && j < |Filter(q, keep)| && Filter(q, keep)[j] == q[k]
  {
    var n := |q| - 1;
    var front := Filter(q[..n], keep);
    if k == n {
      assert Filter(q, keep)[|front|] == q[k];
    } else {
      FilterPosition(q[..n], keep, k);
      var j :| 0 <= j <= k && j < |front| && front[j] == q[k];
      assert Filter(q, keep)[j] == q[k];
    }
  }

  lemma {:induction false} FilterSubsequence<T>(q: seq<T>, keep: T -> bool)
    ensures Subsequence(Filter(q, keep), q)
  {
    if q != [] {
      var q' := q[..|q| - 1];
      FilterSubsequence(q', keep);
      var r := Filter(q, keep);
      if keep(q[|q| - 1]) {
        assert r[..|r| - 1] == Filter(q', keep);
      } else {
        assert r == Filter(q', keep);
        assert r != [] ==> r[|r| - 1] in r;
      }
    }
  }

  lemma {:induction false} SubsequenceRefl<T>(a: seq<T>)
    ensures Subsequence(a, a)
  {
    if a != [] {
      SubsequenceRefl(a[..|a| - 1]);
    }
  }

  /** Dropping the last element of the shorter sequence keeps it a subsequence. */
  lemma {:induction false} SubsequenceDropLast<T>(a: seq<T>, b: seq<T>)
    requires a != [] && Subsequence(a, b)
    ensures Subsequence(a[..|a| - 1], b)
    decreases |b|
  {
    var a', b' := a[..|a| - 1], b[..|b| - 1];
    if a[|a| - 1] == b[|b| - 1] && Subsequence(a', b') {
      if a' != [] && a'[|a'| - 1] == b[|b| - 1] {
        SubsequenceDropLast(a', b');
      }
    } else {
      SubsequenceDropLast(a, b');
      if a' != [] && a'[|a'| - 1] == b[|b| - 1] {
        SubsequenceDropLast(a', b');
      }
    }
  }

  lemma {:induction false} SubsequenceTrans<T>(a: seq<T>, b: seq<T>, c: seq<T>)
    requires Subsequence(a, b) && Subsequence(b, c)
    ensures Subsequence(a, c)
    decreases |c|
  {
    if a != [] {
      var b', c' := b[..|b| - 1], c[..|c| - 1];
      if b[|b| - 1] == c[|c| - 1] && Subsequence(b', c') {
        if a[|a| - 1] == b[|b| - 1] && Subsequence(a[..|a| - 1], b') {
          SubsequenceTrans(a[..|a| - 1], b', c');
        } else {
          SubsequenceTrans(a, b', c');
          if a[|a| - 1] == c[|c| - 1] {
            SubsequenceDropLast(a, c');
          }
        }
      } else {
        SubsequenceTrans(a, b, c');
        if a[|a| - 1] == c[|c| - 1] {
          SubsequenceDropLast(a, c');
        }
      }
    }
  }

  lemma {:induction false} SubsequenceConcat<T>(p: seq<T>, a: seq<T>, b: seq<T>)
    requires Subsequence(a, b)
    ensures Subsequence(p + a, p + b)
    decreases |b|
  {
    if a == [] {
      SubsequencePrefix(p, b);
      assert p + a == p;
    } else {
      var a', b' := a[..|a| - 1], b[..|b| - 1];
      assert (p + b)[..|p + b| - 1] == p + b';
      assert (p + a)[..|p + a| - 1] == p + a';
      if a[|a| - 1] == b[|b| - 1] && Subsequence(a', b') {
        SubsequenceConcat(p, a', b');
      } else {
        SubsequenceConcat(p, a, b');
        if (p + a)[|p + a| - 1] == (p + b)[|p + b| - 1] {
          SubsequenceDropLast(p + a, p + b');
        }
      }
    }
  }

  lemma {:induction false} SubsequencePrefix<T>(p: seq<T>, b: seq<T>)
    ensures Subsequence(p, p + b)
  {
    if b == [] {
      assert p + b == p;
      SubsequenceRefl(p);
    } else {
      var b' := b[..|b| - 1];
      SubsequencePrefix(p, b');
      assert (p + b)[..|p + b| - 1] == p + b';
      if p != [] {
        SubsequenceDropLast(p, p + b');
      }
    }
  }

  /** Appending the same element to both sides keeps the relation. */
  lemma SubsequenceSnoc<T>(a: seq<T>, b: seq<T>, x: T)
    requires Subsequence(a, b)
    ensures Subsequence(a + [x], b + [x])
  {
    assert (a + [x])[..|a|] == a;
    assert (b + [x])[..|b|] == b;
  }

  lemma {:induction false} SubsequenceAppend<T>(a: seq<T>, b: seq<T>, c: seq<T>)
    requires Subsequence(a, b)
    ensures Subsequence(a + c, b + c)
  {
    if c == [] {
      assert a + c == a && b + c == b;
    } else {
      var c', x := c[..|c| - 1], c[|c| - 1];
      SubsequenceAppend(a, b, c');
      SubsequenceSnoc(a + c', b + c', x);
      assert a + c == a + c' + [x] && b + c == b + c' + [x];
    }
  }

  /** All the batches, one after another. */
  function Flatten<T>(batches: seq<seq<T>>): seq<T> {
    if batches == [] then [] else Flatten(batches[..|batches| - 1]) + batches[|batches| - 1]
  }

  /** Filtering keeps every occurrence of what it keeps, and no occurrence of anything else. */
  lemma {:induction false} FilterCounts<T>(q: seq<T>, keep: T -> bool, x: T)
    ensures multiset(Filter(q, keep))[x] == if keep(x) then multiset(q)[x] else 0
  {
    if q != [] {
      FilterCounts(q[..|q| - 1], keep, x);
      assert q == q[..|q| - 1] + [q[|q| - 1]];
    }
  }

  lemma FilterPartition<T(!new)>(q: seq<T>, keep: T -> bool, drop: T -> bool)
    requires forall x :: keep(x) <==> !drop(x)
    ensures multiset(q) == multiset(Filter(q, keep)) + multiset(Filter(q, drop))
  {
    forall x ensures multiset(q)[x] == multiset(Filter(q, keep))[x] + multiset(Filter(q, drop))[x] {
      FilterCounts(q, keep, x);
      FilterCounts(q, drop, x);
    }
  }

  /** Distinct indices below n are at most n many. */
  lemma {:induction false} NoDupBound(s: seq<nat>, n: nat)
    requires NoDup(s) && forall x :: x in s ==> x < n
    ensures |s| <= n
  {
    if s != [] {
      assert s[0] in s;
      if k :| 0 <= k < |s| && s[k] == n - 1 {
        var rest := s[..k] + s[k + 1..];
        assert forall i :: 0 <= i < |rest| ==> rest[i] == if i < k then s[i] else s[i + 1];
        assert forall x :: x in rest ==> x in s && x != n - 1;
        NoDupBound(rest, n - 1);
      } else {
        assert forall x :: x in s ==> x < n - 1;
        NoDupBound(s, n - 1);
      }
    }
  }

  lemma Assoc<T>(a: seq<T>, b: seq<T>, c: seq<T>)
    ensures a + (b + c) == a + b + c
  {
  }

  lemma {:induction false} FilterConcat<T>(a: seq<T>, b: seq<T>, keep: T -> bool)
    ensures Filter(a + b, keep) == Filter(a, keep) + Filter(b, keep)
  {
    hide Filter;
    FilterEmpty(keep);
    if b == [] {
      assert a + b == a && Filter(a, keep) + [] == Filter(a, keep);
    } else {
      var b', x := b[..|b| - 1], b[|b| - 1];
      FilterConcat(a, b', keep);
      Assoc(a, b', [x]);
      assert b == b' + [x];
      FilterAppend(a + b', x, keep);
      FilterAppend(b', x, keep);
      Assoc(Filter(a, keep), Filter(b', keep), if keep(x) then [x] else []);
    }
  }

  lemma FilterEmpty<T>(keep: T -> bool)
    ensures Filter([], keep) == []
  {
  }

  lemma {:induction false} FilterAgree<T>(q: seq<T>, keep: T -> bool, keep': T -> bool)
    requires forall x :: x in q ==> keep(x) == keep'(x)
    ensures Filter(q, keep) == Filter(q, keep')
  {
    if q != [] {
      FilterAgree(q[..|q| - 1], keep, keep');
    }
  }

  lemma {:induction false} FilterTwice<T>(q: seq<T>, keep: T -> bool, keep': T -> bool, both: T -> bool)
    requires forall x :: x in q ==> (both(x) <==> keep(x) && keep'(x))
    ensures Filter(Filter(q, keep), keep') == Filter(q, both)
  {
    hide Filter;
    FilterEmpty(keep);
    FilterEmpty(keep');
    FilterEmpty(both);
    if q != [] {
      var front, x := q[..|q| - 1], q[|q| - 1];
      assert q == front + [x];
      FilterTwice(front, keep, keep', both);
      FilterAppend(front, x, keep);
      FilterAppend(front, x, both);
      if keep(x) {
        FilterAppend(Filter(front, keep), x, keep');
      } else {
        assert Filter(front, keep) + [] == Filter(front, keep);
      }
    }
  }

  lemma NoDupConcat<T>(a: seq<T>, b: seq<T>)
    requires NoDup(a) && NoDup(b) && forall x :: x in a ==> x !in b
    ensures NoDup(a + b)
  {
    forall i, j | 0 <= i < j < |a + b| ensures (a + b)[i] != (a + b)[j] {
      if i < |a| <= j {
        assert (a + b)[i] in a && (a + b)[j] in b;
      }
    }
  }

  lemma MultisetTail<T>(a: seq<T>)
    requires a != []
    ensures multiset(a) == multiset{a[0]} + multiset(a[1..])
  {
    assert a == [a[0]] + a[1..];
  }

  lemma {:induction false} CountNoDup<T>(q: seq<T>, x: T)
    requires NoDup(q)
    ensures multiset(q)[x] == if x in q then 1 else 0
  {
    if q != [] {
      CountNoDup(q[1..], x);
      MultisetTail(q);
      assert q == [q[0]] + q[1..];
    }
  }

  lemma SubsetShorter<T>(a: seq<T>, b: seq<T>)
    requires NoDup(a) && forall x :: x in a ==> x in b
    ensures |a| <= |b|
  {
    forall x | x in multiset(a) ensures multiset(a)[x] <= multiset(b)[x] {
      CountNoDup(a, x);
      assert x in b;
    }
    assert multiset(b) == multiset(a) + (multiset(b) - multiset(a));
    assert |multiset(a)| == |a| && |multiset(b)| == |b|;
  }

  lemma FilterPair<T>(x: T, y: T, keep: T -> bool)
    requires keep(x) && keep(y)
    ensures Filter([x, y], keep) == [x, y]
  {
    FilterAppend([], x, keep);
    FilterAppend([x], y, keep);
    assert [] + [x] == [x] && [x] + [y] == [x, y];
  }

  lemma Join<T>(t: T, a: seq<T>, b: seq<T>, c: seq<T>, d: seq<T>)
    requires NoDup(a) && NoDup(b) && NoDup(c) && NoDup(d)
    requires forall x :: x in a ==> x !in b && x !in c && x !in d
    requires forall x :: x in b ==> x !in c && x !in d
    requires forall x :: x in c ==> x !in d
    requires t !in a && t !in b && t !in c && t !in d
    ensures NoDup([t] + (a + b + (c + d)))
  {
    NoDupConcat(a, b);
    NoDupConcat(c, d);
    NoDupConcat(a + b, c + d);
    NoDupConcat([t], a + b + (c + d));
  }
}
