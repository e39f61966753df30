/** The array operations the handlers are built from: `filter`, `map`, `reduce` and a
    first-match lookup, each with the facts the discovery pipeline relies on. */
module Sequences {
  import opened Wrappers

  /** `s.filter(keep)`: the elements of `s` that satisfy `keep`, in their original order. */
  function Filter<T>(s: seq<T>, keep: T -> bool): (r: seq<T>)
    ensures |r| <= |s|
    decreases |s|
  {
    if s == [] then []
    else
      var init := Filter(s[..|s| - 1], keep);
      if keep(s[|s| - 1]) then init + [s[|s| - 1]] else init
  }

  /** An element is in the result of `filter` exactly when it is in the input and is kept. */
  lemma {:induction false} FilterMembers<T>(s: seq<T>, keep: T -> bool)
    ensures forall x :: x in Filter(s, keep) <==> x in s && keep(x)
    decreases |s|
  {
    if s != [] {
      var init := s[..|s| - 1];
      assert s == init + [s[|s| - 1]];
      FilterMembers(init, keep);
    }
  }

  /** Filtering `s + [x]` filters `s` and then keeps or drops `x`. */
  lemma FilterSnoc<T>(s: seq<T>, x: T, keep: T -> bool)
    ensures Filter(s + [x], keep) == Filter(s, keep) + (if keep(x) then [x] else [])
  {
    assert (s + [x])[..|s|] == s;
  }

  /** `sub` is obtained from `s` by deleting elements, keeping the order of the others. */
  ghost predicate IsSubsequence<T>(sub: seq<T>, s: seq<T>)
    decreases |s|
  {
    if sub == [] then true
    else if s == [] then false
    else
      (sub[|sub| - 1] == s[|s| - 1] && IsSubsequence(sub[..|sub| - 1], s[..|s| - 1]))
      || IsSubsequence(sub, s[..|s| - 1])
  }

  /** What `filter` returns is an order-preserving subsequence of its input. */
  lemma {:induction false} FilterIsSubsequence<T>(s: seq<T>, keep: T -> bool)
    ensures IsSubsequence(Filter(s, keep), s)
    decreases |s|
  {
    if s != [] {
      var init := s[..|s| - 1];
      FilterIsSubsequence(init, keep);
      var r := Filter(init, keep);
      if keep(s[|s| - 1]) {
        assert Filter(s, keep) == r + [s[|s| - 1]];
        assert (r + [s[|s| - 1]])[..|r|] == r;
      } else {
        assert Filter(s, keep) == r;
      }
    }
  }

  /** Being a subsequence is transitive. */
  lemma {:induction false} SubsequenceTransitive<T>(a: seq<T>, b: seq<T>, c: seq<T>)
    requires IsSubsequence(a, b) && IsSubsequence(b, c)
    ensures IsSubsequence(a, c)
    decreases |c|
  {
    if a != [] {
      assert b != [] && c != [];
      var b', c' := b[..|b| - 1], c[..|c| - 1];
      if IsSubsequence(b, c') {
        SubsequenceTransitive(a, b, c');
      } else {
        assert b[|b| - 1] == c[|c| - 1] && IsSubsequence(b', c');
        if a[|a| - 1] == b[|b| - 1] && IsSubsequence(a[..|a| - 1], b') {
          SubsequenceTransitive(a[..|a| - 1], b', c');
        } else {
          assert IsSubsequence(a, b');
          SubsequenceTransitive(a, b', c');
        }
      }
    }
  }

  /** `s.map(f)`. */
  function MapSeq<A, B>(s: seq<A>, f: A -> B): (r: seq<B>)
    ensures |r| == |s|
    ensures forall i :: 0 <= i < |s| ==> r[i] == f(s[i])
  {
    seq(|s|, i requires 0 <= i < |s| => f(s[i]))
  }

  /** Mapping every element keeps a subsequence a subsequence. */
  lemma {:induction false} SubsequenceMap<A, B>(a: seq<A>, b: seq<A>, f: A -> B)
    requires IsSubsequence(a, b)
    ensures IsSubsequence(MapSeq(a, f), MapSeq(b, f))
    decreases |b|
  {
    if a != [] {
      var a', b' := a[..|a| - 1], b[..|b| - 1];
      assert MapSeq(a, f)[..|a| - 1] == MapSeq(a', f);
      assert MapSeq(b, f)[..|b| - 1] == MapSeq(b', f);
      if a[|a| - 1] == b[|b| - 1] && IsSubsequence(a', b') {
        SubsequenceMap(a', b', f);
      } else {
        SubsequenceMap(a, b', f);
      }
    }
  }

  /** Two filters in a row keep exactly what both predicates accept, whichever runs first. */
  lemma {:induction false} FilterCommutes<T>(s: seq<T>, p: T -> bool, q: T -> bool)
    ensures Filter(Filter(s, p), q) == Filter(Filter(s, q), p)
    decreases |s|
  {
    if s != [] {
      var init, x := s[..|s| - 1], s[|s| - 1];
      assert s == init + [x];
      FilterCommutes(init, p, q);
      FilterSnoc(init, x, p);
      FilterSnoc(init, x, q);
      FilterSnoc(Filter(init, p), x, q);
      FilterSnoc(Filter(init, q), x, p);
    }
  }

  /** A filter that drops none of the elements of `s` returns `s`. */
  lemma {:induction false} FilterKeepsAll<T>(s: seq<T>, keep: T -> bool)
    requires forall x :: x in s ==> keep(x)
    ensures Filter(s, keep) == s
    decreases |s|
  {
    if s != [] {
      var init, x := s[..|s| - 1], s[|s| - 1];
      assert s == init + [x];
      FilterKeepsAll(init, keep);
      FilterSnoc(init, x, keep);
    }
  }

  /** Filtering `Filter(s, p)` by `q` is filtering `s` by `q` when `q` implies `p` on `s`. */
  lemma {:induction false} FilterAbsorbs<T>(s: seq<T>, p: T -> bool, q: T -> bool)
    requires forall x :: x in s && q(x) ==> p(x)
    ensures Filter(Filter(s, p), q) == Filter(s, q)
    decreases |s|
  {
    if s != [] {
      var init, x := s[..|s| - 1], s[|s| - 1];
      assert s == init + [x];
      FilterAbsorbs(init, p, q);
      FilterSnoc(init, x, p);
      FilterSnoc(init, x, q);
      FilterSnoc(Filter(init, p), x, q);
    }
  }

  /** `s.reduce((acc, x) => acc + score(x), 0)`: a left fold, so the last element is added last. */
  function Total<T>(s: seq<T>, score: T -> int): int
    decreases |s|
  {
    if s == [] then 0 else Total(s[..|s| - 1], score) + score(s[|s| - 1])
  }

  lemma TotalSnoc<T>(s: seq<T>, x: T, score: T -> int)
    ensures Total(s + [x], score) == Total(s, score) + score(x)
  {
    assert (s + [x])[..|s|] == s;
  }

  lemma MulSucc(k: int, n: int)
    ensures k * (n + 1) == k * n + k
  {
  }

  /** A sum of `|s|` scores that all lie in [lo, hi] lies in [lo * |s|, hi * |s|]. */
  lemma {:induction false} TotalBounds<T>(s: seq<T>, score: T -> int, lo: int, hi: int)
    requires forall x :: x in s ==> lo <= score(x) <= hi
    ensures lo * |s| <= Total(s, score) <= hi * |s|
    decreases |s|
  {
    if s != [] {
      var init := s[..|s| - 1];
      assert forall x :: x in init ==> x in s;
      assert s[|s| - 1] in s;
      TotalBounds(init, score, lo, hi);
      MulSucc(lo, |init|);
      MulSucc(hi, |init|);
    }
  }

  /** The first element of `s` that satisfies `matches` (`find`, or a `findFirst` query). */
  function FindFirst<T>(s: seq<T>, matches: T -> bool): (r: Option<T>)
    ensures r.None? <==> forall i :: 0 <= i < |s| ==> !matches(s[i])
    ensures r.Some? ==> exists i :: 0 <= i < |s| && s[i] == r.value && matches(s[i])
                         && forall j :: 0 <= j < i ==> !matches(s[j])
    decreases |s|
  {
    if s == [] then None
    else if matches(s[0]) then
      Some(s[0])
    else
      var r := FindFirst(s[1..], matches);
      assert r.Some? ==> exists i :: 0 <= i < |s| && s[i] == r.value && matches(s[i])
                                     && forall j :: 0 <= j < i ==> !matches(s[j]) by {
        if r.Some? {
          var k :| 0 <= k < |s| - 1 && s[1..][k] == r.value && matches(s[1..][k])
                   && forall j :: 0 <= j < k ==> !matches(s[1..][j]);
          assert s[k + 1] == r.value && forall j :: 0 <= j < k + 1 ==> !matches(s[j]);
        }
      }
      r
  }
}
