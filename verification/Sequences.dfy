/** Vocabulary about finite sequences shared by the models. */
module Sequences {

  datatype Option<+T> = None | Some(value: T)

  /** No element occurs twice. */
  predicate Distinct<T(==)>(s: seq<T>) {
    forall i, j :: 0 <= i < j < |s| ==> s[i] != s[j]
  }

  /** `a` can be obtained from `b` by deleting elements, keeping their order. */
  predicate Subsequence<T(==)>(a: seq<T>, b: seq<T>)
    decreases |b|
  {
    if a == [] then true
    else if b == [] then false
    else if a[|a| - 1] == b[|b| - 1] then Subsequence(a[..|a| - 1], b[..|b| - 1])
    else Subsequence(a, b[..|b| - 1])
  }

  /** `s` without its first occurrence of `x`; `s` itself when there is none. */
  function RemoveFirst<T(==)>(s: seq<T>, x: T): (r: seq<T>)
    ensures forall y :: y in r ==> y in s
    ensures forall y :: y in s && y != x ==> y in r
    ensures Distinct(s) ==> Distinct(r) && x !in r
  {
    if s == [] then []
    else if s[0] == x then
      assert Distinct(s) ==> x !in s[1..];
      s[1..]
    else
      assert Distinct(s) ==> s[0] !in s[1..];
      var rest := RemoveFirst(s[1..], x);
      assert s[0] in rest ==> s[0] in s[1..];
      [s[0]] + rest
  }

  lemma {:induction false} SubsequenceSelf<T>(a: seq<T>)
    ensures Subsequence(a, a)
  {
    if a != [] {
      SubsequenceSelf(a[..|a| - 1]);
    }
  }

  lemma {:induction false} SubsequenceExtend<T>(a: seq<T>, b: seq<T>, x: T)
    ensures Subsequence(a, b) ==> Subsequence(a + [x], b + [x])
  {
    assert (a + [x])[..|a|] == a && (b + [x])[..|b|] == b;
  }

  /** Deleting the last element keeps the relation. */
  lemma {:induction false} SubsequenceInit<T>(a: seq<T>, b: seq<T>)
    requires a != [] && Subsequence(a, b)
    ensures Subsequence(a[..|a| - 1], b)
    decreases |b|, 0
  {
    if a[|a| - 1] == b[|b| - 1] {
      SubsequenceWeaken(a[..|a| - 1], b[..|b| - 1], b[|b| - 1]);
      assert b[..|b| - 1] + [b[|b| - 1]] == b;
    } else {
      SubsequenceInit(a, b[..|b| - 1]);
      SubsequenceWeaken(a[..|a| - 1], b[..|b| - 1], b[|b| - 1]);
      assert b[..|b| - 1] + [b[|b| - 1]] == b;
    }
  }

  lemma {:induction false} SubsequenceWeaken<T>(a: seq<T>, b: seq<T>, x: T)
    requires Subsequence(a, b)
    ensures Subsequence(a, b + [x])
    decreases |b|, 1
  {
    assert (b + [x])[..|b|] == b;
    if a != [] && a[|a| - 1] == x {
      SubsequenceInit(a, b);
    }
  }

  lemma {:induction false} SubsequenceTransitive<T>(a: seq<T>, b: seq<T>, c: seq<T>)
    requires Subsequence(a, b) && Subsequence(b, c)
    ensures Subsequence(a, c)
    decreases |c|
  {
    if a != [] {
      var cs := c[..|c| - 1];
      assert cs + [c[|c| - 1]] == c;
      if b[|b| - 1] == c[|c| - 1] {
        if a[|a| - 1] == b[|b| - 1] {
          SubsequenceTransitive(a[..|a| - 1], b[..|b| - 1], cs);
        } else {
          SubsequenceTransitive(a, b[..|b| - 1], cs);
        }
      } else {
        SubsequenceTransitive(a, b, cs);
        SubsequenceWeaken(a, cs, c[|c| - 1]);
      }
    }
  }

  lemma {:induction false} SubsequenceMember<T>(a: seq<T>, b: seq<T>, x: T)
    requires Subsequence(a, b) && x in a
    ensures x in b
    decreases |b|
  {
    var bs := b[..|b| - 1];
    assert forall y :: y in bs ==> y in b;
    if a[|a| - 1] == b[|b| - 1] {
      assert a == a[..|a| - 1] + [a[|a| - 1]];
      if x in a[..|a| - 1] {
        SubsequenceMember(a[..|a| - 1], bs, x);
      }
    } else {
      SubsequenceMember(a, bs, x);
    }
  }

  /** A subsequence of a duplicate-free sequence is duplicate-free. */
  lemma {:induction false} SubsequenceDistinct<T>(a: seq<T>, b: seq<T>)
    requires Subsequence(a, b) && Distinct(b)
    ensures Distinct(a)
    decreases |b|
  {
    if a != [] {
      var bs := b[..|b| - 1];
      if a[|a| - 1] == b[|b| - 1] {
        var front := a[..|a| - 1];
        SubsequenceDistinct(front, bs);
        if b[|b| - 1] in front {
          SubsequenceMember(front, bs, b[|b| - 1]);
        }
        assert a == front + [a[|a| - 1]];
      } else {
        SubsequenceDistinct(a, bs);
      }
    }
  }

  /** Both sides may be prefixed by the same elements. */
  lemma {:induction false} SubsequencePrefix<T>(p: seq<T>, a: seq<T>, b: seq<T>)
    requires Subsequence(a, b)
    ensures Subsequence(p + a, p + b)
    decreases |b|
  {
    if b == [] {
      assert p + a == p && p + b == p;
      SubsequenceSelf(p);
    } else {
      var bs := b[..|b| - 1];
      assert (p + b)[..|p + b| - 1] == p + bs;
      assert p + b == (p + bs) + [b[|b| - 1]];
      if a != [] && a[|a| - 1] == b[|b| - 1] {
        assert (p + a)[..|p + a| - 1] == p + a[..|a| - 1];
        SubsequencePrefix(p, a[..|a| - 1], bs);
      } else {
        assert Subsequence(a, bs);
        SubsequencePrefix(p, a, bs);
        SubsequenceWeaken(p + a, p + bs, b[|b| - 1]);
      }
    }
  }

  lemma {:induction false} RemoveFirstIsSubsequence<T>(s: seq<T>, x: T)
    ensures Subsequence(RemoveFirst(s, x), s)
  {
    if s != [] {
      assert [s[0]] + s[1..] == s;
      if s[0] == x {
        TailIsSubsequence(s);
      } else {
        RemoveFirstIsSubsequence(s[1..], x);
        SubsequencePrefix([s[0]], RemoveFirst(s[1..], x), s[1..]);
      }
    }
  }

  lemma {:induction false} TailIsSubsequence<T>(s: seq<T>)
    requires s != []
    ensures Subsequence(s[1..], s)
  {
    if |s| > 1 {
      var init := s[..|s| - 1];
      TailIsSubsequence(init);
      assert s[1..][..|s[1..]| - 1] == init[1..];
    }
  }
}
