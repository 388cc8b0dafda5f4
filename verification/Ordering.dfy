/** Lexicographic order and canonical sorting, as the built-in `sorted` applies them to lists of strings. */
module Ordering {

  ghost predicate TotalOrder<T(!new)>(le: (T, T) -> bool) {
    && (forall x, y :: le(x, y) || le(y, x))
    && (forall x, y :: le(x, y) && le(y, x) ==> x == y)
    && (forall x, y, z :: le(x, y) && le(y, z) ==> le(x, z))
  }

  function Lex<T(==)>(le: (T, T) -> bool, a: seq<T>, b: seq<T>): bool {
    if a == [] || b == [] then a == []
    else if a[0] == b[0] then Lex(le, a[1..], b[1..])
    else le(a[0], b[0])
  }

  lemma {:induction false} LexIsTotal<T(!new)>(le: (T, T) -> bool, a: seq<T>, b: seq<T>)
    requires TotalOrder(le)
    ensures Lex(le, a, b) || Lex(le, b, a)
    ensures Lex(le, a, b) && Lex(le, b, a) ==> a == b
  {
    if a != [] && b != [] && a[0] == b[0] {
      LexIsTotal(le, a[1..], b[1..]);
      assert a == [a[0]] + a[1..] && b == [b[0]] + b[1..];
    }
  }

  lemma {:induction false} LexIsTransitive<T(!new)>(le: (T, T) -> bool, a: seq<T>, b: seq<T>, c: seq<T>)
    requires TotalOrder(le)
    ensures Lex(le, a, b) && Lex(le, b, c) ==> Lex(le, a, c)
  {
    if a != [] && b != [] && c != [] {
      LexIsTransitive(le, a[1..], b[1..], c[1..]);
    }
  }

  /** Up to `k` the two agree, and there the first one ends or has the smaller element. */
  ghost predicate PartsAt<T(!new)>(smaller: (T, T) -> bool, a: seq<T>, b: seq<T>, k: nat) {
    k <= |a| && k <= |b| && a[..k] == b[..k] && (k == |a| || (k < |b| && smaller(a[k], b[k])))
  }

  lemma {:induction false} PartsDecide<T(!new)>(le: (T, T) -> bool, smaller: (T, T) -> bool, a: seq<T>, b: seq<T>, k: nat)
    requires (forall x, y :: smaller(x, y) <==> le(x, y) && x != y) && PartsAt(smaller, a, b, k)
    ensures Lex(le, a, b)
    decreases k
  {
    if k > 0 {
      assert a[0] == a[..k][0] && b[0] == b[..k][0];
      assert a[1..][..k - 1] == a[..k][1..] && b[1..][..k - 1] == b[..k][1..];
      PartsDecide(le, smaller, a[1..], b[1..], k - 1);
    }
  }

  lemma {:induction false} LexParts<T(!new)>(le: (T, T) -> bool, smaller: (T, T) -> bool, a: seq<T>, b: seq<T>)
    returns (k: nat)
    requires (forall x, y :: smaller(x, y) <==> le(x, y) && x != y) && Lex(le, a, b)
    ensures PartsAt(smaller, a, b, k)
  {
    if a == [] || a[0] != b[0] {
      k := 0;
    } else {
      var n := LexParts(le, smaller, a[1..], b[1..]);
      k := n + 1;
      assert a[..k] == [a[0]] + a[1..][..n] && b[..k] == [b[0]] + b[1..][..n];
    }
  }

  /** The order is decided where the two first differ. */
  lemma LexMeans<T(!new)>(le: (T, T) -> bool, smaller: (T, T) -> bool, a: seq<T>, b: seq<T>)
    requires forall x, y :: smaller(x, y) <==> le(x, y) && x != y
    ensures Lex(le, a, b) <==> exists k: nat :: PartsAt(smaller, a, b, k)
  {
    hide Lex, PartsAt;
    if Lex(le, a, b) {
      var k := LexParts(le, smaller, a, b);
    }
    if k: nat :| PartsAt(smaller, a, b, k) {
      PartsDecide(le, smaller, a, b, k);
    }
  }

  function CharLe(x: char, y: char): bool {
    x <= y
  }

  function StringLe(a: string, b: string): bool {
    Lex(CharLe, a, b)
  }

  function StringsLe(a: seq<string>, b: seq<string>): bool {
    Lex(StringLe, a, b)
  }

  lemma StringLeIsTotalOrder()
    ensures TotalOrder(StringLe)
  {
    assert TotalOrder(CharLe);
    forall x, y: string ensures (StringLe(x, y) || StringLe(y, x)) && (StringLe(x, y) && StringLe(y, x) ==> x == y) {
      LexIsTotal(CharLe, x, y);
    }
    forall x, y, z: string ensures StringLe(x, y) && StringLe(y, z) ==> StringLe(x, z) {
      LexIsTransitive(CharLe, x, y, z);
    }
  }

  lemma StringsLeIsTotalOrder()
    ensures TotalOrder(StringsLe)
  {
    StringLeIsTotalOrder();
    forall x, y: seq<string>
      ensures (StringsLe(x, y) || StringsLe(y, x)) && (StringsLe(x, y) && StringsLe(y, x) ==> x == y)
    {
      LexIsTotal(StringLe, x, y);
    }
    forall x, y, z: seq<string> ensures StringsLe(x, y) && StringsLe(y, z) ==> StringsLe(x, z) {
      LexIsTransitive(StringLe, x, y, z);
    }
  }

  // ---------------------------------------------------------------- sorting

  ghost predicate Ascending<T(!new)>(le: (T, T) -> bool, s: seq<T>) {
    forall i, j | 0 <= i < j < |s| :: le(s[i], s[j])
  }

  function Insert<T>(le: (T, T) -> bool, s: seq<T>, x: T): (r: seq<T>)
    ensures multiset(r) == multiset(s) + multiset{x}
  {
    if s == [] then [x]
    else if le(x, s[0]) then [x] + s
    else
      assert s == [s[0]] + s[1..];
      [s[0]] + Insert(le, s[1..], x)
  }

  function Sort<T>(le: (T, T) -> bool, s: seq<T>): (r: seq<T>)
    ensures multiset(r) == multiset(s)
  {
    if s == [] then []
    else
      assert s == s[..|s| - 1] + [s[|s| - 1]];
      Insert(le, Sort(le, s[..|s| - 1]), s[|s| - 1])
  }

  lemma {:induction false} InsertAscending<T(!new)>(le: (T, T) -> bool, s: seq<T>, x: T)
    requires TotalOrder(le) && Ascending(le, s)
    ensures Ascending(le, Insert(le, s, x))
  {
    if s != [] && !le(x, s[0]) {
      InsertAscending(le, s[1..], x);
      var rest := Insert(le, s[1..], x);
      forall y | y in rest ensures le(s[0], y) {
        assert y in multiset(rest);
        assert y == x || y in s[1..];
      }
    }
  }

  lemma {:induction false} SortAscending<T(!new)>(le: (T, T) -> bool, s: seq<T>)
    requires TotalOrder(le)
    ensures Ascending(le, Sort(le, s))
  {
    if s != [] {
      SortAscending(le, s[..|s| - 1]);
      InsertAscending(le, Sort(le, s[..|s| - 1]), s[|s| - 1]);
    }
  }

  lemma AscendingHead<T(!new)>(le: (T, T) -> bool, a: seq<T>, x: T)
    requires TotalOrder(le) && Ascending(le, a) && a != [] && x in multiset(a)
    ensures le(a[0], x)
  {
    assert x in a;
  }

  lemma TailElements<T>(a: seq<T>)
    requires a != []
    ensures a == [a[0]] + a[1..] && multiset(a[1..]) == multiset(a) - multiset{a[0]}
  {
    assert a == [a[0]] + a[1..];
  }

  lemma Antisymmetric<T(!new)>(le: (T, T) -> bool, x: T, y: T)
    requires TotalOrder(le) && le(x, y) && le(y, x)
    ensures x == y
  {
  }

  /** There is only one ascending arrangement of given elements. */
  lemma {:induction false} AscendingIsUnique<T(!new)>(le: (T, T) -> bool, a: seq<T>, b: seq<T>)
    requires TotalOrder(le) && Ascending(le, a) && Ascending(le, b) && multiset(a) == multiset(b)
    ensures a == b
  {
    hide TotalOrder;
    assert |a| == |multiset(a)| == |multiset(b)| == |b|;
    if a != [] {
      assert b[0] in multiset(b) && a[0] in multiset(a);
      AscendingHead(le, a, b[0]);
      AscendingHead(le, b, a[0]);
      Antisymmetric(le, a[0], b[0]);
      TailElements(a);
      TailElements(b);
      AscendingIsUnique(le, a[1..], b[1..]);
    }
  }

  /** Sorting forgets the order of its input and nothing else. */
  lemma SortIsCanonical<T(!new)>(le: (T, T) -> bool, a: seq<T>, b: seq<T>)
    requires TotalOrder(le)
    ensures Sort(le, a) == Sort(le, b) <==> multiset(a) == multiset(b)
  {
    if multiset(a) == multiset(b) {
      SortAscending(le, a);
      SortAscending(le, b);
      AscendingIsUnique(le, Sort(le, a), Sort(le, b));
    }
  }

  // ---------------------------------------------------------------- collecting from lines

  /** What `pick` finds in each element, in order. */
  function Gather<S, T>(pick: S -> seq<T>, s: seq<S>): seq<T> {
    if s == [] then [] else Gather(pick, s[..|s| - 1]) + pick(s[|s| - 1])
  }

  lemma {:induction false} GatherConcat<S, T>(pick: S -> seq<T>, a: seq<S>, b: seq<S>)
    ensures Gather(pick, a + b) == Gather(pick, a) + Gather(pick, b)
  {
    if b == [] {
      assert a + b == a;
    } else {
      assert (a + b)[..|a + b| - 1] == a + b[..|b| - 1];
      GatherConcat(pick, a, b[..|b| - 1]);
    }
  }

  lemma {:induction false} GatherFinds<S, T>(pick: S -> seq<T>, s: seq<S>, x: T)
    ensures x in Gather(pick, s) <==> exists i :: 0 <= i < |s| && x in pick(s[i])
  {
    if s != [] {
      GatherFinds(pick, s[..|s| - 1], x);
    }
  }

  lemma SplitAt<S>(s: seq<S>, x: S) returns (before: seq<S>, after: seq<S>)
    requires x in multiset(s)
    ensures s == before + ([x] + after) && multiset(before + after) == multiset(s) - multiset{x}
  {
    var k :| 0 <= k < |s| && s[k] == x;
    before, after := s[..k], s[k + 1..];
    assert s == before + ([x] + after);
    assert multiset(s) == multiset(before) + multiset{x} + multiset(after);
  }

  /** Reordering the input reorders what is gathered. */
  lemma {:induction false} GatherPermuted<S, T>(pick: S -> seq<T>, a: seq<S>, b: seq<S>)
    requires multiset(a) == multiset(b)
    ensures multiset(Gather(pick, a)) == multiset(Gather(pick, b))
  {
    if a == [] {
      assert |b| == |multiset(b)| == 0;
    } else {
      var x := a[|a| - 1];
      assert x in multiset(b);
      var before, after := SplitAt(b, x);
      assert a == a[..|a| - 1] + [x];
      assert multiset(a[..|a| - 1]) == multiset(a) - multiset{x};
      GatherPermuted(pick, a[..|a| - 1], before + after);
      GatherConcat(pick, before, after);
      GatherConcat(pick, before, [x] + after);
      GatherConcat(pick, [x], after);
      assert [x][..0] == [] && Gather(pick, [x]) == pick(x);
    }
  }
}
