/** `components`: the 8-connected components of a mask that have at least nine pixels. */
module Components {
  import opened Sequences

  datatype Pixel = Pixel(y: int, x: int)

  const MIN_PIXELS: nat := 9

  // ---------------------------------------------------------------- what a component is

  /** Same pixel or one of its eight neighbours. */
  predicate Adjacent(a: Pixel, b: Pixel) {
    -1 <= a.y - b.y <= 1 && -1 <= a.x - b.x <= 1
  }

  ghost predicate Path(mask: set<Pixel>, p: seq<Pixel>) {
    && p != []
    && (forall i :: 0 <= i < |p| ==> p[i] in mask)
    && (forall i :: 0 <= i < |p| - 1 ==> Adjacent(p[i], p[i + 1]))
  }

  ghost predicate Joins(mask: set<Pixel>, p: seq<Pixel>, a: Pixel, b: Pixel) {
    Path(mask, p) && p[0] == a && p[|p| - 1] == b
  }

  ghost predicate Connected(mask: set<Pixel>, a: Pixel, b: Pixel) {
    exists p :: Joins(mask, p, a, b)
  }

  ghost function Component(mask: set<Pixel>, a: Pixel): set<Pixel> {
    set b | b in mask && Connected(mask, a, b)
  }

  function Elements(s: seq<Pixel>): set<Pixel> {
    set x | x in s
  }

  lemma ConnectedSelf(mask: set<Pixel>, a: Pixel)
    requires a in mask
    ensures Connected(mask, a, a)
  {
    assert Joins(mask, [a], a, a);
  }

  lemma ConnectedStep(mask: set<Pixel>, a: Pixel, b: Pixel, c: Pixel)
    requires Connected(mask, a, b) && c in mask && Adjacent(b, c)
    ensures Connected(mask, a, c)
  {
    var p :| Joins(mask, p, a, b);
    assert Joins(mask, p + [c], a, c);
  }

  lemma {:induction false} ConnectedTransitive(mask: set<Pixel>, a: Pixel, b: Pixel, c: Pixel)
    requires Connected(mask, a, b) && Connected(mask, b, c)
    ensures Connected(mask, a, c)
  {
    var p :| Joins(mask, p, a, b);
    var q :| Joins(mask, q, b, c);
    assert Joins(mask, p + q[1..], a, c);
  }

  lemma ConnectedSymmetric(mask: set<Pixel>, a: Pixel, b: Pixel)
    requires Connected(mask, a, b)
    ensures Connected(mask, b, a)
  {
    var p :| Joins(mask, p, a, b);
    var n := |p|;
    var r := seq(n, i requires 0 <= i < n => p[n - 1 - i]);
    forall i | 0 <= i < n - 1 ensures Adjacent(r[i], r[i + 1]) {
      assert Adjacent(p[n - 2 - i], p[n - 2 - i + 1]);
    }
    assert Joins(mask, r, b, a);
  }

  /** No path leaves a set that contains all mask neighbours of its pixels. */
  ghost predicate Closed(mask: set<Pixel>, s: set<Pixel>) {
    forall a, b :: a in s && b in mask && Adjacent(a, b) ==> b in s
  }

  lemma {:induction false} PathStaysInside(mask: set<Pixel>, s: set<Pixel>, p: seq<Pixel>)
    requires Closed(mask, s) && Path(mask, p) && p[0] in s
    ensures p[|p| - 1] in s
  {
    if |p| > 1 {
      assert Adjacent(p[0], p[0 + 1]);
      forall i | 0 <= i < |p[1..]| - 1 ensures Adjacent(p[1..][i], p[1..][i + 1]) {
        assert Adjacent(p[i + 1], p[i + 1 + 1]);
      }
      PathStaysInside(mask, s, p[1..]);
    }
  }

  /** A closed set that is connected from one of its pixels is the component of each of its pixels. */
  lemma ClosedConnectedIsComponent(mask: set<Pixel>, s: set<Pixel>, seed: Pixel, a: Pixel)
    requires s <= mask && seed in s && a in s && Closed(mask, s)
    requires forall b :: b in s ==> Connected(mask, seed, b)
    ensures Component(mask, a) == s
  {
    forall b | b in s ensures Connected(mask, a, b) {
      ConnectedSymmetric(mask, seed, a);
      ConnectedTransitive(mask, a, seed, b);
    }
    forall b | b in Component(mask, a) ensures b in s {
      var p :| Joins(mask, p, a, b);
      PathStaysInside(mask, s, p);
    }
  }

  lemma {:induction false} DistinctSize(s: seq<Pixel>)
    requires Distinct(s)
    ensures |Elements(s)| == |s|
  {
    if s != [] {
      var init, last := s[..|s| - 1], s[|s| - 1];
      DistinctSize(init);
      assert Elements(s) == Elements(init) + {last};
    }
  }

  // ---------------------------------------------------------------- the flood fill

  /** `found` holds the large components of the pixels already removed from `pending`, each once. */
  ghost predicate FoundSoFar(mask: set<Pixel>, done: set<Pixel>, found: seq<seq<Pixel>>) {
    && (forall i :: 0 <= i < |found| ==>
          Distinct(found[i]) && |found[i]| >= MIN_PIXELS && Elements(found[i]) <= done)
    && (forall i, a :: 0 <= i < |found| && a in found[i] ==> Component(mask, a) == Elements(found[i]))
    && (forall i, j :: 0 <= i < j < |found| ==> Elements(found[i]) !! Elements(found[j]))
    && (forall a :: a in done && |Component(mask, a)| >= MIN_PIXELS ==> exists i :: 0 <= i < |found| && a in found[i])
  }

  /** The fill from `seed`: what is queued, what is collected, and what is still pending. */
  ghost predicate Filling(
    mask: set<Pixel>, done: set<Pixel>, pending: set<Pixel>, seed: Pixel, stack: seq<Pixel>, points: seq<Pixel>)
  {
    && Distinct(points) && seed in points
    && (forall a :: a in stack ==> a in points)
    && (forall a :: a in points ==> a in mask && Connected(mask, seed, a))
    && Elements(points) !! pending && Elements(points) !! done && pending !! done
    && mask == done + Elements(points) + pending
  }

  /** Every collected pixel that left the stack has no pending neighbour, except perhaps `current`. */
  ghost predicate Swept(pending: set<Pixel>, stack: seq<Pixel>, points: seq<Pixel>, current: set<Pixel>) {
    forall a, b :: a in points && a !in stack && a !in current && b in pending ==> !Adjacent(a, b)
  }

  lemma TakeNeighbour(
    mask: set<Pixel>, done: set<Pixel>, pending: set<Pixel>, seed: Pixel, stack: seq<Pixel>, points: seq<Pixel>,
    from: Pixel, q: Pixel)
    requires Filling(mask, done, pending, seed, stack, points)
    requires from in points && q in pending && Adjacent(from, q)
    ensures Filling(mask, done, pending - {q}, seed, stack + [q], points + [q])
    ensures forall c :: Swept(pending, stack, points, c) ==> Swept(pending - {q}, stack + [q], points + [q], c)
  {
    ConnectedStep(mask, seed, from, q);
    assert Elements(points + [q]) == Elements(points) + {q};
    assert q !in points;
  }

  /** One pixel of the fill: its eight neighbours that are still pending are collected and queued. */
  method Sweep(
    ghost mask: set<Pixel>, ghost done: set<Pixel>, ghost seed: Pixel, pending0: set<Pixel>, stack0: seq<Pixel>,
    points0: seq<Pixel>, at: Pixel)
    returns (pending: set<Pixel>, stack: seq<Pixel>, points: seq<Pixel>)
    requires Filling(mask, done, pending0, seed, stack0, points0) && at in points0
    requires Swept(pending0, stack0, points0, {at})
    ensures Filling(mask, done, pending, seed, stack, points) && pending <= pending0
    ensures Swept(pending, stack, points, {})
    ensures |stack| + |pending| == |stack0| + |pending0|
  {
    hide Filling, Swept;
    pending, stack, points := pending0, stack0, points0;
    for dy := -1 to 2
      invariant Filling(mask, done, pending, seed, stack, points) && at in points && pending <= pending0
      invariant Swept(pending, stack, points, {at})
      invariant |stack| + |pending| == |stack0| + |pending0|
      invariant forall b :: b in pending && Adjacent(at, b) ==> b.y - at.y >= dy
    {
      for dx := -1 to 2
        invariant Filling(mask, done, pending, seed, stack, points) && at in points && pending <= pending0
        invariant Swept(pending, stack, points, {at})
        invariant |stack| + |pending| == |stack0| + |pending0|
        invariant forall b :: b in pending && Adjacent(at, b) ==>
                    b.y - at.y > dy || (b.y - at.y == dy && b.x - at.x >= dx)
      {
        var q := Pixel(at.y + dy, at.x + dx);
        if q in pending {
          TakeNeighbour(mask, done, pending, seed, stack, points, at, q);
          pending := pending - {q};
          stack := stack + [q];
          points := points + [q];
        }
      }
    }
    SweepDone(pending, stack, points, at);
  }

  lemma SweepDone(pending: set<Pixel>, stack: seq<Pixel>, points: seq<Pixel>, at: Pixel)
    requires Swept(pending, stack, points, {at}) && forall b :: b in pending ==> !Adjacent(at, b)
    ensures Swept(pending, stack, points, {})
  {
  }

  lemma FillIsComponent(
    mask: set<Pixel>, done: set<Pixel>, pending: set<Pixel>, seed: Pixel, points: seq<Pixel>, a: Pixel)
    requires Filling(mask, done, pending, seed, [], points) && Swept(pending, [], points, {}) && Closed(mask, done)
    requires a in points
    ensures Component(mask, a) == Elements(points)
    ensures Closed(mask, done + Elements(points))
  {
    forall c, b | c in Elements(points) && b in mask && Adjacent(c, b) ensures b in Elements(points) {
      assert b !in pending;
      assert Adjacent(b, c) && c in mask && c !in done;
    }
    ClosedConnectedIsComponent(mask, Elements(points), seed, a);
  }

  /** The fill from one seed collects exactly its component, each pixel once. */
  method Fill(ghost mask: set<Pixel>, ghost done: set<Pixel>, pending0: set<Pixel>, seed: Pixel)
    returns (pending: set<Pixel>, points: seq<Pixel>)
    requires mask == done + pending0 && done !! pending0 && Closed(mask, done) && seed in pending0
    ensures Distinct(points) && seed in points && Elements(points) <= pending0
    ensures pending == pending0 - Elements(points)
    ensures forall a :: a in points ==> Component(mask, a) == Elements(points)
    ensures Closed(mask, done + Elements(points))
  {
    hide Filling, Swept, Closed, Component, Distinct;
    pending := pending0 - {seed};
    var stack := [seed];
    points := [seed];
    FillStart(mask, done, pending0, seed);
    while stack != []
      invariant Filling(mask, done, pending, seed, stack, points) && Swept(pending, stack, points, {})
      invariant pending <= pending0
      decreases |stack| + |pending|
    {
      var at := stack[|stack| - 1];
      PopTop(mask, done, pending, seed, stack, points);
      stack := stack[..|stack| - 1];
      pending, stack, points := Sweep(mask, done, seed, pending, stack, points, at);
    }
    FillEnd(mask, done, pending0, pending, seed, points);
  }

  lemma FillStart(mask: set<Pixel>, done: set<Pixel>, pending0: set<Pixel>, seed: Pixel)
    requires mask == done + pending0 && done !! pending0 && seed in pending0
    ensures Filling(mask, done, pending0 - {seed}, seed, [seed], [seed])
    ensures Swept(pending0 - {seed}, [seed], [seed], {})
  {
    ConnectedSelf(mask, seed);
  }

  lemma PopTop(
    mask: set<Pixel>, done: set<Pixel>, pending: set<Pixel>, seed: Pixel, stack: seq<Pixel>, points: seq<Pixel>)
    requires Filling(mask, done, pending, seed, stack, points) && Swept(pending, stack, points, {}) && stack != []
    ensures var at, rest := stack[|stack| - 1], stack[..|stack| - 1];
            at in points && Filling(mask, done, pending, seed, rest, points) && Swept(pending, rest, points, {at})
  {
    hide Connected, Distinct;
    var at, rest := stack[|stack| - 1], stack[..|stack| - 1];
    assert stack == rest + [at];
  }

  lemma FillEnd(
    mask: set<Pixel>, done: set<Pixel>, pending0: set<Pixel>, pending: set<Pixel>, seed: Pixel, points: seq<Pixel>)
    requires mask == done + pending0 && done !! pending0 && Closed(mask, done) && pending <= pending0
    requires Filling(mask, done, pending, seed, [], points) && Swept(pending, [], points, {})
    ensures Distinct(points) && seed in points && Elements(points) <= pending0
    ensures pending == pending0 - Elements(points)
    ensures forall a :: a in points ==> Component(mask, a) == Elements(points)
    ensures Closed(mask, done + Elements(points))
  {
    hide Component, Swept, Closed, Connected;
    forall a | a in points ensures Component(mask, a) == Elements(points) {
      FillIsComponent(mask, done, pending, seed, points, a);
    }
    FillIsComponent(mask, done, pending, seed, points, seed);
  }

  lemma NothingMissing(mask: set<Pixel>, done: set<Pixel>, found: seq<seq<Pixel>>, points: seq<Pixel>, a: Pixel)
    requires FoundSoFar(mask, done, found) && a in done + Elements(points) && |Component(mask, a)| >= MIN_PIXELS
    ensures exists i :: 0 <= i < |found + [points]| && a in (found + [points])[i]
  {
    hide Component;
    var more := found + [points];
    if a in done {
      var i :| 0 <= i < |found| && a in found[i];
      assert a in more[i];
    } else {
      assert a in more[|found|];
    }
  }

  lemma AddLarge(mask: set<Pixel>, done: set<Pixel>, found: seq<seq<Pixel>>, points: seq<Pixel>)
    requires FoundSoFar(mask, done, found) && Distinct(points) && Elements(points) !! done && |points| >= MIN_PIXELS
    requires forall a :: a in points ==> Component(mask, a) == Elements(points)
    ensures FoundSoFar(mask, done + Elements(points), found + [points])
  {
    hide Component, Distinct;
    var more := found + [points];
    forall a | a in done + Elements(points) && |Component(mask, a)| >= MIN_PIXELS
      ensures exists i :: 0 <= i < |more| && a in more[i]
    {
      NothingMissing(mask, done, found, points, a);
    }
  }

  lemma AddSmall(mask: set<Pixel>, done: set<Pixel>, found: seq<seq<Pixel>>, points: seq<Pixel>)
    requires FoundSoFar(mask, done, found) && Distinct(points) && |points| < MIN_PIXELS
    requires forall a :: a in points ==> Component(mask, a) == Elements(points)
    ensures FoundSoFar(mask, done + Elements(points), found)
  {
    hide Component, Distinct;
    DistinctSize(points);
  }

  /**
   * Whatever order pixels are taken in, the result is exactly the set of components with at least
   * nine pixels: each is a whole component, listed once without repetition, and none is missing.
   */
  method FindComponents(mask: set<Pixel>) returns (found: seq<seq<Pixel>>)
    ensures forall i :: 0 <= i < |found| ==> Distinct(found[i]) && |found[i]| >= 9 && Elements(found[i]) <= mask
    ensures forall i, a :: 0 <= i < |found| && a in found[i] ==> Component(mask, a) == Elements(found[i])
    ensures forall i, j :: 0 <= i < j < |found| ==> Elements(found[i]) !! Elements(found[j])
    ensures forall a :: a in mask && |Component(mask, a)| >= 9 ==> exists i :: 0 <= i < |found| && a in found[i]
  {
    hide FoundSoFar, Closed, Component, Distinct;
    var pending := mask;
    found := [];
    NothingFound(mask);
    while pending != {}
      invariant pending <= mask && Closed(mask, mask - pending)
      invariant FoundSoFar(mask, mask - pending, found)
      decreases |pending|
    {
      var seed :| seed in pending;
      ghost var done := mask - pending;
      var rest, points := Fill(mask, done, pending, seed);
      assert mask - rest == done + Elements(points) && seed in Elements(points);
      pending := rest;
      if |points| >= MIN_PIXELS {
        AddLarge(mask, done, found, points);
        found := found + [points];
      } else {
        AddSmall(mask, done, found, points);
      }
    }
    assert mask - pending == mask;
    FoundAll(mask, found);
  }

  lemma NothingFound(mask: set<Pixel>)
    ensures Closed(mask, mask - mask) && FoundSoFar(mask, mask - mask, [])
  {
  }

  lemma FoundAll(mask: set<Pixel>, found: seq<seq<Pixel>>)
    requires FoundSoFar(mask, mask, found)
    ensures forall i :: 0 <= i < |found| ==> Distinct(found[i]) && |found[i]| >= MIN_PIXELS && Elements(found[i]) <= mask
    ensures forall i, a :: 0 <= i < |found| && a in found[i] ==> Component(mask, a) == Elements(found[i])
    ensures forall i, j :: 0 <= i < j < |found| ==> Elements(found[i]) !! Elements(found[j])
    ensures forall a :: a in mask && |Component(mask, a)| >= MIN_PIXELS ==> exists i :: 0 <= i < |found| && a in found[i]
  {
  }
}
