/** Where the items of a nested bundle lie, and which of them is the innermost at a byte. */
module Layouts {
  import opened Options

  /** An item that is no bundle, or one with a header, an index and children. */
  datatype Layout = Leaf(bytes: nat) | Node(header: nat, children: seq<Layout>)

  datatype Extent = Extent(start: nat, size: nat)

  function IndexSize(n: nat): nat { 32 + 64 * n }

  function Size(l: Layout): nat
    decreases l, 1, 0
  {
    if l.Leaf? then l.bytes else l.header + IndexSize(|l.children|) + Total(l, 0)
  }

  /** The size of the children from the k-th on. */
  function Total(l: Layout, k: nat): nat
    requires l.Node? && k <= |l.children|
    decreases l, 0, |l.children| - k
  {
    if k == |l.children| then 0 else Size(l.children[k]) + Total(l, k + 1)
  }

  /** Where the first child of a bundle lies that starts at `at`. */
  function Inner(l: Layout, at: nat): nat
    requires l.Node?
  {
    at + l.header + IndexSize(|l.children|)
  }

  /** The extents of the children from the k-th on, of which the first is at `at`, and of all items
      in them. */
  function Extents(l: Layout, k: nat, at: nat): seq<Extent>
    requires l.Node? && k <= |l.children|
    decreases l, |l.children| - k
  {
    if k == |l.children| then []
    else
      var c := l.children[k];
      [Extent(at, Size(c))]
      + ((if c.Node? then Extents(c, 0, Inner(c, at)) else [])
      + Extents(l, k + 1, at + Size(c)))
  }

  predicate Holds(e: Extent, t: nat) { e.start <= t < e.start + e.size }

  predicate Within(inner: Extent, outer: Extent) {
    outer.start <= inner.start && inner.start + inner.size <= outer.start + outer.size
  }

  /** The child that holds `t`, or the deepest item in it that does. */
  function Deepest(l: Layout, k: nat, at: nat, t: nat): Option<Extent>
    requires l.Node? && k <= |l.children|
    decreases l, |l.children| - k
  {
    if k == |l.children| then None
    else
      var c := l.children[k];
      var here := Extent(at, Size(c));
      if !Holds(here, t) then Deepest(l, k + 1, at + Size(c), t)
      else if c.Leaf? then Some(here)
      else OrHere(Deepest(c, 0, Inner(c, at), t), here)
  }

  function OrHere(inner: Option<Extent>, here: Extent): Option<Extent> {
    if inner.Some? then inner else Some(here)
  }

  /** The byte comes before the first child, if `c` has children at all. */
  predicate InFront(c: Layout, at: nat, t: nat) { c.Leaf? || t < Inner(c, at) }

  ghost predicate Inside(es: seq<Extent>, from: nat, to: nat) {
    forall j | 0 <= j < |es| :: from <= es[j].start && es[j].start + es[j].size <= to
  }

  ghost predicate NoneHolds(es: seq<Extent>, t: nat) {
    forall j | 0 <= j < |es| :: !Holds(es[j], t)
  }

  ghost predicate AllContain(es: seq<Extent>, t: nat, x: Extent) {
    forall j | 0 <= j < |es| && Holds(es[j], t) :: Within(x, es[j])
  }

  /** `x` is the innermost of the extents that hold `t`; there is none if there is no such extent. */
  ghost predicate Innermost(es: seq<Extent>, t: nat, x: Option<Extent>) {
    && (x.None? ==> NoneHolds(es, t))
    && (x.Some? ==> x.value in es && Holds(x.value, t) && AllContain(es, t, x.value))
  }

  /** All items lie between the first child and the end of the bundle. */
  lemma {:induction false} ExtentsInside(l: Layout, k: nat, at: nat)
    requires l.Node? && k <= |l.children|
    ensures Inside(Extents(l, k, at), at, at + Total(l, k))
    decreases l, |l.children| - k
  {
    if k < |l.children| {
      var c := l.children[k];
      var (inner, rest) := (InnerExtents(c, at), Extents(l, k + 1, at + Size(c)));
      var (from, to) := (at, at + Total(l, k));
      InnerInside(c, at);
      ExtentsInside(l, k + 1, at + Size(c));
    }
  }

  function InnerExtents(c: Layout, at: nat): seq<Extent> {
    if c.Node? then Extents(c, 0, Inner(c, at)) else []
  }

  lemma {:induction false} InnerInside(c: Layout, at: nat)
    ensures Inside(InnerExtents(c, at), at, at + Size(c))
    decreases c
  {
    if c.Node? {
      ExtentsInside(c, 0, Inner(c, at));
    }
  }

  lemma InnermostHere(first: Extent, inner: seq<Extent>, rest: seq<Extent>, t: nat, x: Option<Extent>, to: nat)
    requires Inside(inner, first.start, first.start + first.size)
    requires Inside(rest, first.start + first.size, to)
    requires Innermost(inner, t, x) && Holds(first, t)
    ensures Innermost([first] + (inner + rest), t, OrHere(x, first))
  {
    var y := OrHere(x, first).value;
    assert AllContain(inner, t, y) && AllContain(rest, t, y) && AllContain([first], t, y);
    if x.Some? {
      var j :| 0 <= j < |inner| && inner[j] == x.value;
      assert ([first] + (inner + rest))[1 + j] == y;
    } else {
      assert ([first] + (inner + rest))[0] == y;
    }
  }

  /** The deepest item that the search finds is the innermost of all that hold the byte. */
  lemma {:induction false} DeepestIsInnermost(l: Layout, k: nat, at: nat, t: nat)
    requires l.Node? && k <= |l.children|
    ensures Innermost(Extents(l, k, at), t, Deepest(l, k, at, t))
    decreases l, |l.children| - k
  {
    if k < |l.children| {
      var c := l.children[k];
      var (first, inner, rest) := (Extent(at, Size(c)), InnerExtents(c, at), Extents(l, k + 1, at + Size(c)));
      InnerInside(c, at);
      if Holds(first, t) {
        ExtentsInside(l, k + 1, at + Size(c));
        InnermostHere(first, inner, rest, t, InnerDeepest(c, at, t), at + Size(c) + Total(l, k + 1)) by {
          if c.Node? {
            DeepestIsInnermost(c, 0, Inner(c, at), t);
          }
        }
      } else {
        DeepestIsInnermost(l, k + 1, at + Size(c), t);
      }
    }
  }

  function InnerDeepest(c: Layout, at: nat, t: nat): Option<Extent> {
    if c.Node? then Deepest(c, 0, Inner(c, at), t) else None
  }

  /** Every byte of the children is in one of them. */
  lemma {:induction false} DeepestFrom(l: Layout, k: nat, at: nat, t: nat)
    requires l.Node? && k <= |l.children|
    ensures Deepest(l, k, at, t).Some? <==> at <= t < at + Total(l, k)
    ensures Deepest(l, k, at, t).Some? ==> Deepest(l, k, at, t).value.start >= at
    decreases l, |l.children| - k
  {
    if k < |l.children| {
      var c := l.children[k];
      DeepestFrom(l, k + 1, at + Size(c), t);
      if c.Node? {
        DeepestFrom(c, 0, Inner(c, at), t);
      }
    }
  }

  lemma InnerStart(c: Layout, at: nat, t: nat)
    requires at <= t < at + Size(c)
    ensures InnerDeepest(c, at, t).None? <==> InFront(c, at, t)
    ensures InnerDeepest(c, at, t).Some? ==> InnerDeepest(c, at, t).value.start > at
  {
    if c.Node? {
      DeepestFrom(c, 0, Inner(c, at), t);
    }
  }
}
