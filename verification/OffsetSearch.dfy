/** The search by offset over a layout (src/dev_arweave_offset.erl:196-337). */
module OffsetSearch {
  import opened Options
  import opened Bundles
  import opened OffsetLookup
  import opened Layouts

  /** The slots of an index give the sizes of the children. */
  predicate SlotsFit(slots: seq<Slot>, l: Layout)
    requires l.Node?
  {
    |slots| == |l.children| && forall k | 0 <= k < |slots| :: slots[k].size == Size(l.children[k])
  }

  function Answered(x: Option<Extent>): Lookup {
    if x.Some? then Found(x.value.start, x.value.size) else NotFound
  }

  /** What the search makes of a member. */
  function Resume(r: Reader, t: nat, member: Option<(nat, nat)>): Lookup
    requires r.Ok()
  {
    match member
    case None => NotFound
    case Some((start, size)) =>
      match r.member(t, start, size)
      case Answer(lookup) => lookup
      case Into(data) => OrElse(FromBundle(r, t, data), start, size)
  }

  ghost predicate SearchesDeepest(r: Reader, slots: seq<Slot>, l: Layout, k: nat, at: nat, t: nat)
    requires r.Ok() && l.Node? && k <= |l.children| && SlotsFit(slots, l)
  {
    Resume(r, t, FindMember(t, at, slots[k..])) == Answered(Deepest(l, k, at, t))
  }

  /** The deepest item at a byte of the member `c`. */
  function DeepestIn(c: Layout, at: nat, t: nat): Option<Extent> {
    OrHere(InnerDeepest(c, at, t), Extent(at, Size(c)))
  }

  /** What the search makes of the member `c` is the deepest item. */
  ghost predicate MemberRight(r: Reader, c: Layout, at: nat, t: nat)
    requires r.Ok()
  {
    Resume(r, t, Some((at, Size(c)))) == Answered(DeepestIn(c, at, t))
  }

  /** That holds of the one of the children from the k-th on that holds the target, if there is one. */
  ghost predicate PathRight(r: Reader, l: Layout, k: nat, at: nat, t: nat)
    requires r.Ok() && l.Node? && k <= |l.children|
    decreases |l.children| - k
  {
    k < |l.children| && at <= t ==>
      var c := l.children[k];
      if t < at + Size(c) then MemberRight(r, c, at, t) else PathRight(r, l, k + 1, at + Size(c), t)
  }

  /** The search in the bundle at `at` yields the deepest item. */
  ghost predicate SearchesRight(r: Reader, l: Layout, at: nat, t: nat)
    requires r.Ok() && l.Node?
  {
    FromBundle(r, t, at) == Answered(Deepest(l, 0, at + IndexSize(|l.children|), t))
  }

  lemma SearchHere(r: Reader, slots: seq<Slot>, l: Layout, k: nat, at: nat, t: nat)
    requires r.Ok() && l.Node? && k < |l.children| && SlotsFit(slots, l) && at <= t < at + Size(l.children[k])
    ensures SearchesDeepest(r, slots, l, k, at, t) <==> MemberRight(r, l.children[k], at, t)
  {
    assert FindMember(t, at, slots[k..]) == Some((at, Size(l.children[k])));
  }

  lemma {:induction false} SearchChildren(r: Reader, slots: seq<Slot>, l: Layout, k: nat, at: nat, t: nat)
    requires r.Ok() && l.Node? && k <= |l.children| && SlotsFit(slots, l)
    ensures SearchesDeepest(r, slots, l, k, at, t) <==> PathRight(r, l, k, at, t)
    decreases |l.children| - k
  {
    if t < at {
      DeepestFrom(l, k, at, t);
    } else if k < |l.children| {
      var c := l.children[k];
      if t < at + Size(c) {
        SearchHere(r, slots, l, k, at, t);
      } else {
        SearchChildren(r, slots, l, k + 1, at + Size(c), t);
      }
    }
  }

  /** With the right index, the search yields the deepest item exactly if it does for the member that
      holds the target. */
  lemma SearchFindsDeepest(r: Reader, l: Layout, at: nat, t: nat, slots: seq<Slot>)
    requires r.Ok() && l.Node? && SlotsFit(slots, l) && r.index(at) == Header(IndexSize(|l.children|), slots)
    ensures SearchesRight(r, l, at, t) <==> PathRight(r, l, 0, at + IndexSize(|l.children|), t)
  {
    SearchChildren(r, slots, l, 0, at + IndexSize(|l.children|), t);
    assert slots[0..] == slots;
  }

  /** The deepest item is the innermost one. */
  lemma SearchIsInnermost(r: Reader, l: Layout, at: nat, t: nat) returns (x: Option<Extent>)
    requires r.Ok() && l.Node?
    ensures Innermost(Extents(l, 0, at + IndexSize(|l.children|)), t, x)
    ensures SearchesRight(r, l, at, t) <==> FromBundle(r, t, at) == Answered(x)
  {
    x := Deepest(l, 0, at + IndexSize(|l.children|), t);
    DeepestIsInnermost(l, 0, at + IndexSize(|l.children|), t);
  }

  /** What the search makes of a member is right: of a bundle what is found in it, of another item
      nothing but the item. */
  ghost predicate NextRight(r: Reader, c: Layout, at: nat, t: nat, next: Next)
    requires r.Ok()
  {
    match next
    case Answer(lookup) => lookup.Found? && InFront(c, at, t)
    case Into(data) => FromBundle(r, t, data) == Answered(InnerDeepest(c, at, t))
  }

  lemma RightAfter(r: Reader, c: Layout, at: nat, t: nat, next: Next)
    requires r.Ok() && at <= t < at + Size(c) && r.member(t, at, Size(c)) == next
    requires if next.Into? then at < next.data else next.lookup in {Error, Found(at, Size(c))}
    ensures MemberRight(r, c, at, t) <==> NextRight(r, c, at, t, next)
  {
    InnerStart(c, at, t);
  }

  /** Where no index is read, or one without a member that holds `t`, nothing is found. That is right in
      front of the first child. */
  lemma NothingFound(r: Reader, c: Layout, at: nat, t: nat, data: nat)
    requires r.Ok() && at <= t < at + Size(c)
    requires r.index(data).Header? ==> FindMember(t, data + r.index(data).size, r.index(data).slots).None?
    ensures NextRight(r, c, at, t, Into(data)) <==> !r.index(data).Invalid? && InFront(c, at, t)
  {
    InnerStart(c, at, t);
  }
}
