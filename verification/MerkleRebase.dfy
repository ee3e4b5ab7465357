/** Exactly which nested trees the path generator serves. */
module MerkleRebase {
  import opened Bytes
  import opened Merkle
  import opened MerkleShapes
  import opened MerkleBuild
  import opened MerkleLayout
  import opened MerkleProofs

  /** No chunk is empty. */
  ghost predicate Positive(s: Shape, f: Frame)
    decreases s
  {
    f.lb < f.rb && (s.Branch? ==> Positive(s.left, LeftFrame(s, f)) && Positive(s.right, RightFrame(s, f)))
  }

  /** The two children of every branch have different IDs. */
  predicate SiblingsDiffer(h: HashFn, s: Shape) {
    s.Branch? ==> Id(h, s.left) != Id(h, s.right) && SiblingsDiffer(h, s.left) && SiblingsDiffer(h, s.right)
  }

  /** The absolute start of the rightmost chunk. */
  ghost function LastStart(s: Shape, f: Frame): int
    decreases s
  {
    if s.Leaf? then f.shift + f.lb else LastStart(s.right, RightFrame(s, f))
  }

  lemma {:induction false} LastStartInside(s: Shape, f: Frame)
    requires Spans(s, f) && Positive(s, f)
    ensures Inside(LastStart(s, f), f)
    ensures s.Branch? ==> LastStart(s, f) - f.shift >= s.note
    decreases s
  {
    if s.Branch? {
      LastStartInside(s.right, RightFrame(s, f));
    }
  }

  /** With too small an offset the generator leaves the right spine too early, and the validator,
      which stays on it, rejects the path. */
  lemma {:induction false} EarlyTurnRejected(
    h: HashFn, s: Shape, f: Frame, dest: int, prevNote: nat, rightMost: RightMost, dataSize: int, rules: Rules
  )
    requires s.Branch? && Spans(s, f) && Positive(s, f) && SiblingsDiffer(h, s)
    requires dest < LastStart(s, f) - f.shift
    requires Inside(LastStart(s, f), f)
    ensures ValidateProof(h, Id(h, s), At(LastStart(s, f), f, rightMost), ProofOf(h, s, dest, prevNote), dataSize, rules) == Rejected
    decreases s
  {
    var offset := LastStart(s, f);
    LastStartInside(s, f);
    var (next, dest') := (Next(s, dest), NextDest(s, dest, prevNote));
    if dest < s.note {
    } else {
      LastStartInside(s.right, RightFrame(s, f));
      DescendFrame(s, offset, f, rightMost);
      EarlyTurnRejected(h, s.right, RightFrame(s, f), dest', s.note, NextRightMost(s, offset - f.shift, rightMost), dataSize, rules);
    }
  }

  /** The state of the generator at a node: `prevNote` is the left bound, or lies beyond it. */
  ghost predicate Walk(h: HashFn, s: Shape, f: Frame, prevNote: nat, exact: bool) {
    && Spans(s, f) && Positive(s, f) && SiblingsDiffer(h, s)
    && (if exact then prevNote == f.lb else prevNote > f.lb)
  }

  lemma WalkRight(h: HashFn, s: Shape, f: Frame, prevNote: nat, exact: bool)
    requires s.Branch? && Walk(h, s, f, prevNote, exact)
    ensures Walk(h, s.right, RightFrame(s, f), s.note, !s.right.rebased)
  {
    assert Positive(s.left, LeftFrame(s, f));
  }

  /** The generated proof of this absolute offset is rejected. */
  ghost predicate Fails(
    h: HashFn, s: Shape, f: Frame, prevNote: nat, offset: int, rightMost: RightMost, dataSize: int, rules: Rules
  ) {
    && 0 <= f.shift && 0 <= f.lb && Inside(offset, f)
    && ValidateProof(h, Id(h, s), At(offset, f, rightMost), ProofOf(h, s, offset - f.shift, prevNote), dataSize, rules) == Rejected
  }

  /** A failure below a child whose offset the generator gets right is a failure. */
  lemma FailsAbove(
    h: HashFn, s: Shape, f: Frame, prevNote: nat, offset: int, rightMost: RightMost, dataSize: int, rules: Rules
  )
    requires s.Branch? && Spans(s, f) && Inside(offset, f)
    requires
      var dest := offset - f.shift;
      && NextDest(s, dest, prevNote) == offset - NextFrame(s, dest, f).shift
      && Fails(h, Next(s, dest), NextFrame(s, dest, f), s.note, offset, NextRightMost(s, dest, rightMost), dataSize, rules)
    ensures Fails(h, s, f, prevNote, offset, rightMost, dataSize, rules)
  {
    DescendFrame(s, offset, f, rightMost);
  }

  /** The misplaced child itself: its last chunk cannot be proved. */
  lemma MisplacedChildFails(
    h: HashFn, s: Shape, f: Frame, prevNote: nat, rightMost: RightMost, dataSize: int, rules: Rules
  ) returns (offset: int)
    requires s.Branch? && Walk(h, s, f, prevNote, false)
    requires s.left.rebased && s.left.Branch?
    ensures Fails(h, s, f, prevNote, offset, rightMost, dataSize, rules)
  {
    var f' := LeftFrame(s, f);
    offset := LastStart(s.left, f');
    LastStartInside(s.left, f');
    DescendFrame(s, offset, f, rightMost);
    EarlyTurnRejected(h, s.left, f', offset - f.shift - prevNote, s.note, Undefined, dataSize, rules);
  }

  /** Below a misplaced node some offset has no valid generated path. */
  lemma {:induction false} IllPlacedFails(
    h: HashFn, s: Shape, f: Frame, prevNote: nat, exact: bool, rightMost: RightMost, dataSize: int, rules: Rules
  ) returns (offset: int)
    requires Walk(h, s, f, prevNote, exact) && !WellPlaced(s, exact)
    ensures Fails(h, s, f, prevNote, offset, rightMost, dataSize, rules)
    decreases s
  {
    if s.left.rebased && s.left.Branch? && !exact {
      offset := MisplacedChildFails(h, s, f, prevNote, rightMost, dataSize, rules);
    } else if !WellPlaced(s.left, false) {
      offset := IllPlacedFails(h, s.left, LeftFrame(s, f), s.note, false,
                               if s.left.rebased then Undefined else IsNotRightMost, dataSize, rules);
      FailsAbove(h, s, f, prevNote, offset, rightMost, dataSize, rules);
    } else {
      WalkRight(h, s, f, prevNote, exact);
      offset := IllPlacedFails(h, s.right, RightFrame(s, f), s.note, !s.right.rebased,
                               if s.right.rebased then Undefined
                               else if rightMost.Undefined? then IsRightMost else rightMost, dataSize, rules);
      FailsAbove(h, s, f, prevNote, offset, rightMost, dataSize, rules);
    }
  }

  //////////////////////////////////////////////////////////////////////////////
  // The theorem on element lists
  //////////////////////////////////////////////////////////////////////////////

  lemma {:induction false} LeavesPositive(s: Shape, f: Frame)
    requires Spans(s, f) && forall p | p in Leaves(s, f) :: p.start < p.end
    ensures Positive(s, f)
    decreases s
  {
    if s.Branch? {
      LeavesPositive(s.left, LeftFrame(s, f));
      LeavesPositive(s.right, RightFrame(s, f));
    } else {
      assert PlacedLeaf(s, f) in Leaves(s, f);
    }
  }

  predicate NodesDiffer(tree: seq<Node>) {
    forall n | n in tree && n.BranchNode? :: n.left != n.right
  }

  lemma {:induction false} NodesSiblings(h: HashFn, s: Shape)
    requires forall n | n in Nodes(h, s) && n.BranchNode? :: n.left != n.right
    ensures SiblingsDiffer(h, s)
  {
    if s.Branch? {
      assert NodeOf(h, s) in Nodes(h, s);
      NodesSiblings(h, s.left);
      NodesSiblings(h, s.right);
    }
  }

  /** Nested lists of non-empty chunks that start at multiples of 256 KiB. */
  ghost predicate Rebasable(h: HashFn, elements: seq<Element>) {
    && Provable(h, elements) && NoZeroIds(GenerateTree(h, elements).1) && NodesDiffer(GenerateTree(h, elements).1)
    && forall q | q in Flatten(elements, 0, 0) ::
         q.start % DATA_CHUNK_SIZE == 0 && q.start < q.end <= q.start + DATA_CHUNK_SIZE
  }

  ghost predicate Validates(h: HashFn, elements: seq<Element>, offset: nat)
    requires NoEmptyNested(elements)
  {
    exists p :: p in Flatten(elements, 0, 0) && p.start <= offset < p.end && Proves(h, elements, offset, OffsetRebaseSupport, p)
  }

  /** The rebasing ruleset accepts the generated path of every offset, with the true chunk and its
      absolute bounds, if and only if every rebased left subtree of several chunks hangs from the
      root or from a plain right child. */
  lemma RebaseExactly(h: HashFn, elements: seq<Element>)
    requires Rebasable(h, elements)
    ensures (forall offset: nat | offset < EndOf(elements, 0) :: Validates(h, elements, offset)) <==> WellPlaced(ShapeOf(elements), true)
  {
    if WellPlaced(ShapeOf(elements), true) {
      forall offset: nat | offset < EndOf(elements, 0) ensures Validates(h, elements, offset) {
        var p := RebaseCompleteness(h, elements, offset);
      }
    } else {
      var offset := SomeOffsetFails(h, elements);
      assert !Validates(h, elements, offset);
    }
  }

  lemma ShapeFails(h: HashFn, s: Shape, f: Frame) returns (offset: nat)
    requires f.lb == f.shift == 0 && f.rb < NOTE_LIMIT && DataSized(s) && NoZeroId(h, s)
    requires Walk(h, s, f, 0, true) && !WellPlaced(s, true)
    ensures offset < f.rb
    ensures ValidatePath(h, Id(h, s), offset, f.rb, PathOf(h, s, offset, 0), OffsetRebaseSupport) == Rejected
  {
    offset := IllPlacedFails(h, s, f, 0, true, Undefined, f.rb, RulesOf(OffsetRebaseSupport));
    ParsePathOf(h, s, offset, 0, true, f);
  }

  lemma SomeOffsetFails(h: HashFn, elements: seq<Element>) returns (offset: nat)
    requires Rebasable(h, elements) && !WellPlaced(ShapeOf(elements), true)
    ensures offset < EndOf(elements, 0) && !Validates(h, elements, offset)
  {
    var (s, f) := (ShapeOf(elements), Frame(0, EndOf(elements, 0), 0));
    ProvableTree(h, elements, 0);
    LeavesPositive(s, f);
    NodesSiblings(h, s);
    NoZeroIdNodes(h, s);
    offset := ShapeFails(h, s, f);
    ProvableTree(h, elements, offset);
  }

  /** A nested list whose own first element is a nested list of two chunks. */
  function IllPlaced(a: Bytes, b: Bytes, c: Bytes, d: Bytes): seq<Element> {
    var k := DATA_CHUNK_SIZE;
    [Chunk(a, k), Sub([Sub([Chunk(b, k), Chunk(c, 2 * k)]), Chunk(d, 3 * k)])]
  }

  lemma IllPlacedShape(a: Bytes, b: Bytes, c: Bytes, d: Bytes)
    ensures
      var elements := IllPlaced(a, b, c, d);
      && NoEmptyNested(elements) && Laid(elements, 0) && EndOf(elements, 0) == 4 * DATA_CHUNK_SIZE
      && !WellPlaced(ShapeOf(elements), true)
  {
    var k := DATA_CHUNK_SIZE;
    var inner := [Chunk(b, k), Chunk(c, 2 * k)];
    var middle := [Sub(inner), Chunk(d, 3 * k)];
    var outer := [Chunk(a, k), Sub(middle)];
    TwoElements(inner[0], inner[1]);
    TwoElements(middle[0], middle[1]);
    TwoElements(outer[0], outer[1]);
  }

  /** With four full chunks in it, it has an offset whose generated path is not accepted as the chunk
      there. */
  lemma IllPlacedExample(h: HashFn, a: Bytes, b: Bytes, c: Bytes, d: Bytes) returns (offset: nat)
    requires Rebasable(h, IllPlaced(a, b, c, d))
    ensures offset < 4 * DATA_CHUNK_SIZE && !Validates(h, IllPlaced(a, b, c, d), offset)
  {
    IllPlacedShape(a, b, c, d);
    offset := SomeOffsetFails(h, IllPlaced(a, b, c, d));
  }

  lemma TwoElements(e1: Element, e2: Element)
    requires NoEmptyNested([e1, e2])
    ensures e1.Sub? ==> e1.elements != [] && NoEmptyNested(e1.elements)
    ensures e2.Sub? ==> e2.elements != [] && NoEmptyNested(e2.elements)
    ensures ShapeOf([e1, e2]) == Pair(ShapeOfElement(e1), ShapeOfElement(e2), 0)
    ensures EndOf([e1, e2], 0) == ElementEnd(e2, ElementEnd(e1, 0))
    ensures Laid([e1, e2], 0) <==> ElementLaid(e1, 0) && ElementLaid(e2, ElementEnd(e1, 0))
  {
    assert e1 in [e1, e2] && e2 in [e1, e2];
    assert [e1, e2][1..] == [e2];
    OneElement(e2, ElementEnd(e1, 0));
    assert ShapeAllRows([ShapeOfElement(e1), ShapeOfElement(e2)]) == Pair(ShapeOfElement(e1), ShapeOfElement(e2), 0);
    assert Forest([e1, e2]) == [ShapeOfElement(e1), ShapeOfElement(e2)];
  }

  lemma OneElement(e: Element, pos: nat)
    requires e.Sub? ==> e.elements != [] && NoEmptyNested(e.elements)
    ensures NoEmptyNested([e]) && Forest([e]) == [ShapeOfElement(e)]
    ensures EndOf([e], pos) == ElementEnd(e, pos)
    ensures Laid([e], pos) <==> ElementLaid(e, pos)
  {
    assert [e][1..] == [];
    assert Forest([e][1..]) == [];
  }

}
