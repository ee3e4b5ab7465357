/** Which leaves each ruleset accepts, in numbers (src/ar_merkle.erl:59-231). */
module SplitRules {
  import opened Bytes
  import opened Options
  import opened Merkle
  import opened MerkleShapes
  import opened MerkleBuild
  import opened MerkleLayout
  import opened MerkleProofs
  import opened MerkleRebase

  //////////////////////////////////////////////////////////////////////////////
  // Where a proof ends
  //////////////////////////////////////////////////////////////////////////////

  function LeafOf(proof: Proof): Proof {
    if proof.ProofBranch? then LeafOf(proof.rest) else proof
  }

  /** The position at the end of a proof. */
  function Reached(at: Position, proof: Proof): (end: Position)
    requires Within(at)
    ensures Within(end)
    decreases proof
  {
    if proof.ProofBranch? then Reached(Descend(at, proof.note, proof.marked), proof.rest) else at
  }

  function Start(dest: int, size: int): (at: Position)
    requires size > 0
    ensures Within(at)
  {
    Position(if dest >= size then size - 1 else if dest < 0 then 0 else dest, 0, size, 0, Undefined)
  }

  /** Every node of the proof hashes to the ID that its parent has for that side. */
  predicate Chained(h: HashFn, id: Bytes, at: Position, proof: Proof): (c: bool)
    requires Within(at)
    ensures c ==> LeafOf(proof).ProofLeaf?
    decreases proof
  {
    match proof
    case ProofLeaf(data, e) => id == h(h(data) + h(BigEndian(e, 32)))
    case ProofBranch(marked, l, r, note, rest) =>
      && id == h(h(l) + h(r) + h(BigEndian(note, 32)))
      && Chained(h, if at.dest < note then l else r, Descend(at, note, marked), rest)
    case Malformed => false
  }

  /** What a leaf yields that is not refused. */
  function Yields(data: Bytes, e: nat, at: Position): Verdict {
    var end := if e < at.rb then e else at.rb;
    Accepted(data, at.shift + at.lb, at.shift + if end <= at.lb then at.lb + 1 else end)
  }

  predicate LeafPasses(at: Position, e: nat, size: int, rules: Rules)
    requires Within(at)
  {
    BordersValid(rules, at.lb, at.rb, e) && SplitValid(rules, at.lb, at.rb, e, size, at.rightMost, at.shift)
  }

  lemma {:induction false} WalkEnds(h: HashFn, id: Bytes, at: Position, proof: Proof, size: int, rules: Rules)
    requires Within(at)
    ensures
      ValidateProof(h, id, at, proof, size, rules)
      == if Chained(h, id, at, proof) && LeafPasses(Reached(at, proof), LeafOf(proof).endOffset, size, rules)
         then Yields(LeafOf(proof).data, LeafOf(proof).endOffset, Reached(at, proof)) else Rejected
    decreases proof
  {
    if proof.ProofBranch? {
      WalkEnds(h, if at.dest < proof.note then proof.left else proof.right,
               Descend(at, proof.note, proof.marked), proof.rest, size, rules);
    }
  }

  //////////////////////////////////////////////////////////////////////////////
  // The rulesets on arbitrary bytes
  //////////////////////////////////////////////////////////////////////////////

  /** The proof the validator reads hashes up to the root. */
  predicate HashesUp(h: HashFn, id: Bytes, dest: int, size: int, proof: Proof): (c: bool)
    requires size > 0
    ensures c ==> LeafOf(proof).ProofLeaf?
  {
    Chained(h, id, Start(dest, size), proof)
  }

  /** The leaf decides, once the proof hashes up. */
  lemma VerdictAtLeaf(h: HashFn, id: Bytes, dest: int, size: int, path: Bytes, ruleset: Ruleset)
    requires size > 0
    ensures
      var proof := ParsePath(path, ruleset.OffsetRebaseSupport?);
      ValidatePath(h, id, dest, size, path, ruleset)
      == if && HashesUp(h, id, dest, size, proof)
            && LeafPasses(Reached(Start(dest, size), proof), LeafOf(proof).endOffset, size, RulesOf(ruleset))
         then Yields(LeafOf(proof).data, LeafOf(proof).endOffset, Reached(Start(dest, size), proof)) else Rejected
  {
    var allowRebase := RulesOf(ruleset).allowRebase;
    assert allowRebase == ruleset.OffsetRebaseSupport?;
    WalkEnds(h, id, Start(dest, size), ParsePath(path, allowRebase), size, RulesOf(ruleset));
  }

  lemma BasicExactly(h: HashFn, id: Bytes, dest: int, size: int, path: Bytes)
    requires size > 0
    ensures
      var (proof, v) := (ParsePath(path, false), ValidatePath(h, id, dest, size, path, Basic));
      v == if HashesUp(h, id, dest, size, proof)
           then Yields(LeafOf(proof).data, LeafOf(proof).endOffset, Reached(Start(dest, size), proof)) else Rejected
  {
    VerdictAtLeaf(h, id, dest, size, path, Basic);
  }

  /** Strict borders: the leaf's note and its right bound are at most 262144 beyond its left bound. */
  lemma StrictBordersExactly(h: HashFn, id: Bytes, dest: int, size: int, path: Bytes)
    requires size > 0
    ensures
      var (proof, v) := (ParsePath(path, false), ValidatePath(h, id, dest, size, path, StrictBorders));
      if HashesUp(h, id, dest, size, proof) then
        var (at, e) := (Reached(Start(dest, size), proof), LeafOf(proof).endOffset);
        v == if e <= at.lb + 262144 && at.rb <= at.lb + 262144 then Yields(LeafOf(proof).data, e, at) else Rejected
      else
        v == Rejected
  {
    VerdictAtLeaf(h, id, dest, size, path, StrictBorders);
  }

  /** The strict split, with leaf note `e` and bounds [lb, rb): a full chunk on a boundary, a last chunk
      that starts before the last boundary, or a shorter one on a boundary with between one and two
      chunks left. */
  predicate StrictCases(lb: int, rb: int, e: int, size: int) {
    || (e - lb == 262144 && lb % 262144 == 0)
    || (e - lb != 262144 && e == size && rb % 262144 > 0 && lb <= rb - rb % 262144)
    || (e - lb != 262144 && e != size && lb % 262144 == 0 && 262144 < size - lb < 524288)
  }

  lemma StrictLeaf(at: Position, e: nat, size: int)
    requires Within(at)
    ensures
      LeafPasses(at, e, size, RulesOf(StrictDataSplit))
      <==> e <= at.lb + 262144 && at.rb <= at.lb + 262144 && StrictCases(at.lb, at.rb, e, size)
  {
  }

  lemma StrictSplitExactly(h: HashFn, id: Bytes, dest: int, size: int, path: Bytes)
    requires size > 0
    ensures
      var (proof, v) := (ParsePath(path, false), ValidatePath(h, id, dest, size, path, StrictDataSplit));
      if HashesUp(h, id, dest, size, proof) then
        var (at, e) := (Reached(Start(dest, size), proof), LeafOf(proof).endOffset);
        v == if e <= at.lb + 262144 && at.rb <= at.lb + 262144 && StrictCases(at.lb, at.rb, e, size)
             then Yields(LeafOf(proof).data, e, at) else Rejected
      else
        v == Rejected
  {
    var proof := ParsePath(path, false);
    VerdictAtLeaf(h, id, dest, size, path, StrictDataSplit);
    if HashesUp(h, id, dest, size, proof) {
      StrictLeaf(Reached(Start(dest, size), proof), LeafOf(proof).endOffset, size);
    }
  }

  /** The relaxed split, at absolute offsets: the chunk starts on a boundary, or it is the last of several
      in its list and ends inside the 262144 bytes after those it starts in. */
  predicate RelaxedCases(first: int, last: int, lastOfSeveral: bool) {
    first % 262144 == 0 || (lastOfSeveral && first / 262144 + 1 == last / 262144 && last % 262144 != 0)
  }

  predicate RelaxedPasses(at: Position, e: nat) {
    && e <= at.lb + 262144 && at.rb <= at.lb + 262144
    && RelaxedCases(at.shift + at.lb, at.shift + e, at.rightMost.IsRightMost?)
  }

  lemma RelaxedLeaf(at: Position, e: nat, size: int)
    requires Within(at)
    ensures
      LeafPasses(at, e, size, RulesOf(OffsetRebaseSupport))
      <==> RelaxedPasses(at, e)
  {
  }

  lemma RebaseSplitExactly(h: HashFn, id: Bytes, dest: int, size: int, path: Bytes)
    requires size > 0
    ensures
      var (proof, v) := (ParsePath(path, true), ValidatePath(h, id, dest, size, path, OffsetRebaseSupport));
      if HashesUp(h, id, dest, size, proof) then
        var (at, e) := (Reached(Start(dest, size), proof), LeafOf(proof).endOffset);
        v == if RelaxedPasses(at, e) then Yields(LeafOf(proof).data, e, at) else Rejected
      else
        v == Rejected
  {
    var proof := ParsePath(path, true);
    VerdictAtLeaf(h, id, dest, size, path, OffsetRebaseSupport);
    if HashesUp(h, id, dest, size, proof) {
      RelaxedLeaf(Reached(Start(dest, size), proof), LeafOf(proof).endOffset, size);
    }
  }

  //////////////////////////////////////////////////////////////////////////////
  // The bounds at the leaf
  //////////////////////////////////////////////////////////////////////////////

  function NotesOf(proof: Proof): set<nat> {
    if proof.ProofBranch? then {proof.note} + NotesOf(proof.rest) else {}
  }

  predicate NoMarks(proof: Proof) {
    proof.ProofBranch? ==> !proof.marked && NoMarks(proof.rest)
  }

  /** `lb` is the largest note at or before the offset, `rb` the smallest one after it. */
  ghost predicate Encloses(end: Position, at: Position, notes: set<nat>) {
    && end.dest == at.dest && end.shift == at.shift
    && (end.lb == at.lb || end.lb in notes) && (end.rb == at.rb || end.rb in notes)
    && at.lb <= end.lb && end.rb <= at.rb
    && forall n | n in notes :: if n <= at.dest then n <= end.lb else end.rb <= n
  }

  /** Without marks the frame at the leaf is the gap between two notes that holds the offset. */
  lemma {:induction false} BoundsAreNotes(at: Position, proof: Proof)
    requires Within(at) && NoMarks(proof)
    ensures Encloses(Reached(at, proof), at, NotesOf(proof))
    decreases proof
  {
    if proof.ProofBranch? {
      var next := Descend(at, proof.note, false);
      BoundsAreNotes(next, proof.rest);
      assert NotesOf(proof) == {proof.note} + NotesOf(proof.rest);
    }
  }

  ghost predicate AllBefore(notes: set<nat>, dest: int) {
    forall n | n in notes :: n <= dest
  }

  /** And it counts as the last one exactly if there are branches, and all were passed to the right. */
  lemma {:induction false} LastIsRightOfAll(at: Position, proof: Proof)
    requires Within(at) && NoMarks(proof)
    ensures
      Reached(at, proof).rightMost
      == if !AllBefore(NotesOf(proof), at.dest) then IsNotRightMost
         else if at.rightMost.Undefined? && proof.ProofBranch? then IsRightMost else at.rightMost
    decreases proof
  {
    if proof.ProofBranch? {
      var (notes, rest) := (NotesOf(proof), NotesOf(proof.rest));
      LastIsRightOfAll(Descend(at, proof.note, false), proof.rest);
      assert notes == {proof.note} + rest;
      assert proof.note in notes;
      assert AllBefore(notes, at.dest) <==> proof.note <= at.dest && AllBefore(rest, at.dest);
    }
  }

  //////////////////////////////////////////////////////////////////////////////
  // The rulesets on generated paths
  //////////////////////////////////////////////////////////////////////////////

  /** Whether the leaf of a generated path counts as the last one. */
  ghost function SideOf(s: Shape, offset: int, f: Frame, rightMost: RightMost): RightMost {
    if offset - f.shift < LastStart(s, f) - f.shift then IsNotRightMost
    else if s.Branch? && rightMost.Undefined? then IsRightMost else rightMost
  }

  /** The proof generated for an offset in a tree without rebased nodes ends at the chunk there. */
  ghost predicate EndsAt(h: HashFn, s: Shape, offset: int, f: Frame, prevNote: nat, rightMost: RightMost, p: Placed)
    requires 0 <= f.lb && 0 == f.shift && Inside(offset, f)
  {
    var (at, proof) := (At(offset, f, rightMost), ProofOf(h, s, offset, prevNote));
    && Chained(h, Id(h, s), at, proof) && LeafOf(proof) == ProofLeaf(p.data, p.end)
    && Reached(at, proof) == Position(offset, p.start, p.end, 0, SideOf(s, offset, f, rightMost))
  }

  lemma {:induction false} GeneratedEnds(h: HashFn, s: Shape, offset: int, f: Frame, prevNote: nat, rightMost: RightMost)
    requires Spans(s, f) && NoRebase(s) && f.shift == 0 && Inside(offset, f)
    ensures EndsAt(h, s, offset, f, prevNote, rightMost, Locate(s, offset, f))
    decreases s
  {
    if s.Branch? {
      DescendFrame(s, offset, f, rightMost);
      LastStartIn(s.right, RightFrame(s, f));
      GeneratedEnds(h, Next(s, offset), offset, NextFrame(s, offset, f), s.note, NextRightMost(s, offset, rightMost));
    }
  }

  lemma {:induction false} LastStartIn(s: Shape, f: Frame)
    requires Spans(s, f) && NoRebase(s) && f.shift == 0
    ensures f.lb <= LastStart(s, f) <= f.rb
    decreases s
  {
    if s.Branch? {
      LastStartIn(s.right, RightFrame(s, f));
    }
  }

  /** The last chunk of a list starts here. */
  function LastChunkStart(elements: seq<Element>): nat
    requires elements != [] && Flat(elements)
  {
    if |elements| == 1 then 0 else elements[|elements| - 2].note
  }

  lemma {:induction false} LeavesEnd(s: Shape, f: Frame)
    requires Spans(s, f)
    ensures Leaves(s, f) != [] && Leaves(s, f)[|Leaves(s, f)| - 1].start == LastStart(s, f)
    ensures s.Branch? <==> |Leaves(s, f)| > 1
    decreases s
  {
    if s.Branch? {
      LeavesEnd(s.left, LeftFrame(s, f));
      LeavesEnd(s.right, RightFrame(s, f));
    }
  }

  lemma {:induction false} FlatChunks(elements: seq<Element>, pos: nat)
    requires Flat(elements)
    ensures |Flatten(elements, pos, 0)| == |elements|
    ensures forall i | 0 <= i < |elements| ::
      Flatten(elements, pos, 0)[i] == Placed(elements[i].data, if i == 0 then pos else elements[i - 1].note, elements[i].note)
  {
    if elements != [] {
      FlatChunks(elements[1..], elements[0].note);
    }
  }

  lemma LastOfList(elements: seq<Element>)
    requires elements != [] && Flat(elements) && NoEmptyNested(elements) && Laid(elements, 0)
    ensures Spans(ShapeOf(elements), Frame(0, EndOf(elements, 0), 0))
    ensures LastStart(ShapeOf(elements), Frame(0, EndOf(elements, 0), 0)) == LastChunkStart(elements)
    ensures ShapeOf(elements).Branch? <==> |elements| > 1
  {
    TreeLayout(elements, 0);
    LeavesEnd(ShapeOf(elements), Frame(0, EndOf(elements, 0), 0));
    LastOfFlat(elements);
  }

  lemma LastOfFlat(elements: seq<Element>)
    requires elements != [] && Flat(elements)
    ensures |Flatten(elements, 0, 0)| == |elements|
    ensures Flatten(elements, 0, 0)[|elements| - 1].start == LastChunkStart(elements)
  {
    FlatChunks(elements, 0);
  }

  /** What the validator finds at the end of a proof: the chunk, and whether it is the last of several. */
  predicate ProofEnds(h: HashFn, root: Bytes, offset: nat, size: nat, proof: Proof, p: Placed, lastStart: nat, several: bool)
    requires offset < size
  {
    && HashesUp(h, root, offset, size, proof) && LeafOf(proof) == ProofLeaf(p.data, p.end)
    && Reached(Start(offset, size), proof)
       == Position(offset, p.start, p.end, 0,
                   if offset < lastStart then IsNotRightMost else if several then IsRightMost else Undefined)
  }

  lemma ShapeEnds(h: HashFn, s: Shape, offset: nat, size: nat) returns (p: Placed)
    requires Spans(s, Frame(0, size, 0)) && NoRebase(s) && offset < size
    ensures p == Locate(s, offset, Frame(0, size, 0)) && LastStart(s, Frame(0, size, 0)) >= 0
    ensures ProofEnds(h, Id(h, s), offset, size, ProofOf(h, s, offset, 0), p, LastStart(s, Frame(0, size, 0)), s.Branch?)
  {
    var f := Frame(0, size, 0);
    p := Locate(s, offset, f);
    assert At(offset, f, Undefined) == Start(offset, size);
    LastStartIn(s, f);
    GeneratedEnds(h, s, offset, f, 0, Undefined);
  }

  /** What the validator finds at the end of the path generated for `offset`. */
  ghost predicate PathEnds(h: HashFn, elements: seq<Element>, offset: nat, allowRebase: bool, p: Placed)
    requires elements != [] && Flat(elements) && NoEmptyNested(elements) && offset < EndOf(elements, 0)
  {
    var ((root, tree), size) := (GenerateTree(h, elements), EndOf(elements, 0));
    var path := GeneratePath(root, offset, tree);
    && path.Some?
    && ProofEnds(h, root, offset, size, ParsePath(path.value, allowRebase), p, LastChunkStart(elements), |elements| > 1)
  }

  lemma GeneratedPathEnds(h: HashFn, elements: seq<Element>, offset: nat, allowRebase: bool) returns (p: Placed)
    requires Provable(h, elements) && Flat(elements) && offset < EndOf(elements, 0)
    requires allowRebase ==> NoZeroIds(GenerateTree(h, elements).1)
    ensures p in Flatten(elements, 0, 0) && p.start <= offset < p.end
    ensures PathEnds(h, elements, offset, allowRebase, p)
  {
    var (s, f) := (ShapeOf(elements), Frame(0, EndOf(elements, 0), 0));
    ProvableTree(h, elements, offset);
    FlatTree(elements);
    if allowRebase {
      NoZeroIdNodes(h, s);
    }
    ParsePathOf(h, s, offset, 0, allowRebase, f);
    LocatedLeaf(s, offset, f);
    LastOfList(elements);
    p := ShapeEnds(h, s, offset, f.rb);
  }

  /** The path generated for any offset of a flat list is accepted, with the chunk there, under the basic
      rules always, under the strict borders exactly if the chunk has at most 262144 bytes, and under
      the strict split exactly if it is also cut as that asks. */
  lemma GeneratedExactly(h: HashFn, elements: seq<Element>, offset: nat) returns (p: Placed)
    requires Provable(h, elements) && Flat(elements) && offset < EndOf(elements, 0)
    ensures p in Flatten(elements, 0, 0) && p.start <= offset < p.end
    ensures
      var ((root, tree), size) := (GenerateTree(h, elements), EndOf(elements, 0));
      var (path, yes) := (GeneratePath(root, offset, tree), Accepted(p.data, p.start, p.end));
      && path.Some?
      && ValidatePath(h, root, offset, size, path.value, Basic) == yes
      && ValidatePath(h, root, offset, size, path.value, StrictBorders)
         == (if p.end - p.start <= 262144 then yes else Rejected)
      && ValidatePath(h, root, offset, size, path.value, StrictDataSplit)
         == (if ChunkSplit(p.start, p.end, size) then yes else Rejected)
  {
    p := GeneratedPathEnds(h, elements, offset, false);
    var ((root, tree), size) := (GenerateTree(h, elements), EndOf(elements, 0));
    var path := GeneratePath(root, offset, tree).value;
    BasicExactly(h, root, offset, size, path);
    StrictBordersExactly(h, root, offset, size, path);
    StrictSplitExactly(h, root, offset, size, path);
  }

  /** Under the rebasing ruleset it is accepted exactly if the chunk has at most 262144 bytes and starts on
      a boundary, or is the last of several and ends inside the next 262144 bytes. */
  lemma GeneratedRebaseExactly(h: HashFn, elements: seq<Element>, offset: nat) returns (p: Placed)
    requires Provable(h, elements) && Flat(elements) && offset < EndOf(elements, 0)
    requires NoZeroIds(GenerateTree(h, elements).1)
    ensures p in Flatten(elements, 0, 0) && p.start <= offset < p.end
    ensures
      var ((root, tree), size) := (GenerateTree(h, elements), EndOf(elements, 0));
      var path := GeneratePath(root, offset, tree);
      && path.Some?
      && ValidatePath(h, root, offset, size, path.value, OffsetRebaseSupport)
         == if p.end - p.start <= 262144 && RelaxedCases(p.start, p.end, |elements| > 1 && LastChunkStart(elements) <= offset)
            then Accepted(p.data, p.start, p.end) else Rejected
  {
    p := GeneratedPathEnds(h, elements, offset, true);
    var ((root, tree), size) := (GenerateTree(h, elements), EndOf(elements, 0));
    RebasedEnd(h, root, offset, size, GeneratePath(root, offset, tree).value, p, LastChunkStart(elements), |elements| > 1);
  }

  lemma RebasedEnd(
    h: HashFn, root: Bytes, offset: nat, size: nat, path: Bytes, p: Placed, lastStart: nat, several: bool
  )
    requires p.start <= offset < p.end && offset < size
    requires ProofEnds(h, root, offset, size, ParsePath(path, true), p, lastStart, several)
    ensures
      ValidatePath(h, root, offset, size, path, OffsetRebaseSupport)
      == if p.end - p.start <= 262144 && RelaxedCases(p.start, p.end, several && lastStart <= offset)
         then Accepted(p.data, p.start, p.end) else Rejected
  {
    RebaseSplitExactly(h, root, offset, size, path);
    var at := Reached(Start(offset, size), ParsePath(path, true));
    assert Yields(p.data, p.end, at) == Accepted(p.data, p.start, p.end);
    assert RelaxedPasses(at, p.end) <==> p.end - p.start <= 262144 && RelaxedCases(p.start, p.end, at.rightMost.IsRightMost?);
  }

  /** Two chunks of 100 bytes: the first is neither full nor last, and less than a chunk is left, so that
      the strict split refuses its path, which the strict borders accept. */
  lemma ShortChunkIsRefused(h: HashFn, d1: Bytes, d2: Bytes)
    requires Provable(h, [Chunk(d1, 100), Chunk(d2, 200)])
    ensures
      var (root, tree) := GenerateTree(h, [Chunk(d1, 100), Chunk(d2, 200)]);
      var path := GeneratePath(root, 50, tree);
      && path.Some?
      && ValidatePath(h, root, 50, 200, path.value, StrictDataSplit) == Rejected
      && ValidatePath(h, root, 50, 200, path.value, StrictBorders) == Accepted(d1, 0, 100)
  {
    var elements := [Chunk(d1, 100), Chunk(d2, 200)];
    TwoPlaced(d1, d2);
    var p := GeneratedExactly(h, elements, 50);
  }

  lemma TwoPlaced(d1: Bytes, d2: Bytes)
    ensures
      var elements := [Chunk(d1, 100), Chunk(d2, 200)];
      && Flat(elements) && EndOf(elements, 0) == 200
      && forall p | p in Flatten(elements, 0, 0) && p.start <= 50 :: p == Placed(d1, 0, 100)
  {
    var elements := [Chunk(d1, 100), Chunk(d2, 200)];
    assert elements[1..] == [Chunk(d2, 200)];
    assert EndOf([Chunk(d2, 200)], 100) == 200;
    FlatChunks(elements, 0);
    var all := Flatten(elements, 0, 0);
    assert all[0] == Placed(d1, 0, 100) && all[1] == Placed(d2, 100, 200);
  }
}
