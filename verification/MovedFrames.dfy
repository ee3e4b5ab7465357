/** Which paths the rebasing ruleset answers rightly against flat lists (src/ar_merkle.erl:126-231). */
module MovedFrames {
  import opened Bytes
  import opened Options
  import opened Merkle
  import opened MerkleShapes
  import opened MerkleBuild
  import opened MerkleLayout
  import opened MerkleProofs
  import opened MerkleSoundness
  import opened MerkleRebase
  import opened AgreeingProofs

  /** No branch of the path moves the origin of the offsets, unless a leaf comes next. */
  predicate MovesLate(at: Position, proof: Proof)
    requires Within(at)
    decreases proof
  {
    proof.ProofBranch? ==>
      var next := Descend(at, proof.note, proof.marked);
      (next.shift == at.shift || !proof.rest.ProofBranch?) && MovesLate(next, proof.rest)
  }

  //////////////////////////////////////////////////////////////////////////////
  // Paths that move the origin at the last branch, or not at all
  //////////////////////////////////////////////////////////////////////////////

  /** The validator's frame is that of the subtree. */
  ghost predicate Kept(s: Shape, f: Frame, at: Position) {
    && NoRebase(s) && Spans(s, f) && f.shift == 0
    && Within(at) && at.shift == 0 && at.lb == f.lb && at.rb == f.rb
  }

  /** Or the child is a leaf, and the frame starts where the leaf starts. */
  ghost predicate Shifted(s: Shape, f: Frame, at: Position) {
    s.Leaf? && Spans(s, f) && f.shift == 0 && Within(at) && at.lb == 0 && at.shift == f.lb && at.rb == f.rb - f.lb
  }

  lemma KeptNext(s: Shape, f: Frame, at: Position, marked: bool)
    requires s.Branch? && Kept(s, f, at)
    ensures
      var (next, f', at') := (Next(s, at.dest), NextFrame(s, at.dest, f), Descend(at, s.note, marked));
      && f' == (if at.dest < s.note then Frame(f.lb, s.note, 0) else Frame(s.note, f.rb, 0))
      && at'.shift + at'.lb == f'.lb && at'.shift + at'.rb == f'.rb && NoRebase(next) && Spans(next, f')
      && (at'.shift == 0 ==> Kept(next, f', at')) && (at'.shift > 0 ==> at'.lb == 0)
  {
  }

  lemma LeafVerdict(h: HashFn, s: Shape, f: Frame, at: Position, dataSize: int, rules: Rules) returns (p: Placed)
    requires s.Leaf? && (Kept(s, f, at) || Shifted(s, f, at))
    requires ValidateProof(h, Id(h, s), at, ProofLeaf(s.data, s.note), dataSize, rules).Accepted?
    ensures p in Leaves(s, f) && p.start <= at.shift + at.dest < p.end
    ensures ValidateProof(h, Id(h, s), at, ProofLeaf(s.data, s.note), dataSize, rules) == Accepted(p.data, p.start, p.end)
  {
    p := PlacedLeaf(s, f);
    assert Leaves(s, f) == [p];
  }

  lemma {:induction false} LateMoveVerdict(
    h: HashFn, s: Shape, f: Frame, at: Position, proof: Proof, dataSize: int, rules: Rules, strings: set<Bytes>
  ) returns (p: Placed)
    requires Comparable(h, s, proof, strings) && Within(at)
    requires Kept(s, f, at) || (Shifted(s, f, at) && proof.ProofLeaf?)
    requires MovesLate(at, proof) && ValidateProof(h, Id(h, s), at, proof, dataSize, rules).Accepted?
    ensures p in Leaves(s, f) && p.start <= at.shift + at.dest < p.end
    ensures ValidateProof(h, Id(h, s), at, proof, dataSize, rules) == Accepted(p.data, p.start, p.end)
    decreases proof
  {
    if proof.ProofBranch? {
      AcceptedNext(h, s, at, proof, dataSize, rules, strings);
      KeptNext(s, f, at, proof.marked);
      var (next, at') := (Next(s, at.dest), Descend(at, s.note, proof.marked));
      if proof.rest.ProofLeaf? {
        ProofNodeIsRoot(h, next, proof.rest, strings);
      }
      p := LateMoveVerdict(h, next, NextFrame(s, at.dest, f), at', proof.rest, dataSize, rules, strings);
    } else {
      ProofNodeIsRoot(h, s, proof, strings);
      p := LeafVerdict(h, s, f, at, dataSize, rules);
    }
  }

  //////////////////////////////////////////////////////////////////////////////
  // Paths that move it earlier
  //////////////////////////////////////////////////////////////////////////////

  /** The origin has moved. What the validator takes for the subtree starts behind the subtree, or at
      its start and then ends behind it; a branch may still end where it ends. */
  ghost predicate Lost(s: Shape, f: Frame, at: Position) {
    && NoRebase(s) && Spans(s, f) && Positive(s, f) && f.shift == 0 && Within(at) && at.shift > 0
    && at.shift + at.lb >= f.lb
    && (at.shift + at.lb == f.lb ==> at.shift + at.rb > f.rb || (s.Branch? && at.shift + at.rb == f.rb))
  }

  lemma LostNext(s: Shape, f: Frame, at: Position, marked: bool)
    requires s.Branch? && Lost(s, f, at)
    ensures Lost(Next(s, at.dest), NextFrame(s, at.dest, f), Descend(at, s.note, marked))
  {
    assert LeftFrame(s, f) == Frame(f.lb, s.note, 0) && RightFrame(s, f) == Frame(s.note, f.rb, 0);
    assert Positive(s.left, LeftFrame(s, f)) && Positive(s.right, RightFrame(s, f));
  }

  /** The verdict does not have the bounds of the chunk. */
  lemma {:induction false} LostVerdict(
    h: HashFn, s: Shape, f: Frame, at: Position, proof: Proof, dataSize: int, rules: Rules, strings: set<Bytes>
  ) returns (p: Placed)
    requires Comparable(h, s, proof, strings) && Lost(s, f, at)
    requires ValidateProof(h, Id(h, s), at, proof, dataSize, rules).Accepted?
    ensures p in Leaves(s, f) && ValidateProof(h, Id(h, s), at, proof, dataSize, rules).chunkId == p.data
    ensures ValidateProof(h, Id(h, s), at, proof, dataSize, rules) != Accepted(p.data, p.start, p.end)
    decreases proof
  {
    if proof.ProofBranch? {
      AcceptedNext(h, s, at, proof, dataSize, rules, strings);
      LostNext(s, f, at, proof.marked);
      p := LostVerdict(h, Next(s, at.dest), NextFrame(s, at.dest, f), Descend(at, s.note, proof.marked), proof.rest,
                       dataSize, rules, strings);
    } else {
      ProofNodeIsRoot(h, s, proof, strings);
      p := PlacedLeaf(s, f);
      assert Leaves(s, f) == [p];
    }
  }

  lemma {:induction false} EarlyMoveVerdict(
    h: HashFn, s: Shape, f: Frame, at: Position, proof: Proof, dataSize: int, rules: Rules, strings: set<Bytes>
  ) returns (p: Placed)
    requires Comparable(h, s, proof, strings) && Kept(s, f, at) && Positive(s, f)
    requires !MovesLate(at, proof) && ValidateProof(h, Id(h, s), at, proof, dataSize, rules).Accepted?
    ensures p in Leaves(s, f) && ValidateProof(h, Id(h, s), at, proof, dataSize, rules).chunkId == p.data
    ensures ValidateProof(h, Id(h, s), at, proof, dataSize, rules) != Accepted(p.data, p.start, p.end)
    decreases proof
  {
    AcceptedNext(h, s, at, proof, dataSize, rules, strings);
    KeptNext(s, f, at, proof.marked);
    var (next, f', at') := (Next(s, at.dest), NextFrame(s, at.dest, f), Descend(at, s.note, proof.marked));
    if at'.shift == 0 {
      p := EarlyMoveVerdict(h, next, f', at', proof.rest, dataSize, rules, strings);
    } else {
      if proof.rest.ProofBranch? {
        AcceptedNext(h, next, at', proof.rest, dataSize, rules, strings);
      }
      p := LostVerdict(h, next, f', at', proof.rest, dataSize, rules, strings);
    }
  }

  //////////////////////////////////////////////////////////////////////////////
  // The theorem on element lists
  //////////////////////////////////////////////////////////////////////////////

  /** The chunk at the offset, with its exact bounds. */
  ghost predicate TrueVerdict(elements: seq<Element>, offset: int, verdict: Verdict) {
    exists p :: p in Flatten(elements, 0, 0) && p.start <= offset < p.end && verdict == Accepted(p.data, p.start, p.end)
  }

  /** Chunks are not empty and have different IDs. */
  predicate ChunksDiffer(elements: seq<Element>) {
    var chunks := Flatten(elements, 0, 0);
    && (forall p | p in chunks :: p.start < p.end)
    && (forall p, q | p in chunks && q in chunks && p.data == q.data :: p == q)
  }

  lemma FlatStart(h: HashFn, elements: seq<Element>, dest: int, path: Bytes) returns (strings: set<Bytes>)
    requires Provable(h, elements) && Flat(elements) && 0 < EndOf(elements, 0)
    requires NoCollision(h, Hashed(h, GenerateTree(h, elements).1) + ProofPreimages(h, ParsePath(path, true)))
    ensures
      var (s, f, at) := (ShapeOf(elements), WholeFrame(elements), StartAt(dest, EndOf(elements, 0)));
      && GenerateTree(h, elements).0 == Id(h, s) && Kept(s, f, at) && Leaves(s, f) == Flatten(elements, 0, 0)
      && Comparable(h, s, ParsePath(path, true), strings)
  {
    strings := ComparableTree(h, elements, path, true);
    FlatTree(elements);
  }

  function StartAt(dest: int, rightBound: int): Position {
    Position(Clamp(dest, rightBound), 0, rightBound, 0, Undefined)
  }

  lemma StartIs(h: HashFn, id: Bytes, dest: int, rightBound: int, path: Bytes)
    requires rightBound > 0
    ensures Within(StartAt(dest, rightBound))
    ensures
      ValidatePath(h, id, dest, rightBound, path, OffsetRebaseSupport)
      == ValidateProof(h, id, StartAt(dest, rightBound), ParsePath(path, true), rightBound, RulesOf(OffsetRebaseSupport))
  {
  }

  lemma LateMoveInShape(h: HashFn, s: Shape, f: Frame, dest: int, path: Bytes, strings: set<Bytes>) returns (p: Placed)
    requires 0 < f.rb && Kept(s, f, StartAt(dest, f.rb)) && Comparable(h, s, ParsePath(path, true), strings)
    requires MovesLate(StartAt(dest, f.rb), ParsePath(path, true))
    requires ValidatePath(h, Id(h, s), dest, f.rb, path, OffsetRebaseSupport).Accepted?
    ensures p in Leaves(s, f) && p.start <= Clamp(dest, f.rb) < p.end
    ensures ValidatePath(h, Id(h, s), dest, f.rb, path, OffsetRebaseSupport) == Accepted(p.data, p.start, p.end)
  {
    StartIs(h, Id(h, s), dest, f.rb, path);
    p := LateMoveVerdict(h, s, f, StartAt(dest, f.rb), ParsePath(path, true), f.rb, RulesOf(OffsetRebaseSupport), strings);
  }

  lemma EarlyMoveInShape(h: HashFn, s: Shape, f: Frame, dest: int, path: Bytes, strings: set<Bytes>) returns (p: Placed)
    requires 0 < f.rb && Kept(s, f, StartAt(dest, f.rb)) && Comparable(h, s, ParsePath(path, true), strings)
    requires Positive(s, f) && !MovesLate(StartAt(dest, f.rb), ParsePath(path, true))
    requires ValidatePath(h, Id(h, s), dest, f.rb, path, OffsetRebaseSupport).Accepted?
    ensures p in Leaves(s, f) && ValidatePath(h, Id(h, s), dest, f.rb, path, OffsetRebaseSupport).chunkId == p.data
    ensures ValidatePath(h, Id(h, s), dest, f.rb, path, OffsetRebaseSupport) != Accepted(p.data, p.start, p.end)
  {
    StartIs(h, Id(h, s), dest, f.rb, path);
    p := EarlyMoveVerdict(h, s, f, StartAt(dest, f.rb), ParsePath(path, true), f.rb, RulesOf(OffsetRebaseSupport), strings);
  }

  /** Such a path yields the real chunk at the offset with its exact bounds. */
  lemma LateMoveIsTrue(h: HashFn, elements: seq<Element>, dest: int, path: Bytes)
    requires Provable(h, elements) && Flat(elements) && 0 < EndOf(elements, 0)
    requires ValidatePath(h, GenerateTree(h, elements).0, dest, EndOf(elements, 0), path, OffsetRebaseSupport).Accepted?
    requires NoCollision(h, Hashed(h, GenerateTree(h, elements).1) + ProofPreimages(h, ParsePath(path, true)))
    requires MovesLate(StartAt(dest, EndOf(elements, 0)), ParsePath(path, true))
    ensures
      var (root, end) := (GenerateTree(h, elements).0, EndOf(elements, 0));
      TrueVerdict(elements, Clamp(dest, end), ValidatePath(h, root, dest, end, path, OffsetRebaseSupport))
  {
    var strings := FlatStart(h, elements, dest, path);
    var p := LateMoveInShape(h, ShapeOf(elements), WholeFrame(elements), dest, path, strings);
  }

  lemma EarlyMoveIsWrong(h: HashFn, elements: seq<Element>, dest: int, path: Bytes)
    requires Provable(h, elements) && Flat(elements) && ChunksDiffer(elements) && 0 < EndOf(elements, 0)
    requires ValidatePath(h, GenerateTree(h, elements).0, dest, EndOf(elements, 0), path, OffsetRebaseSupport).Accepted?
    requires NoCollision(h, Hashed(h, GenerateTree(h, elements).1) + ProofPreimages(h, ParsePath(path, true)))
    requires !MovesLate(StartAt(dest, EndOf(elements, 0)), ParsePath(path, true))
    ensures
      var (root, end) := (GenerateTree(h, elements).0, EndOf(elements, 0));
      !TrueVerdict(elements, Clamp(dest, end), ValidatePath(h, root, dest, end, path, OffsetRebaseSupport))
  {
    var strings := FlatStart(h, elements, dest, path);
    LeavesPositive(ShapeOf(elements), WholeFrame(elements));
    var p := EarlyMoveInShape(h, ShapeOf(elements), WholeFrame(elements), dest, path, strings);
  }

  /** Against the root of a flat list of non-empty chunks with different IDs, the rebasing ruleset
      answers an offset with the real chunk and its exact bounds if and only if the accepted path
      moves the origin nowhere but at its last branch. */
  lemma FlatVerdictIff(h: HashFn, elements: seq<Element>, dest: int, path: Bytes)
    requires Provable(h, elements) && Flat(elements) && ChunksDiffer(elements) && 0 < EndOf(elements, 0)
    requires ValidatePath(h, GenerateTree(h, elements).0, dest, EndOf(elements, 0), path, OffsetRebaseSupport).Accepted?
    requires NoCollision(h, Hashed(h, GenerateTree(h, elements).1) + ProofPreimages(h, ParsePath(path, true)))
    ensures
      var (root, end) := (GenerateTree(h, elements).0, EndOf(elements, 0));
      TrueVerdict(elements, Clamp(dest, end), ValidatePath(h, root, dest, end, path, OffsetRebaseSupport))
      <==> MovesLate(StartAt(dest, end), ParsePath(path, true))
  {
    var end := EndOf(elements, 0);
    if MovesLate(StartAt(dest, end), ParsePath(path, true)) {
      LateMoveIsTrue(h, elements, dest, path);
    } else {
      EarlyMoveIsWrong(h, elements, dest, path);
    }
  }
}
