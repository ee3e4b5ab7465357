/** Proofs whose marks agree with the tree, nested lists included (src/ar_merkle.erl:44-231). */
module AgreeingProofs {
  import opened Bytes
  import opened Options
  import opened Merkle
  import opened MerkleShapes
  import opened MerkleBuild
  import opened MerkleLayout
  import opened MerkleProofs
  import opened MerkleSoundness

  /** On the walk to the absolute `offset`, exactly the branches above a rebased child are marked. */
  ghost predicate Agrees(s: Shape, offset: int, f: Frame, proof: Proof) {
    s.Branch? && proof.ProofBranch? ==>
      var dest := offset - f.shift;
      proof.marked == Next(s, dest).rebased && Agrees(Next(s, dest), offset, NextFrame(s, dest, f), proof.rest)
  }

  /** Such a proof stays in the frames of the tree, and what it yields is the chunk at the offset. */
  lemma {:induction false} AgreeingVerdict(
    h: HashFn, s: Shape, offset: int, f: Frame, rightMost: RightMost, proof: Proof, dataSize: int, rules: Rules,
    strings: set<Bytes>
  )
    requires Comparable(h, s, proof, strings) && Spans(s, f) && Inside(offset, f) && Agrees(s, offset, f, proof)
    requires ValidateProof(h, Id(h, s), At(offset, f, rightMost), proof, dataSize, rules).Accepted?
    ensures
      var p := Locate(s, offset, f);
      ValidateProof(h, Id(h, s), At(offset, f, rightMost), proof, dataSize, rules) == Accepted(p.data, p.start, p.end)
    decreases proof
  {
    if proof.ProofBranch? {
      var dest := offset - f.shift;
      AcceptedNext(h, s, At(offset, f, rightMost), proof, dataSize, rules, strings);
      DescendFrame(s, offset, f, rightMost);
      AgreeingVerdict(h, Next(s, dest), offset, NextFrame(s, dest, f), NextRightMost(s, dest, rightMost), proof.rest,
                      dataSize, rules, strings);
    } else {
      ProofNodeIsRoot(h, s, proof, strings);
    }
  }

  //////////////////////////////////////////////////////////////////////////////
  // The generated proof
  //////////////////////////////////////////////////////////////////////////////

  /** At the root of `s` the generator holds the right offset, and goes on holding it. */
  ghost predicate Tracks(s: Shape, offset: int, dest: int, f: Frame, prevNote: nat, exact: bool) {
    && Spans(s, f) && Inside(offset, f) && WellPlaced(s, exact)
    && (s.Branch? ==> dest == offset - f.shift) && (exact ==> prevNote == f.lb)
  }

  lemma TracksNext(s: Shape, offset: int, dest: int, f: Frame, prevNote: nat, exact: bool)
    requires s.Branch? && Tracks(s, offset, dest, f, prevNote, exact)
    ensures
      var next := Next(s, dest);
      Tracks(next, offset, NextDest(s, dest, prevNote), NextFrame(s, dest, f), s.note, dest >= s.note && !next.rebased)
  {
  }

  lemma {:induction false} GeneratedAgrees(
    h: HashFn, s: Shape, offset: int, dest: int, f: Frame, prevNote: nat, exact: bool
  )
    requires Tracks(s, offset, dest, f, prevNote, exact)
    ensures Agrees(s, offset, f, ProofOf(h, s, dest, prevNote))
    decreases s
  {
    if s.Branch? {
      var next := Next(s, dest);
      TracksNext(s, offset, dest, f, prevNote, exact);
      GeneratedAgrees(h, next, offset, NextDest(s, dest, prevNote), NextFrame(s, dest, f), s.note,
                      dest >= s.note && !next.rebased);
    }
  }

  lemma {:induction false} AgreeingIsGenerated(
    h: HashFn, s: Shape, offset: int, dest: int, f: Frame, prevNote: nat, exact: bool,
    rightMost: RightMost, proof: Proof, dataSize: int, rules: Rules, strings: set<Bytes>
  )
    requires Comparable(h, s, proof, strings) && Tracks(s, offset, dest, f, prevNote, exact) && Agrees(s, offset, f, proof)
    requires ValidateProof(h, Id(h, s), At(offset, f, rightMost), proof, dataSize, rules).Accepted?
    ensures proof == ProofOf(h, s, dest, prevNote)
    decreases proof
  {
    if proof.ProofBranch? {
      AcceptedNext(h, s, At(offset, f, rightMost), proof, dataSize, rules, strings);
      var next := Next(s, dest);
      TracksNext(s, offset, dest, f, prevNote, exact);
      DescendFrame(s, offset, f, rightMost);
      AgreeingIsGenerated(h, next, offset, NextDest(s, dest, prevNote), NextFrame(s, dest, f), s.note,
                          dest >= s.note && !next.rebased, NextRightMost(s, dest, rightMost), proof.rest, dataSize, rules,
                          strings);
    } else {
      ProofNodeIsRoot(h, s, proof, strings);
    }
  }

  //////////////////////////////////////////////////////////////////////////////
  // The theorems on element lists
  //////////////////////////////////////////////////////////////////////////////

  function WholeFrame(elements: seq<Element>): Frame { Frame(0, EndOf(elements, 0), 0) }

  /** The tree of a provable list, ready to be compared with a path. */
  lemma ComparableTree(h: HashFn, elements: seq<Element>, path: Bytes, allowRebase: bool) returns (strings: set<Bytes>)
    requires Provable(h, elements)
    requires NoCollision(h, Hashed(h, GenerateTree(h, elements).1) + ProofPreimages(h, ParsePath(path, allowRebase)))
    ensures
      var s := ShapeOf(elements);
      && GenerateTree(h, elements).0 == Id(h, s) && Spans(s, WholeFrame(elements))
      && Leaves(s, WholeFrame(elements)) == Flatten(elements, 0, 0)
      && Comparable(h, s, ParsePath(path, allowRebase), strings)
  {
    var (root, tree) := GenerateTree(h, elements);
    strings := Hashed(h, tree) + ProofPreimages(h, ParsePath(path, allowRebase));
    ProvableTree(h, elements, 0);
    forall n | n in tree ensures n.note < NOTE_LIMIT {
      SpannedNotesFit(h, ShapeOf(elements), WholeFrame(elements), n);
    }
    TreeNotesFit(h, elements);
    ParsedNotesFit(path, allowRebase);
  }

  /** Against the root of any list, nested or not, and under any ruleset, an accepted path whose marks
      agree with the tree yields the real chunk at the offset with its exact bounds. */
  lemma NestedSoundness(h: HashFn, elements: seq<Element>, dest: int, path: Bytes, ruleset: Ruleset) returns (p: Placed)
    requires Provable(h, elements) && 0 < EndOf(elements, 0)
    requires ValidatePath(h, GenerateTree(h, elements).0, dest, EndOf(elements, 0), path, ruleset).Accepted?
    requires
      var proof := ParsePath(path, RulesOf(ruleset).allowRebase);
      && NoCollision(h, Hashed(h, GenerateTree(h, elements).1) + ProofPreimages(h, proof))
      && Agrees(ShapeOf(elements), Clamp(dest, EndOf(elements, 0)), WholeFrame(elements), proof)
    ensures p in Flatten(elements, 0, 0) && p.start <= Clamp(dest, EndOf(elements, 0)) < p.end
    ensures
      ValidatePath(h, GenerateTree(h, elements).0, dest, EndOf(elements, 0), path, ruleset)
      == Accepted(p.data, p.start, p.end)
  {
    var (root, end, rules) := (GenerateTree(h, elements).0, EndOf(elements, 0), RulesOf(ruleset));
    var (s, f, offset) := (ShapeOf(elements), WholeFrame(elements), Clamp(dest, end));
    var strings := ComparableTree(h, elements, path, rules.allowRebase);
    StartOf(h, root, dest, end, path, ruleset);
    LocatedLeaf(s, offset, f);
    AgreeingVerdict(h, s, offset, f, Undefined, ParsePath(path, rules.allowRebase), end, rules, strings);
    p := Locate(s, offset, f);
  }

  lemma GeneratedPathAgrees(h: HashFn, s: Shape, f: Frame, offset: int)
    requires f.lb == f.shift == 0 && f.rb < NOTE_LIMIT && Spans(s, f) && Inside(offset, f)
    requires WellPlaced(s, true) && DataSized(s) && NoZeroId(h, s)
    ensures Agrees(s, offset, f, ParsePath(PathOf(h, s, offset, 0), true))
  {
    ParsePathOf(h, s, offset, 0, true, f);
    GeneratedAgrees(h, s, offset, offset, f, 0, true);
  }

  lemma ProofDeterminesPath(h: HashFn, s: Shape, dest: int, path: Bytes)
    requires ParsePath(path, true) == ProofOf(h, s, dest, 0)
    ensures path == PathOf(h, s, dest, 0)
  {
    ProofOfBytes(h, s, dest, 0);
    UnparsePath(path, true);
  }

  ghost predicate Passes(h: HashFn, id: Bytes, offset: int, f: Frame, path: Bytes) {
    var at := At(offset, f, Undefined);
    Within(at) && ValidateProof(h, id, at, ParsePath(path, true), f.rb, RulesOf(OffsetRebaseSupport)).Accepted?
  }

  lemma AcceptedPasses(h: HashFn, id: Bytes, dest: int, rightBound: int, path: Bytes)
    requires ValidatePath(h, id, dest, rightBound, path, OffsetRebaseSupport).Accepted?
    ensures rightBound > 0 && Passes(h, id, Clamp(dest, rightBound), Frame(0, rightBound, 0), path)
  {
    StartOf(h, id, dest, rightBound, path, OffsetRebaseSupport);
  }

  lemma AgreeingPathIsGenerated(h: HashFn, s: Shape, f: Frame, offset: int, path: Bytes, strings: set<Bytes>)
    requires f.lb == f.shift == 0 && Spans(s, f) && Inside(offset, f) && WellPlaced(s, true)
    requires Comparable(h, s, ParsePath(path, true), strings) && Agrees(s, offset, f, ParsePath(path, true))
    requires Passes(h, Id(h, s), offset, f, path)
    ensures path == PathOf(h, s, offset, 0)
  {
    AgreeingIsGenerated(h, s, offset, offset, f, 0, true, Undefined, ParsePath(path, true), f.rb,
                        RulesOf(OffsetRebaseSupport), strings);
    ProofDeterminesPath(h, s, offset, path);
  }

  lemma ShapeGeneratedIff(h: HashFn, s: Shape, f: Frame, offset: int, path: Bytes, strings: set<Bytes>)
    requires f.lb == f.shift == 0 && f.rb < NOTE_LIMIT && Spans(s, f) && Inside(offset, f)
    requires WellPlaced(s, true) && DataSized(s) && NoZeroId(h, s)
    requires Comparable(h, s, ParsePath(path, true), strings) && Passes(h, Id(h, s), offset, f, path)
    ensures path == PathOf(h, s, offset, 0) <==> Agrees(s, offset, f, ParsePath(path, true))
  {
    if path == PathOf(h, s, offset, 0) {
      GeneratedPathAgrees(h, s, f, offset);
    } else if Agrees(s, offset, f, ParsePath(path, true)) {
      AgreeingPathIsGenerated(h, s, f, offset, path, strings);
    }
  }

  /** The path generated for a provable list without zero IDs. */
  lemma GeneratedIs(h: HashFn, elements: seq<Element>, offset: int)
    requires Provable(h, elements) && NoZeroIds(GenerateTree(h, elements).1)
    ensures
      var ((root, tree), s) := (GenerateTree(h, elements), ShapeOf(elements));
      GeneratePath(root, offset, tree) == Some(PathOf(h, s, offset, 0)) && DataSized(s) && NoZeroId(h, s)
  {
    ProvableTree(h, elements, offset);
    NoZeroIdNodes(h, ShapeOf(elements));
  }

  /** Where the generator serves the nested list, the rebasing ruleset accepts of the paths whose marks
      agree with the tree only the generated one, and the marks of that one do. */
  lemma GeneratedIffAgrees(h: HashFn, elements: seq<Element>, dest: int, path: Bytes)
    requires Provable(h, elements) && 0 < EndOf(elements, 0)
    requires WellPlaced(ShapeOf(elements), true) && NoZeroIds(GenerateTree(h, elements).1)
    requires ValidatePath(h, GenerateTree(h, elements).0, dest, EndOf(elements, 0), path, OffsetRebaseSupport).Accepted?
    requires NoCollision(h, Hashed(h, GenerateTree(h, elements).1) + ProofPreimages(h, ParsePath(path, true)))
    ensures
      var ((root, tree), offset) := (GenerateTree(h, elements), Clamp(dest, EndOf(elements, 0)));
      GeneratePath(root, offset, tree) == Some(path)
      <==> Agrees(ShapeOf(elements), offset, WholeFrame(elements), ParsePath(path, true))
  {
    var (end, offset) := (EndOf(elements, 0), Clamp(dest, EndOf(elements, 0)));
    var strings := ComparableTree(h, elements, path, true);
    GeneratedIs(h, elements, offset);
    AcceptedPasses(h, GenerateTree(h, elements).0, dest, end, path);
    ShapeGeneratedIff(h, ShapeOf(elements), WholeFrame(elements), offset, path, strings);
  }
}
