/** What the validator can accept: bounds on arbitrary bytes, how the rulesets nest, and that
    accepted proofs of a flat tree are the generated ones. */
module MerkleSoundness {
  import opened Bytes
  import opened Options
  import opened Merkle
  import opened MerkleShapes
  import opened MerkleBuild
  import opened MerkleLayout
  import opened MerkleProofs

  //////////////////////////////////////////////////////////////////////////////
  // Arbitrary bytes
  //////////////////////////////////////////////////////////////////////////////

  lemma {:induction false} ProofInterval(h: HashFn, id: Bytes, at: Position, proof: Proof, dataSize: int, rules: Rules)
    requires Within(at)
    ensures !ValidateProof(h, id, at, proof, dataSize, rules).InvalidRightBound?
    ensures
      var v := ValidateProof(h, id, at, proof, dataSize, rules);
      v.Accepted? ==>
        && 0 <= v.start <= at.dest + at.shift
        && v.start < v.end <= at.rb + at.shift
        && (rules.checkBorders ==> v.end - v.start <= DATA_CHUNK_SIZE)
    decreases proof
  {
    if proof.ProofBranch? {
      ProofInterval(h, if at.dest < proof.note then proof.left else proof.right,
                    Descend(at, proof.note, proof.marked), proof.rest, dataSize, rules);
    }
  }

  /** On any bytes, a verdict is an interval inside the data that starts at or before the clamped
      offset, and rulesets that check borders keep it within one chunk. */
  lemma AcceptedInterval(h: HashFn, id: Bytes, dest: int, rightBound: int, path: Bytes, ruleset: Ruleset)
    ensures
      var v := ValidatePath(h, id, dest, rightBound, path, ruleset);
      && (v.InvalidRightBound? <==> rightBound <= 0)
      && (v.Accepted? ==>
            && 0 <= v.start <= Clamp(dest, rightBound)
            && v.start < v.end <= rightBound
            && (!ruleset.Basic? ==> v.end - v.start <= DATA_CHUNK_SIZE))
  {
    if rightBound > 0 {
      var rules := RulesOf(ruleset);
      ProofInterval(h, id, Position(Clamp(dest, rightBound), 0, rightBound, 0, Undefined),
                    ParsePath(path, rules.allowRebase), rightBound, rules);
    }
  }

  /** `weak` rejects nothing at a leaf that `strong` accepts. */
  predicate Weaker(weak: Rules, strong: Rules) {
    && (weak.checkBorders ==> strong.checkBorders)
    && (weak.split.AnySplit? || weak.split == strong.split)
  }

  lemma {:induction false} WeakerAccepts(
    h: HashFn, id: Bytes, at: Position, proof: Proof, dataSize: int, weak: Rules, strong: Rules
  )
    requires Within(at) && Weaker(weak, strong)
    requires ValidateProof(h, id, at, proof, dataSize, strong).Accepted?
    ensures ValidateProof(h, id, at, proof, dataSize, weak) == ValidateProof(h, id, at, proof, dataSize, strong)
    decreases proof
  {
    if proof.ProofBranch? {
      WeakerAccepts(h, if at.dest < proof.note then proof.left else proof.right,
                    Descend(at, proof.note, proof.marked), proof.rest, dataSize, weak, strong);
    }
  }

  /** A path accepted under the strict split is accepted with the same result under the strict
      borders, and one accepted there under the basic rules. */
  lemma RulesetsNest(h: HashFn, id: Bytes, dest: int, rightBound: int, path: Bytes)
    ensures
      var split := ValidatePath(h, id, dest, rightBound, path, StrictDataSplit);
      var borders := ValidatePath(h, id, dest, rightBound, path, StrictBorders);
      var basic := ValidatePath(h, id, dest, rightBound, path, Basic);
      && (split.Accepted? ==> borders == split)
      && (borders.Accepted? ==> basic == borders)
  {
    if rightBound > 0 {
      var (at, proof) := (Position(Clamp(dest, rightBound), 0, rightBound, 0, Undefined), ParsePath(path, false));
      if ValidateProof(h, id, at, proof, rightBound, RulesOf(StrictDataSplit)).Accepted? {
        WeakerAccepts(h, id, at, proof, rightBound, RulesOf(StrictBorders), RulesOf(StrictDataSplit));
      }
      if ValidateProof(h, id, at, proof, rightBound, RulesOf(StrictBorders)).Accepted? {
        WeakerAccepts(h, id, at, proof, rightBound, RulesOf(Basic), RulesOf(StrictBorders));
      }
    }
  }

  predicate Unmarked(proof: Proof) {
    proof.ProofBranch? ==> !proof.marked && Unmarked(proof.rest)
  }

  lemma {:induction false} UnmarkedParse(path: Bytes)
    requires Unmarked(ParsePath(path, true))
    ensures ParsePath(path, false) == ParsePath(path, true)
    decreases |path|
  {
    if |path| != 64 && |path| >= 96 && !(|path| >= 128 && path[..32] == Zeros(32)) {
      UnmarkedParse(path[96..]);
    }
  }

  /** The rebasing ruleset accepts a path without marks only where the strict borders do. */
  lemma RebaseWithoutMarks(h: HashFn, id: Bytes, dest: int, rightBound: int, path: Bytes)
    requires Unmarked(ParsePath(path, true))
    requires ValidatePath(h, id, dest, rightBound, path, OffsetRebaseSupport).Accepted?
    ensures
      ValidatePath(h, id, dest, rightBound, path, StrictBorders)
      == ValidatePath(h, id, dest, rightBound, path, OffsetRebaseSupport)
  {
    UnmarkedParse(path);
    WeakerAccepts(h, id, Position(Clamp(dest, rightBound), 0, rightBound, 0, Undefined), ParsePath(path, true), rightBound,
                  RulesOf(StrictBorders), RulesOf(OffsetRebaseSupport));
  }

  //////////////////////////////////////////////////////////////////////////////
  // Proofs of a known tree
  //////////////////////////////////////////////////////////////////////////////

  /** Every string the validator hashes while it follows `proof`. */
  function ProofPreimages(h: HashFn, proof: Proof): set<Bytes> {
    match proof
    case ProofLeaf(data, end) => {data, NoteToBinary(end), LeafPreimage(h, data, end)}
    case ProofBranch(_, l, r, note, rest) => {l, r, NoteToBinary(note), BranchPreimage(h, l, r, note)} + ProofPreimages(h, rest)
    case Malformed => {}
  }

  /** Notes read from 32 bytes. */
  predicate ProofNotesFit(proof: Proof) {
    match proof
    case ProofLeaf(_, end) => end < NOTE_LIMIT
    case ProofBranch(_, _, _, note, rest) => note < NOTE_LIMIT && ProofNotesFit(rest)
    case Malformed => true
  }

  lemma {:induction false} ParsedNotesFit(path: Bytes, allowRebase: bool)
    ensures ProofNotesFit(ParsePath(path, allowRebase))
    decreases |path|
  {
    if |path| == 64 {
      NoteOfDecoded(path[32..]);
    } else if |path| >= 128 && allowRebase && path[..32] == Zeros(32) {
      NoteOfDecoded(path[96..128]);
      ParsedNotesFit(path[128..], allowRebase);
    } else if |path| >= 96 {
      NoteOfDecoded(path[64..96]);
      ParsedNotesFit(path[96..], allowRebase);
    }
  }

  predicate ShapeNotesFit(s: Shape) {
    s.note < NOTE_LIMIT && (s.Branch? ==> ShapeNotesFit(s.left) && ShapeNotesFit(s.right))
  }

  ghost predicate Comparable(h: HashFn, s: Shape, proof: Proof, strings: set<Bytes>) {
    && NoCollision(h, strings) && Preimages(h, s) <= strings && ProofPreimages(h, proof) <= strings
    && ShapeNotesFit(s) && ProofNotesFit(proof)
  }

  /** Without a collision, the first node of a proof that hashes to the shape's ID is its root. */
  lemma ProofNodeIsRoot(h: HashFn, s: Shape, proof: Proof, strings: set<Bytes>)
    requires Comparable(h, s, proof, strings)
    requires proof.ProofLeaf? ==> h(LeafPreimage(h, proof.data, proof.endOffset)) == Id(h, s)
    requires proof.ProofBranch? ==> h(BranchPreimage(h, proof.left, proof.right, proof.note)) == Id(h, s)
    ensures proof.ProofLeaf? ==> s.Leaf? && proof == ProofLeaf(s.data, s.note)
    ensures proof.ProofBranch? ==>
      s.Branch? && proof.left == Id(h, s.left) && proof.right == Id(h, s.right) && proof.note == s.note
  {
    match (proof, s)
    case (ProofLeaf(d, n), Leaf(d', n', _)) =>
      LeafHashInjective(h, strings, d, n, d', n');
      NoteInjective(n, n');
    case (ProofBranch(_, l, r, n, _), Branch(l', r', n', _, _)) =>
      BranchHashInjective(h, strings, l, r, n, Id(h, l'), Id(h, r'), n');
      NoteInjective(n, n');
    case (ProofLeaf(d, n), Branch(l, r, n', _, _)) => 
    case (ProofBranch(_, l, r, n', _), Leaf(d, n, _)) => 
    case (Malformed, _) =>
  }

  /** An accepted proof of a branch goes on with an accepted proof of its child. */
  lemma AcceptedNext(h: HashFn, s: Shape, at: Position, proof: Proof, dataSize: int, rules: Rules, strings: set<Bytes>)
    requires Comparable(h, s, proof, strings) && Within(at) && proof.ProofBranch?
    requires ValidateProof(h, Id(h, s), at, proof, dataSize, rules).Accepted?
    ensures s.Branch? && proof.note == s.note && Comparable(h, Next(s, at.dest), proof.rest, strings)
    ensures proof.left == Id(h, s.left) && proof.right == Id(h, s.right)
    ensures
      ValidateProof(h, Id(h, s), at, proof, dataSize, rules)
      == ValidateProof(h, Id(h, Next(s, at.dest)), Descend(at, s.note, proof.marked), proof.rest, dataSize, rules)
  {
    ProofNodeIsRoot(h, s, proof, strings);
  }

  /** Without a collision, an accepted proof of a shape without rebased nodes is the generated one. */
  lemma {:induction false} AcceptedIsGenerated(
    h: HashFn, s: Shape, at: Position, proof: Proof, prevNote: nat, dataSize: int, rules: Rules, strings: set<Bytes>
  )
    requires Comparable(h, s, proof, strings)
    requires NoRebase(s) && Unmarked(proof)
    requires Within(at) && ValidateProof(h, Id(h, s), at, proof, dataSize, rules).Accepted?
    ensures proof == ProofOf(h, s, at.dest, prevNote)
    decreases proof
  {
    ProofNodeIsRoot(h, s, proof, strings);
    if proof.ProofBranch? {
      AcceptedIsGenerated(h, Next(s, at.dest), Descend(at, s.note, false), proof.rest, s.note, dataSize, rules, strings);
    }
  }

  /** Without a collision, every accepted proof ends in a chunk of the tree, whatever the rules. */
  lemma {:induction false} AcceptedChunkIsLeaf(
    h: HashFn, s: Shape, at: Position, proof: Proof, dataSize: int, rules: Rules, strings: set<Bytes>
  ) returns (n: Node)
    requires Comparable(h, s, proof, strings)
    requires Within(at) && ValidateProof(h, Id(h, s), at, proof, dataSize, rules).Accepted?
    ensures n in Nodes(h, s) && n.LeafNode? && n.data == ValidateProof(h, Id(h, s), at, proof, dataSize, rules).chunkId
    decreases proof
  {
    ProofNodeIsRoot(h, s, proof, strings);
    if proof.ProofBranch? {
      n := AcceptedChunkIsLeaf(h, Next(s, at.dest), Descend(at, s.note, proof.marked), proof.rest, dataSize, rules, strings);
    } else {
      n := NodeOf(h, s);
    }
  }

  //////////////////////////////////////////////////////////////////////////////
  // From proofs back to bytes
  //////////////////////////////////////////////////////////////////////////////

  function ProofBytes(proof: Proof): Bytes {
    match proof
    case ProofLeaf(data, end) => data + NoteToBinary(end)
    case ProofBranch(marked, l, r, note, rest) =>
      (if marked then Zeros(HASH_SIZE) else []) + l + r + NoteToBinary(note) + ProofBytes(rest)
    case Malformed => []
  }

  predicate Complete(proof: Proof) {
    match proof
    case ProofLeaf(_, _) => true
    case ProofBranch(_, _, _, _, rest) => Complete(rest)
    case Malformed => false
  }

  lemma FourParts(b: Bytes)
    requires |b| >= 96
    ensures [] + b[..32] + b[32..64] + b[64..96] + b[96..] == b
  {
  }

  lemma FiveParts(b: Bytes)
    requires |b| >= 128
    ensures b[..32] + b[32..64] + b[64..96] + b[96..128] + b[128..] == b
  {
  }

  lemma {:induction false} UnparsePath(path: Bytes, allowRebase: bool)
    requires Complete(ParsePath(path, allowRebase))
    ensures ProofBytes(ParsePath(path, allowRebase)) == path
    decreases |path|
  {
    if |path| == 64 {
      NoteOfDecoded(path[32..]);
      assert path == path[..32] + path[32..];
    } else if |path| >= 128 && allowRebase && path[..32] == Zeros(32) {
      NoteOfDecoded(path[96..128]);
      UnparsePath(path[128..], allowRebase);
      FiveParts(path);
    } else {
      NoteOfDecoded(path[64..96]);
      UnparsePath(path[96..], allowRebase);
      FourParts(path);
    }
  }

  lemma {:induction false} ProofOfBytes(h: HashFn, s: Shape, dest: int, prevNote: nat)
    ensures Complete(ProofOf(h, s, dest, prevNote))
    ensures ProofBytes(ProofOf(h, s, dest, prevNote)) == PathOf(h, s, dest, prevNote)
  {
    if s.Branch? {
      ProofOfBytes(h, Next(s, dest), NextDest(s, dest, prevNote), s.note);
    }
  }

  lemma {:induction false} UnmarkedWithoutRebase(path: Bytes)
    ensures Unmarked(ParsePath(path, false))
    decreases |path|
  {
    if |path| != 64 && |path| >= 96 {
      UnmarkedWithoutRebase(path[96..]);
    }
  }

  //////////////////////////////////////////////////////////////////////////////
  // Theorems about trees
  //////////////////////////////////////////////////////////////////////////////

  predicate ElementNotesFit(elements: seq<Element>) {
    forall e | e in elements && e.Chunk? :: e.note < NOTE_LIMIT
  }

  predicate RowNotesFit(row: seq<Shape>) {
    forall s | s in row :: ShapeNotesFit(s) && MaxOf(s) < NOTE_LIMIT && !s.rebased
  }

  lemma {:induction false} FlatForestNotesFit(elements: seq<Element>)
    requires Flat(elements) && NoEmptyNested(elements) && ElementNotesFit(elements)
    ensures RowNotesFit(Forest(elements))
  {
    if elements != [] {
      FlatForestNotesFit(elements[1..]);
    }
  }

  lemma {:induction false} RowKeepsNotesFit(row: seq<Shape>, shift: nat)
    requires RowNotesFit(row)
    ensures RowNotesFit(ShapeRow(row, shift))
    decreases |row|
  {
    if |row| >= 2 {
      RowKeepsNotesFit(row[2..], Pair(row[0], row[1], shift).max);
    }
  }

  lemma {:induction false} AllRowsNotesFit(row: seq<Shape>)
    requires row != [] && RowNotesFit(row)
    ensures ShapeNotesFit(ShapeAllRows(row))
    decreases |row|
  {
    if |row| > 1 {
      RowKeepsNotesFit(row, 0);
      AllRowsNotesFit(ShapeRow(row, 0));
    }
  }

  lemma {:induction false} NodeFlagsFalse(h: HashFn, s: Shape, n: Node)
    requires NoRebase(s) && !s.rebased && ShapeNotesFit(s) && n in Nodes(h, s)
    ensures !n.isRebased && n.note < NOTE_LIMIT
  {
    if s.Branch? {
      if n in Nodes(h, s.left) {
        NodeFlagsFalse(h, s.left, n);
      } else if n in Nodes(h, s.right) {
        NodeFlagsFalse(h, s.right, n);
      }
    }
  }

  /** The tree of a flat list: its shape, its proofs and their bytes. */
  lemma FlatTreeFacts(h: HashFn, elements: seq<Element>, dest: int)
    requires elements != [] && Flat(elements) && ElementNotesFit(elements) && NoEmptyNested(elements)
    requires NoCollision(h, Hashed(h, GenerateTree(h, elements).1))
    ensures
      var (root, tree) := GenerateTree(h, elements);
      var s := ShapeOf(elements);
      && root == Id(h, s) && NoRebase(s) && ShapeNotesFit(s) && Preimages(h, s) <= Hashed(h, tree)
      && FlagsAgree(tree) && GeneratePath(root, dest, tree) == Some(PathOf(h, s, dest, 0))
  {
    var (root, tree) := GenerateTree(h, elements);
    var s := ShapeOf(elements);
    FlatTree(elements);
    FlatForestNotesFit(elements);
    AllRowsNotesFit(Forest(elements));
    GenerateTreeIsShape(h, elements);
    TreePreimages(h, tree, s);
    assert ForestNodes(h, [s]) == Nodes(h, s);
    forall n | n in tree ensures !n.isRebased && n.note < NOTE_LIMIT {
      NodeFlagsFalse(h, s, n);
    }
    GeneratedPath(h, s, tree, dest);
  }

  ghost predicate ComparablePath(h: HashFn, s: Shape, path: Bytes, allowRebase: bool, strings: set<Bytes>) {
    && NoCollision(h, strings) && ShapeNotesFit(s)
    && Preimages(h, s) <= strings && ProofPreimages(h, ParsePath(path, allowRebase)) <= strings
  }

  lemma ShapeProofsAreUnique(
    h: HashFn, s: Shape, dest: int, rightBound: int, path: Bytes, ruleset: Ruleset, strings: set<Bytes>
  )
    requires NoRebase(s) && !ruleset.OffsetRebaseSupport?
    requires ComparablePath(h, s, path, false, strings)
    requires ValidatePath(h, Id(h, s), dest, rightBound, path, ruleset).Accepted?
    ensures path == PathOf(h, s, Clamp(dest, rightBound), 0)
  {
    var (offset, proof) := (Clamp(dest, rightBound), ParsePath(path, false));
    ParsedNotesFit(path, false);
    UnmarkedWithoutRebase(path);
    AcceptedIsGenerated(h, s, Position(offset, 0, rightBound, 0, Undefined), proof, 0, rightBound, RulesOf(ruleset), strings);
    ProofOfBytes(h, s, offset, 0);
    UnparsePath(path, false);
  }

  /** Proofs of a flat tree are unique: whatever bytes the validator accepts for an offset are the
      generated path of that offset, unless two of the strings hashed by the builder and the
      validator collide. The notes may be any 256-bit numbers. */
  lemma FlatProofsAreUnique(h: HashFn, elements: seq<Element>, dest: int, rightBound: int, path: Bytes, ruleset: Ruleset)
    requires elements != [] && Flat(elements) && ElementNotesFit(elements) && NoEmptyNested(elements)
    requires !ruleset.OffsetRebaseSupport?
    requires ValidatePath(h, GenerateTree(h, elements).0, dest, rightBound, path, ruleset).Accepted?
    requires NoCollision(h, Hashed(h, GenerateTree(h, elements).1) + ProofPreimages(h, ParsePath(path, false)))
    ensures
      var (root, tree) := GenerateTree(h, elements);
      GeneratePath(root, Clamp(dest, rightBound), tree) == Some(path)
  {
    var (root, tree) := GenerateTree(h, elements);
    var strings := Hashed(h, tree) + ProofPreimages(h, ParsePath(path, false));
    FlatTreeFacts(h, elements, Clamp(dest, rightBound));
    ShapeProofsAreUnique(h, ShapeOf(elements), dest, rightBound, path, ruleset, strings);
  }

  /** Merkle soundness: against the root of a flat list of chunks, a path accepted at any offset is
      the generated one and its verdict is the real chunk there with its exact bounds. */
  lemma FlatSoundness(h: HashFn, elements: seq<Element>, dest: int, path: Bytes, ruleset: Ruleset) returns (p: Placed)
    requires Flat(elements) && Provable(h, elements) && 0 < EndOf(elements, 0) && ElementNotesFit(elements)
    requires !ruleset.OffsetRebaseSupport?
    requires ValidatePath(h, GenerateTree(h, elements).0, dest, EndOf(elements, 0), path, ruleset).Accepted?
    requires NoCollision(h, Hashed(h, GenerateTree(h, elements).1) + ProofPreimages(h, ParsePath(path, false)))
    ensures p in Flatten(elements, 0, 0) && p.start <= Clamp(dest, EndOf(elements, 0)) < p.end
    ensures
      var (root, tree) := GenerateTree(h, elements);
      var end := EndOf(elements, 0);
      && GeneratePath(root, Clamp(dest, end), tree) == Some(path)
      && ValidatePath(h, root, dest, end, path, ruleset) == Accepted(p.data, p.start, p.end)
  {
    var (root, end) := (GenerateTree(h, elements).0, EndOf(elements, 0));
    FlatProofsAreUnique(h, elements, dest, end, path, ruleset);
    FlatTree(elements);
    p := PathCompleteness(h, elements, Clamp(dest, end), Basic);
    RulesetsNest(h, root, dest, end, path);
  }

  lemma ShapeAcceptedChunk(
    h: HashFn, s: Shape, dest: int, rightBound: int, path: Bytes, ruleset: Ruleset, strings: set<Bytes>
  ) returns (n: Node)
    requires ComparablePath(h, s, path, RulesOf(ruleset).allowRebase, strings)
    requires ValidatePath(h, Id(h, s), dest, rightBound, path, ruleset).Accepted?
    ensures n in Nodes(h, s) && n.LeafNode? && n.data == ValidatePath(h, Id(h, s), dest, rightBound, path, ruleset).chunkId
  {
    var rules := RulesOf(ruleset);
    ParsedNotesFit(path, rules.allowRebase);
    n := AcceptedChunkIsLeaf(h, s, Position(Clamp(dest, rightBound), 0, rightBound, 0, Undefined),
                             ParsePath(path, rules.allowRebase), rightBound, rules, strings);
  }

  /** Against any tree, nested or not, and under any ruleset, an accepted path yields a chunk ID
      that was put into the tree. */
  lemma AcceptedChunkIsInTree(h: HashFn, elements: seq<Element>, dest: int, rightBound: int, path: Bytes, ruleset: Ruleset)
    returns (n: Node)
    requires elements != [] && NoEmptyNested(elements)
    requires NotesFit(GenerateTree(h, elements).1)
    requires ValidatePath(h, GenerateTree(h, elements).0, dest, rightBound, path, ruleset).Accepted?
    requires
      var proof := ParsePath(path, RulesOf(ruleset).allowRebase);
      NoCollision(h, Hashed(h, GenerateTree(h, elements).1) + ProofPreimages(h, proof))
    ensures
      var (root, tree) := GenerateTree(h, elements);
      n in tree && n.LeafNode? && n.data == ValidatePath(h, root, dest, rightBound, path, ruleset).chunkId
  {
    var (root, tree) := GenerateTree(h, elements);
    var s := ShapeOf(elements);
    var strings := Hashed(h, tree) + ProofPreimages(h, ParsePath(path, RulesOf(ruleset).allowRebase));
    TreeNotesFit(h, elements);
    n := ShapeAcceptedChunk(h, s, dest, rightBound, path, ruleset, strings);
  }

  lemma TreeNotesFit(h: HashFn, elements: seq<Element>)
    requires elements != [] && NoEmptyNested(elements)
    requires NotesFit(GenerateTree(h, elements).1)
    requires NoCollision(h, Hashed(h, GenerateTree(h, elements).1))
    ensures
      var (root, tree) := GenerateTree(h, elements);
      var s := ShapeOf(elements);
      root == Id(h, s) && ShapeNotesFit(s) && Preimages(h, s) <= Hashed(h, tree) && forall n :: n in tree <==> n in Nodes(h, s)
  {
    var (root, tree) := GenerateTree(h, elements);
    var s := ShapeOf(elements);
    GenerateTreeIsShape(h, elements);
    TreePreimages(h, tree, s);
    assert ForestNodes(h, [s]) == Nodes(h, s);
    NodesNotesFit(h, s);
  }

  lemma {:induction false} NodesNotesFit(h: HashFn, s: Shape)
    requires forall n | n in Nodes(h, s) :: n.note < NOTE_LIMIT
    ensures ShapeNotesFit(s)
  {
    assert NodeOf(h, s) in Nodes(h, s);
    if s.Branch? {
      NodesNotesFit(h, s.left);
      NodesNotesFit(h, s.right);
    }
  }
}
