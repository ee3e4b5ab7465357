/** What generated proofs prove, and what accepted proofs can be. */
module MerkleProofs {
  import opened Bytes
  import opened Options
  import opened Merkle
  import opened MerkleShapes
  import opened MerkleBuild
  import opened MerkleLayout

  //////////////////////////////////////////////////////////////////////////////
  // Looking nodes up by ID
  //////////////////////////////////////////////////////////////////////////////

  /** Equal in all that a path is made of. */
  ghost predicate SameNode(m: Node, n: Node) {
    match (m, n)
    case (LeafNode(_, d, t, _, b), LeafNode(_, d', t', _, b')) => d == d' && NoteToBinary(t) == NoteToBinary(t') && b == b'
    case (BranchNode(_, l, r, t, _, b), BranchNode(_, l', r', t', _, b')) => l == l' && r == r' && t == t' && b == b'
    case _ => false
  }

  ghost predicate Unambiguous(tree: seq<Node>) {
    forall m, n | m in tree && n in tree && m.id == n.id :: SameNode(m, n)
  }

  /** No ID is shared by a rebased and a plain node. */
  predicate FlagsAgree(tree: seq<Node>) {
    forall m, n | m in tree && n in tree && m.id == n.id :: m.isRebased == n.isRebased
  }

  /** Notes are 256-bit numbers. */
  predicate NotesFit(tree: seq<Node>) {
    forall n | n in tree :: n.note < NOTE_LIMIT
  }

  lemma {:induction false} NodesAreHashed(h: HashFn, s: Shape, n: Node)
    requires n in Nodes(h, s)
    ensures n.id == if n.LeafNode? then h(LeafPreimage(h, n.data, n.note)) else h(BranchPreimage(h, n.left, n.right, n.note))
  {
    var t := NodeHasShape(h, s, n);
  }

  lemma NoteInjective(m: nat, n: nat)
    requires m < NOTE_LIMIT && n < NOTE_LIMIT && NoteToBinary(m) == NoteToBinary(n)
    ensures m == n
  {
    NoteRoundTrip(m);
    NoteRoundTrip(n);
  }

  lemma SameIdSameNode(h: HashFn, s: Shape, tree: seq<Node>, m: Node, n: Node)
    requires Rep(h, tree, [s]) && NoCollision(h, Hashed(h, tree)) && FlagsAgree(tree) && NotesFit(tree)
    requires m in tree && n in tree && m.id == n.id
    ensures SameNode(m, n)
  {
    assert ForestNodes(h, [s]) == Nodes(h, s);
    NodesAreHashed(h, s, m);
    NodesAreHashed(h, s, n);
    var strings := Hashed(h, tree);
    assert NodePreimages(h, m) <= strings && NodePreimages(h, n) <= strings;
    match (m, n)
    case (LeafNode(_, d, t, _, _), LeafNode(_, d', t', _, _)) =>
      LeafHashInjective(h, strings, d, t, d', t');
    case (BranchNode(_, l, r, t, _, _), BranchNode(_, l', r', t', _, _)) =>
      BranchHashInjective(h, strings, l, r, t, l', r', t');
      NoteInjective(t, t');
    case (LeafNode(_, d, t, _, _), BranchNode(_, l, r, t', _, _)) => 
    case (BranchNode(_, l, r, t', _, _), LeafNode(_, d, t, _, _)) => 
  }

  lemma TreeIsUnambiguous(h: HashFn, s: Shape, tree: seq<Node>)
    requires Rep(h, tree, [s]) && NoCollision(h, Hashed(h, tree)) && FlagsAgree(tree) && NotesFit(tree)
    ensures Unambiguous(tree)
  {
    forall m, n | m in tree && n in tree && m.id == n.id ensures SameNode(m, n) {
      SameIdSameNode(h, s, tree, m, n);
    }
  }

  lemma GetFindsNode(h: HashFn, s: Shape, tree: seq<Node>)
    requires Nodes(h, s) <= (set n | n in tree) && Unambiguous(tree)
    ensures Get(Id(h, s), tree).Some? && SameNode(Get(Id(h, s), tree).value, NodeOf(h, s))
  {
    assert NodeOf(h, s) in Nodes(h, s);
    assert NodeOf(h, s) in (set n | n in tree);
    GetFinds(NodeOf(h, s), tree);
  }

  lemma PathPartsStep(h: HashFn, s: Shape, dest: int, tree: seq<Node>, prevNote: nat, steps: nat, n: Node, next: Node)
    requires s.Branch? && SameNode(n, NodeOf(h, s)) && SameNode(next, NodeOf(h, Next(s, dest)))
    requires Get(Id(h, s), tree) == Some(n) && Get(Id(h, Next(s, dest)), tree) == Some(next)
    requires steps > 0
    ensures
      PathParts(Id(h, s), dest, tree, prevNote, steps)
      == match PathParts(Id(h, Next(s, dest)), NextDest(s, dest, prevNote), tree, s.note, steps - 1)
         case None => None
         case Some(rest) => Some(PathPart(n, next) + rest)
    ensures PathPart(n, next) == PathHead(h, s, Next(s, dest))
  {
  }

  /** Every node of the shape is what a look-up of its ID finds. */
  ghost predicate Found(h: HashFn, s: Shape, tree: seq<Node>) {
    && Get(Id(h, s), tree).Some? && SameNode(Get(Id(h, s), tree).value, NodeOf(h, s))
    && (s.Branch? ==> Found(h, s.left, tree) && Found(h, s.right, tree))
  }

  lemma {:induction false} AllFound(h: HashFn, s: Shape, tree: seq<Node>)
    requires Nodes(h, s) <= (set n | n in tree) && Unambiguous(tree)
    ensures Found(h, s, tree)
  {
    GetFindsNode(h, s, tree);
    if s.Branch? {
      AllFound(h, s.left, tree);
      AllFound(h, s.right, tree);
    }
  }

  /** On such a list the walk by IDs is the walk on the shape. */
  lemma {:induction false} PathPartsIsPathOf(h: HashFn, s: Shape, dest: int, tree: seq<Node>, prevNote: nat, steps: nat)
    requires Found(h, s, tree) && Depth(s) <= steps
    ensures PathParts(Id(h, s), dest, tree, prevNote, steps) == Some(PathOf(h, s, dest, prevNote))
    decreases s
  {
    var n := Get(Id(h, s), tree).value;
    if s.Leaf? {
      assert n.LeafNode? && n.data == s.data;
    } else {
      var next := Next(s, dest);
      PathPartsIsPathOf(h, next, NextDest(s, dest, prevNote), tree, s.note, steps - 1);
      PathPartsStep(h, s, dest, tree, prevNote, steps, n, Get(Id(h, next), tree).value);
    }
  }

  lemma GeneratedPath(h: HashFn, s: Shape, tree: seq<Node>, dest: int)
    requires IsTreeOf(h, (Id(h, s), tree), s)
    requires NoCollision(h, Hashed(h, tree)) && FlagsAgree(tree) && NotesFit(tree)
    ensures GeneratePath(Id(h, s), dest, tree) == Some(PathOf(h, s, dest, 0))
  {
    TreeIsUnambiguous(h, s, tree);
    assert ForestNodes(h, [s]) == Nodes(h, s);
    AllFound(h, s, tree);
    PathPartsIsPathOf(h, s, dest, tree, 0, |tree|);
  }

  //////////////////////////////////////////////////////////////////////////////
  // Completeness
  //////////////////////////////////////////////////////////////////////////////

  /** An element list whose tree can be built and proved over its whole length. */
  ghost predicate Provable(h: HashFn, elements: seq<Element>) {
    && elements != [] && NoEmptyNested(elements) && Laid(elements, 0) && ChunkIdsSized(elements)
    && EndOf(elements, 0) < NOTE_LIMIT
    && NoCollision(h, Hashed(h, GenerateTree(h, elements).1))
    && FlagsAgree(GenerateTree(h, elements).1)
  }

  lemma {:induction false} SpannedNotesFit(h: HashFn, s: Shape, f: Frame, n: Node)
    requires Spans(s, f) && f.rb < NOTE_LIMIT && n in Nodes(h, s)
    ensures n.note < NOTE_LIMIT
    decreases s
  {
    if s.Branch? {
      if n in Nodes(h, s.left) {
        SpannedNotesFit(h, s.left, LeftFrame(s, f), n);
      } else if n in Nodes(h, s.right) {
        SpannedNotesFit(h, s.right, RightFrame(s, f), n);
      }
    }
  }

  /** The builder's result for a provable list: the shape, its extent and its proofs. */
  lemma ProvableTree(h: HashFn, elements: seq<Element>, dest: int)
    requires Provable(h, elements)
    ensures
      var (root, tree) := GenerateTree(h, elements);
      var (s, f) := (ShapeOf(elements), Frame(0, EndOf(elements, 0), 0));
      && root == Id(h, s) && Spans(s, f) && Leaves(s, f) == Flatten(elements, 0, 0) && DataSized(s)
      && (forall n :: n in tree <==> n in Nodes(h, s))
      && GeneratePath(root, dest, tree) == Some(PathOf(h, s, dest, 0))
  {
    var (root, tree) := GenerateTree(h, elements);
    var (s, f) := (ShapeOf(elements), Frame(0, EndOf(elements, 0), 0));
    GenerateTreeIsShape(h, elements);
    TreeLayout(elements, 0);
    TreeDataSized(elements);
    assert ForestNodes(h, [s]) == Nodes(h, s);
    forall n | n in tree ensures n.note < NOTE_LIMIT {
      SpannedNotesFit(h, s, f, n);
    }
    GeneratedPath(h, s, tree, dest);
  }

  lemma {:induction false} NoZeroIdNodes(h: HashFn, s: Shape)
    requires forall n | n in Nodes(h, s) :: n.id != Zeros(HASH_SIZE)
    ensures NoZeroId(h, s)
  {
    assert NodeOf(h, s) in Nodes(h, s);
    if s.Branch? {
      NoZeroIdNodes(h, s.left);
      NoZeroIdNodes(h, s.right);
    }
  }

  /** The validator starts in the frame of the whole list. */
  lemma StartOf(h: HashFn, id: Bytes, dest: int, rightBound: int, path: Bytes, ruleset: Ruleset)
    requires rightBound > 0
    ensures
      var (offset, f, rules) := (Clamp(dest, rightBound), Frame(0, rightBound, 0), RulesOf(ruleset));
      && Inside(offset, f) && Within(At(offset, f, Undefined))
      && ValidatePath(h, id, dest, rightBound, path, ruleset)
         == ValidateProof(h, id, At(offset, f, Undefined), ParsePath(path, rules.allowRebase), rightBound, rules)
  {
  }

  lemma ShapePathValidates(h: HashFn, s: Shape, offset: int, f: Frame, p: Placed, ruleset: Ruleset)
    requires f.lb == f.shift == 0 && Spans(s, f) && Inside(offset, f) && f.rb < NOTE_LIMIT
    requires WellPlaced(s, true) && DataSized(s)
    requires if ruleset.OffsetRebaseSupport? then NoZeroId(h, s) else NoRebase(s)
    requires p == Locate(s, offset, f) && Admissible(RulesOf(ruleset), p, f.rb)
    ensures ValidatePath(h, Id(h, s), offset, f.rb, PathOf(h, s, offset, 0), ruleset) == Accepted(p.data, p.start, p.end)
  {
    var rules := RulesOf(ruleset);
    StartOf(h, Id(h, s), offset, f.rb, PathOf(h, s, offset, 0), ruleset);
    ParsePathOf(h, s, offset, 0, rules.allowRebase, f);
    ProofValidates(h, s, offset, offset, f, 0, true, p, f.rb, Undefined, rules);
  }

  /** Every generated path validates and returns the ID and the exact bounds of the chunk at the
      offset, when the ruleset admits that chunk. Without nesting this holds for every ruleset;
      nested lists need the rebasing one and a well-placed tree. */
  lemma PathCompleteness(h: HashFn, elements: seq<Element>, offset: nat, ruleset: Ruleset) returns (p: Placed)
    requires Provable(h, elements) && offset < EndOf(elements, 0)
    requires WellPlaced(ShapeOf(elements), true)
    requires ruleset.OffsetRebaseSupport? || Flat(elements)
    requires ruleset.OffsetRebaseSupport? ==> NoZeroIds(GenerateTree(h, elements).1)
    requires forall q | q in Flatten(elements, 0, 0) && q.start < q.end :: Admissible(RulesOf(ruleset), q, EndOf(elements, 0))
    ensures p in Flatten(elements, 0, 0) && p.start <= offset < p.end
    ensures Proves(h, elements, offset, ruleset, p)
  {
    var (s, f) := (ShapeOf(elements), Frame(0, EndOf(elements, 0), 0));
    ProvableTree(h, elements, offset);
    LocatedLeaf(s, offset, f);
    p := Locate(s, offset, f);
    if ruleset.OffsetRebaseSupport? {
      NoZeroIdNodes(h, s);
    } else {
      FlatTree(elements);
    }
    ShapePathValidates(h, s, offset, f, p, ruleset);
  }

  /** No ID reads as the mark of a rebased subtree. */
  predicate NoZeroIds(tree: seq<Node>) {
    forall n | n in tree :: n.id != Zeros(HASH_SIZE)
  }

  /** The path generated for `offset` exists and validates as chunk `p`. */
  ghost predicate Proves(h: HashFn, elements: seq<Element>, offset: nat, ruleset: Ruleset, p: Placed)
    requires NoEmptyNested(elements)
  {
    var (root, tree) := GenerateTree(h, elements);
    var path := GeneratePath(root, offset, tree);
    path.Some? && ValidatePath(h, root, offset, EndOf(elements, 0), path.value, ruleset) == Accepted(p.data, p.start, p.end)
  }

  /** Nested lists of chunks that start at multiples of 256 KiB, so that only the last chunk may
      be short: every generated path validates under the rebasing ruleset, with absolute bounds. */
  lemma RebaseCompleteness(h: HashFn, elements: seq<Element>, offset: nat) returns (p: Placed)
    requires Provable(h, elements) && offset < EndOf(elements, 0)
    requires WellPlaced(ShapeOf(elements), true)
    requires NoZeroIds(GenerateTree(h, elements).1)
    requires forall q | q in Flatten(elements, 0, 0) :: q.start % DATA_CHUNK_SIZE == 0 && q.end - q.start <= DATA_CHUNK_SIZE
    ensures p in Flatten(elements, 0, 0) && p.start <= offset < p.end
    ensures Proves(h, elements, offset, OffsetRebaseSupport, p)
  {
    forall q | q in Flatten(elements, 0, 0) ensures Admissible(RulesOf(OffsetRebaseSupport), q, EndOf(elements, 0)) {
    }
    p := PathCompleteness(h, elements, offset, OffsetRebaseSupport);
  }
}
