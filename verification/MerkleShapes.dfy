/** The trees behind the node lists: binary shapes, where each chunk lies, and which shapes
    the path generator serves. */
module MerkleShapes {
  import opened Bytes
  import opened Merkle

  datatype Shape =
    | Leaf(data: Bytes, note: nat, rebased: bool)
    | Branch(left: Shape, right: Shape, note: nat, max: nat, rebased: bool)

  /** A chunk with its absolute extent [start, end). */
  datatype Placed = Placed(data: Bytes, start: nat, end: nat)

  function MaxOf(s: Shape): nat { if s.Leaf? then s.note else s.max }

  function Size(s: Shape): (n: nat)
    ensures n >= 1
  {
    if s.Leaf? then 1 else 1 + Size(s.left) + Size(s.right)
  }

  function Depth(s: Shape): nat {
    if s.Leaf? then 0
    else 1 + if Depth(s.left) < Depth(s.right) then Depth(s.right) else Depth(s.left)
  }

  function Id(h: HashFn, s: Shape): (id: Bytes)
    ensures |id| == 32
  {
    if s.Leaf? then h(LeafPreimage(h, s.data, s.note))
    else h(BranchPreimage(h, Id(h, s.left), Id(h, s.right), s.note))
  }

  function NodeOf(h: HashFn, s: Shape): Node {
    if s.Leaf? then LeafNode(Id(h, s), s.data, s.note, s.note, s.rebased)
    else BranchNode(Id(h, s), Id(h, s.left), Id(h, s.right), s.note, s.max, s.rebased)
  }

  function Nodes(h: HashFn, s: Shape): set<Node> {
    {NodeOf(h, s)} + if s.Leaf? then {} else Nodes(h, s.left) + Nodes(h, s.right)
  }

  //////////////////////////////////////////////////////////////////////////////
  // What is hashed
  //////////////////////////////////////////////////////////////////////////////

  function NodePreimages(h: HashFn, n: Node): set<Bytes> {
    match n
    case LeafNode(_, data, note, _, _) => {data, NoteToBinary(note), LeafPreimage(h, data, note)}
    case BranchNode(_, left, right, note, _, _) =>
      {left, right, NoteToBinary(note), BranchPreimage(h, left, right, note)}
  }

  /** Every string the builder hashes for the nodes of `tree`. */
  function Hashed(h: HashFn, tree: seq<Node>): set<Bytes> {
    set n, b | n in tree && b in NodePreimages(h, n) :: b
  }

  function Preimages(h: HashFn, s: Shape): set<Bytes> {
    NodePreimages(h, NodeOf(h, s)) + if s.Leaf? then {} else Preimages(h, s.left) + Preimages(h, s.right)
  }

  lemma {:induction false} NodesPreimages(h: HashFn, s: Shape, tree: seq<Node>)
    requires forall n | n in Nodes(h, s) :: n in tree
    ensures Preimages(h, s) <= Hashed(h, tree)
  {
    assert NodeOf(h, s) in tree;
    if s.Branch? {
      NodesPreimages(h, s.left, tree);
      NodesPreimages(h, s.right, tree);
    }
  }

  /** Without a collision, equal leaf hashes have equal parts. */
  lemma LeafHashInjective(h: HashFn, strings: set<Bytes>, d: Bytes, n: nat, d': Bytes, n': nat)
    requires NoCollision(h, strings)
    requires {d, NoteToBinary(n), LeafPreimage(h, d, n)} <= strings
    requires {d', NoteToBinary(n'), LeafPreimage(h, d', n')} <= strings
    requires h(LeafPreimage(h, d, n)) == h(LeafPreimage(h, d', n'))
    ensures d == d' && NoteToBinary(n) == NoteToBinary(n')
  {
    assert LeafPreimage(h, d, n) == LeafPreimage(h, d', n');
    SplitEqual(h(d), h(NoteToBinary(n)), h(d'), h(NoteToBinary(n')));
  }

  /** Without a collision, equal branch hashes have equal parts. */
  lemma BranchHashInjective(h: HashFn, strings: set<Bytes>, l: Bytes, r: Bytes, n: nat, l': Bytes, r': Bytes, n': nat)
    requires NoCollision(h, strings)
    requires {l, r, NoteToBinary(n), BranchPreimage(h, l, r, n)} <= strings
    requires {l', r', NoteToBinary(n'), BranchPreimage(h, l', r', n')} <= strings
    requires h(BranchPreimage(h, l, r, n)) == h(BranchPreimage(h, l', r', n'))
    ensures l == l' && r == r' && NoteToBinary(n) == NoteToBinary(n')
  {
    assert BranchPreimage(h, l, r, n) == BranchPreimage(h, l', r', n');
    SplitEqual(h(l) + h(r), h(NoteToBinary(n)), h(l') + h(r'), h(NoteToBinary(n')));
    SplitEqual(h(l), h(r), h(l'), h(r'));
  }

  /** Without a collision, an ID determines the size of the shape below it. */
  lemma {:induction false} EqualIdEqualSize(h: HashFn, s: Shape, t: Shape, strings: set<Bytes>)
    requires Preimages(h, s) <= strings && Preimages(h, t) <= strings
    requires NoCollision(h, strings)
    requires Id(h, s) == Id(h, t)
    ensures Size(s) == Size(t)
  {
    match (s, t)
    case (Leaf(_, _, _), Leaf(_, _, _)) =>
    case (Leaf(d, n, _), Branch(l, r, n', _, _)) => 
    case (Branch(l, r, n', _, _), Leaf(d, n, _)) => 
    case (Branch(l, r, n, _, _), Branch(l', r', n', _, _)) =>
      BranchHashInjective(h, strings, Id(h, l), Id(h, r), n, Id(h, l'), Id(h, r'), n');
      EqualIdEqualSize(h, l, l', strings);
      EqualIdEqualSize(h, r, r', strings);
  }

  lemma {:induction false} NodeHasShape(h: HashFn, s: Shape, n: Node) returns (t: Shape)
    requires n in Nodes(h, s)
    ensures n == NodeOf(h, t) && Preimages(h, t) <= Preimages(h, s)
    ensures Size(t) <= Size(s) && (Size(t) == Size(s) ==> t == s)
  {
    if n == NodeOf(h, s) {
      t := s;
    } else if n in Nodes(h, s.left) {
      t := NodeHasShape(h, s.left, n);
    } else {
      t := NodeHasShape(h, s.right, n);
    }
  }

  /** Without a collision, the root of a shape is its only node with the root's ID. */
  lemma RootIdIsUnique(h: HashFn, s: Shape, n: Node)
    requires NoCollision(h, Preimages(h, s))
    requires n in Nodes(h, s) && n.id == Id(h, s)
    ensures n == NodeOf(h, s)
  {
    var t := NodeHasShape(h, s, n);
    EqualIdEqualSize(h, t, s, Preimages(h, s));
  }

  //////////////////////////////////////////////////////////////////////////////
  // Where chunks lie
  //////////////////////////////////////////////////////////////////////////////

  /** The offsets [lb, rb) of a subtree, and the absolute position of its offset zero. */
  datatype Frame = Frame(lb: int, rb: int, shift: int)

  /** A rebased child opens a frame that starts at zero. */
  function LeftFrame(s: Shape, f: Frame): Frame
    requires s.Branch?
  {
    if s.left.rebased then Frame(0, s.note - f.lb, f.shift + f.lb) else Frame(f.lb, s.note, f.shift)
  }

  function RightFrame(s: Shape, f: Frame): Frame
    requires s.Branch?
  {
    if s.right.rebased then Frame(0, f.rb - s.note, f.shift + s.note) else Frame(s.note, f.rb, f.shift)
  }

  /** `s` covers its frame and its notes are the boundaries between its parts. */
  ghost predicate Spans(s: Shape, f: Frame) {
    && 0 <= f.shift && 0 <= f.lb <= f.rb == MaxOf(s)
    && (s.Branch? ==> f.lb <= s.note <= f.rb && Spans(s.left, LeftFrame(s, f)) && Spans(s.right, RightFrame(s, f)))
  }

  function PlacedLeaf(s: Shape, f: Frame): Placed
    requires s.Leaf? && Spans(s, f)
  {
    Placed(s.data, f.shift + f.lb, f.shift + f.rb)
  }

  /** The chunks of `s` from left to right, at absolute offsets. */
  ghost function Leaves(s: Shape, f: Frame): seq<Placed>
    requires Spans(s, f)
    decreases s
  {
    if s.Leaf? then [PlacedLeaf(s, f)]
    else Leaves(s.left, LeftFrame(s, f)) + Leaves(s.right, RightFrame(s, f))
  }

  ghost predicate Inside(offset: int, f: Frame) {
    f.lb <= offset - f.shift < f.rb
  }

  /** The chunk that holds an absolute offset. */
  ghost function Locate(s: Shape, offset: int, f: Frame): Placed
    requires Spans(s, f) && Inside(offset, f)
    decreases s
  {
    if s.Leaf? then PlacedLeaf(s, f)
    else if offset - f.shift < s.note then Locate(s.left, offset, LeftFrame(s, f))
    else Locate(s.right, offset, RightFrame(s, f))
  }

  lemma {:induction false} LocatedLeaf(s: Shape, offset: int, f: Frame)
    requires Spans(s, f) && Inside(offset, f)
    ensures Locate(s, offset, f) in Leaves(s, f)
    ensures Locate(s, offset, f).start <= offset < Locate(s, offset, f).end
    decreases s
  {
    if s.Branch? {
      if offset - f.shift < s.note {
        LocatedLeaf(s.left, offset, LeftFrame(s, f));
      } else {
        LocatedLeaf(s.right, offset, RightFrame(s, f));
      }
    }
  }

  //////////////////////////////////////////////////////////////////////////////
  // Path generation on shapes
  //////////////////////////////////////////////////////////////////////////////

  function PathOf(h: HashFn, s: Shape, dest: int, prevNote: nat): (path: Bytes)
  {
    if s.Leaf? then s.data + NoteToBinary(s.note)
    else PathHead(h, s, Next(s, dest)) + PathOf(h, Next(s, dest), NextDest(s, dest, prevNote), s.note)
  }

  /** The shapes on which the generator's offsets stay right: it subtracts the note of the
      grandparent for a rebased left child, which is where that child starts only when its
      parent is the root or a non-rebased right child. Under a single leaf no further
      decision depends on the offset. `exact` says that this note is the node's left bound. */
  predicate WellPlaced(s: Shape, exact: bool) {
    s.Branch? ==>
      && (s.left.rebased && s.left.Branch? ==> exact)
      && WellPlaced(s.left, false)
      && WellPlaced(s.right, !s.right.rebased)
  }

  predicate NoRebase(s: Shape) {
    s.Branch? ==> !s.left.rebased && !s.right.rebased && NoRebase(s.left) && NoRebase(s.right)
  }

  /** Chunk IDs have the size of a hash. */
  predicate DataSized(s: Shape) {
    match s
    case Leaf(data, _, _) => |data| == HASH_SIZE
    case Branch(left, right, _, _, _) => DataSized(left) && DataSized(right)
  }

  /** No ID reads as the mark of a rebased subtree. */
  predicate NoZeroId(h: HashFn, s: Shape) {
    && Id(h, s) != Zeros(HASH_SIZE)
    && (s.Branch? ==> NoZeroId(h, s.left) && NoZeroId(h, s.right))
  }

  /** The strict split for a chunk of the data: a full chunk on a boundary, a shorter last chunk that
      starts before the last boundary in data of no whole number of chunks, or a shorter one on a
      boundary with between one and two chunks left. */
  predicate ChunkSplit(start: nat, end: nat, size: nat) {
    || (end - start == 262144 && start % 262144 == 0)
    || (end - start < 262144 && end == size && size % 262144 > 0 && start <= size - size % 262144)
    || (end - start < 262144 && end != size && start % 262144 == 0 && 262144 < size - start < 524288)
  }

  /** What a ruleset asks of a chunk; under the strict split offsets are never shifted. */
  predicate Admissible(rules: Rules, p: Placed, dataSize: nat) {
    && (rules.checkBorders ==> p.end - p.start <= 262144)
    && (rules.split.StrictSplit? ==> ChunkSplit(p.start, p.end, dataSize))
    && (rules.split.RelaxedSplit? ==> p.start % 262144 == 0)
  }

  lemma ParseLeaf(data: Bytes, note: nat, allowRebase: bool)
    requires |data| == 32 && note < NOTE_LIMIT
    ensures ParsePath(data + NoteToBinary(note), allowRebase) == ProofLeaf(data, note)
  {
    var path := data + NoteToBinary(note);
    assert path[..32] == data;
    assert path[32..] == NoteToBinary(note);
    NoteRoundTrip(note);
  }

  lemma ParseBranch(l: Bytes, r: Bytes, note: nat, rest: Bytes, allowRebase: bool)
    requires |l| == |r| == 32 && note < NOTE_LIMIT
    requires allowRebase ==> l != Zeros(32)
    ensures ParsePath(l + r + NoteToBinary(note) + rest, allowRebase)
            == ProofBranch(false, l, r, note, ParsePath(rest, allowRebase))
  {
    var path := l + r + NoteToBinary(note) + rest;
    assert path[..32] == l;
    assert path[32..64] == r;
    assert path[64..96] == NoteToBinary(note);
    assert path[96..] == rest;
    NoteRoundTrip(note);
  }

  lemma ParseMarkedBranch(l: Bytes, r: Bytes, note: nat, rest: Bytes)
    requires |l| == |r| == 32 && note < NOTE_LIMIT
    ensures ParsePath(Zeros(32) + l + r + NoteToBinary(note) + rest, true)
            == ProofBranch(true, l, r, note, ParsePath(rest, true))
  {
    var path := Zeros(32) + l + r + NoteToBinary(note) + rest;
    assert path[..32] == Zeros(32);
    assert path[32..64] == l;
    assert path[64..96] == r;
    assert path[96..128] == NoteToBinary(note);
    assert path[128..] == rest;
    NoteRoundTrip(note);
  }

  /** What the generator writes in front of the path of the child it walks to. */
  function PathHead(h: HashFn, s: Shape, next: Shape): Bytes
    requires s.Branch?
  {
    (if next.rebased then Zeros(HASH_SIZE) else []) + Id(h, s.left) + Id(h, s.right) + NoteToBinary(s.note)
  }

  lemma ParsePathHead(h: HashFn, s: Shape, next: Shape, rest: Bytes, allowRebase: bool)
    requires s.Branch? && s.note < NOTE_LIMIT
    requires if allowRebase then Id(h, s.left) != Zeros(32) else !next.rebased
    ensures
      ParsePath(PathHead(h, s, next) + rest, allowRebase)
      == ProofBranch(next.rebased, Id(h, s.left), Id(h, s.right), s.note, ParsePath(rest, allowRebase))
  {
    var (l, r) := (Id(h, s.left), Id(h, s.right));
    if next.rebased {
      ParseMarkedBranch(l, r, s.note, rest);
    } else {
      assert [] + l == l;
      ParseBranch(l, r, s.note, rest, allowRebase);
    }
  }

  function Next(s: Shape, dest: int): Shape
    requires s.Branch?
  {
    if dest < s.note then s.left else s.right
  }

  function NextDest(s: Shape, dest: int, prevNote: nat): int
    requires s.Branch?
  {
    if !Next(s, dest).rebased then dest else if dest < s.note then dest - prevNote else dest - s.note
  }

  function NextFrame(s: Shape, dest: int, f: Frame): Frame
    requires s.Branch?
  {
    if dest < s.note then LeftFrame(s, f) else RightFrame(s, f)
  }

  function NextRightMost(s: Shape, dest: int, rightMost: RightMost): RightMost
    requires s.Branch?
  {
    if Next(s, dest).rebased then Undefined
    else if dest < s.note then IsNotRightMost
    else if rightMost.Undefined? then IsRightMost else rightMost
  }

  /** The generated path, parsed. */
  function ProofOf(h: HashFn, s: Shape, dest: int, prevNote: nat): Proof {
    if s.Leaf? then ProofLeaf(s.data, s.note)
    else
      ProofBranch(Next(s, dest).rebased, Id(h, s.left), Id(h, s.right), s.note,
                  ProofOf(h, Next(s, dest), NextDest(s, dest, prevNote), s.note))
  }

  lemma {:induction false} ParsePathOf(h: HashFn, s: Shape, dest: int, prevNote: nat, allowRebase: bool, f: Frame)
    requires Spans(s, f) && f.rb < NOTE_LIMIT && DataSized(s)
    requires if allowRebase then NoZeroId(h, s) else NoRebase(s)
    ensures ParsePath(PathOf(h, s, dest, prevNote), allowRebase) == ProofOf(h, s, dest, prevNote)
    decreases s
  {
    if s.Leaf? {
      ParseLeaf(s.data, s.note, allowRebase);
    } else {
      var (next, dest') := (Next(s, dest), NextDest(s, dest, prevNote));
      ParsePathOf(h, next, dest', s.note, allowRebase, NextFrame(s, dest, f));
      ParsePathHead(h, s, next, PathOf(h, next, dest', s.note), allowRebase);
    }
  }

  /** The absolute `offset` in frame `f`. */
  function At(offset: int, f: Frame, rightMost: RightMost): Position {
    Position(offset - f.shift, f.lb, f.rb, f.shift, rightMost)
  }

  /** The validator descends into the child's frame. */
  lemma DescendFrame(s: Shape, offset: int, f: Frame, rightMost: RightMost)
    requires s.Branch? && f.lb <= s.note <= f.rb && f.lb >= 0 && f.shift >= 0 && Inside(offset, f)
    ensures
      var dest := offset - f.shift;
      Descend(At(offset, f, rightMost), s.note, Next(s, dest).rebased)
      == At(offset, NextFrame(s, dest, f), NextRightMost(s, dest, rightMost))
  {
  }

  /** `dest` is the offset the generator holds at the root of `s`. Only under a single leaf may
      it differ from the absolute offset; `exact` says that `prevNote` is the left bound. */
  ghost predicate Serves(
    s: Shape, offset: int, dest: int, f: Frame, prevNote: nat, exact: bool, p: Placed, dataSize: nat, rules: Rules
  ) {
    && Spans(s, f) && Inside(offset, f) && p == Locate(s, offset, f)
    && (s.Branch? ==> dest == offset - f.shift)
    && (exact ==> prevNote == f.lb)
    && WellPlaced(s, exact)
    && (rules.split.StrictSplit? ==> f.shift == 0 && NoRebase(s))
    && Admissible(rules, p, dataSize)
  }

  lemma ServesNext(
    s: Shape, offset: int, dest: int, f: Frame, prevNote: nat, exact: bool, p: Placed, dataSize: nat, rules: Rules
  )
    requires s.Branch? && Serves(s, offset, dest, f, prevNote, exact, p, dataSize, rules)
    ensures
      var next := Next(s, dest);
      Serves(next, offset, NextDest(s, dest, prevNote), NextFrame(s, dest, f),
             s.note, dest >= s.note && !next.rebased, p, dataSize, rules)
  {
  }

  lemma LeafValidates(
    h: HashFn, s: Shape, offset: int, f: Frame, p: Placed, dataSize: nat, rightMost: RightMost, rules: Rules
  )
    requires s.Leaf? && Spans(s, f) && Inside(offset, f) && p == PlacedLeaf(s, f)
    requires (rules.split.StrictSplit? ==> f.shift == 0) && Admissible(rules, p, dataSize)
    ensures
      ValidateLeaf(h, Id(h, s), s.data, s.note, At(offset, f, rightMost), dataSize, rules) == Accepted(p.data, p.start, p.end)
  {
  }

  /** The proof generated for `dest` validates at the absolute offset and returns the chunk that
      holds it. */
  lemma {:induction false} ProofValidates(
    h: HashFn, s: Shape, offset: int, dest: int, f: Frame, prevNote: nat, exact: bool,
    p: Placed, dataSize: nat, rightMost: RightMost, rules: Rules
  )
    requires Serves(s, offset, dest, f, prevNote, exact, p, dataSize, rules)
    ensures
      ValidateProof(h, Id(h, s), At(offset, f, rightMost), ProofOf(h, s, dest, prevNote), dataSize, rules)
      == Accepted(p.data, p.start, p.end)
    decreases s
  {
    if s.Leaf? {
      LeafValidates(h, s, offset, f, p, dataSize, rightMost, rules);
    } else {
      var next := Next(s, dest);
      ServesNext(s, offset, dest, f, prevNote, exact, p, dataSize, rules);
      DescendFrame(s, offset, f, rightMost);
      ProofValidates(h, next, offset, NextDest(s, dest, prevNote), NextFrame(s, dest, f),
                     s.note, dest >= s.note && !next.rebased, p, dataSize, NextRightMost(s, dest, rightMost), rules);
    }
  }
}
