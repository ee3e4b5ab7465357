/** Offset-annotated Merkle trees and their proofs (src/ar_merkle.erl). */
module Merkle {
  import opened Bytes
  import opened Options

  const HASH_SIZE := 32
  const NOTE_SIZE := 32
  const DATA_CHUNK_SIZE := 262144

  /** Notes are 256-bit numbers. */
  const NOTE_LIMIT: nat := Limit(NOTE_SIZE)

  //////////////////////////////////////////////////////////////////////////////
  // Trees
  //////////////////////////////////////////////////////////////////////////////

  /** The input of the tree builder: chunk IDs with end offsets, and nested lists
      whose offsets start again at zero. */
  datatype Element = Chunk(data: Bytes, note: nat) | Sub(elements: seq<Element>)

  datatype Node =
    | LeafNode(id: Bytes, data: Bytes, note: nat, max: nat, isRebased: bool)
    | BranchNode(id: Bytes, left: Bytes, right: Bytes, note: nat, max: nat, isRebased: bool)

  function NoteToBinary(note: nat): (b: Bytes)
    ensures |b| == NOTE_SIZE
  {
    BigEndian(note, NOTE_SIZE)
  }

  lemma NoteRoundTrip(note: nat)
    requires note < NOTE_LIMIT
    ensures FromBigEndian(NoteToBinary(note)) == note
  {
    BigEndianRoundTrip(note, NOTE_SIZE);
  }

  lemma NoteOfDecoded(b: Bytes)
    requires |b| == NOTE_SIZE
    ensures FromBigEndian(b) < NOTE_LIMIT && NoteToBinary(FromBigEndian(b)) == b
  {
    BigEndianOfDecoded(b);
  }

  function LeafPreimage(h: HashFn, data: Bytes, note: nat): (b: Bytes)
    ensures |b| == 64
  {
    h(data) + h(NoteToBinary(note))
  }

  function BranchPreimage(h: HashFn, left: Bytes, right: Bytes, note: nat): (b: Bytes)
    ensures |b| == 96
  {
    h(left) + h(right) + h(NoteToBinary(note))
  }

  function GenerateLeaf(h: HashFn, data: Bytes, note: nat): Node {
    LeafNode(h(LeafPreimage(h, data, note)), data, note, note, false)
  }

  /** A parent of two adjacent nodes. `shift` is where the left one starts; a rebased
      node carries offsets relative to its own start. */
  function GenerateNode(h: HashFn, l: Node, r: Node, shift: nat): (result: (Node, nat)) {
    var lMax := if l.isRebased then shift + l.max else l.max;
    var rMax := if r.isRebased then lMax + r.max else r.max;
    (BranchNode(h(BranchPreimage(h, l.id, r.id, lMax)), l.id, r.id, lMax, rMax, false), rMax)
  }

  function GenerateRow(h: HashFn, row: seq<Node>, shift: nat): (newRow: seq<Node>)
    ensures |newRow| == (|row| + 1) / 2
  {
    if |row| <= 1 then row
    else
      var (n, shift') := GenerateNode(h, row[0], row[1], shift);
      [n] + GenerateRow(h, row[2..], shift')
  }

  function GenerateAllRows(h: HashFn, row: seq<Node>, tree: seq<Node>): (result: (Bytes, seq<Node>))
    requires row != []
    requires forall n | n in row :: n in tree
    ensures exists n :: n in result.1 && n.id == result.0
    decreases |row|
  {
    if |row| == 1 then
      assert row[0] in tree;
      (row[0].id, tree)
    else
      var newRow := GenerateRow(h, row, 0);
      GenerateAllRows(h, newRow, newRow + tree)
  }

  /** Look a node up by ID; the first match wins. */
  function Get(id: Bytes, tree: seq<Node>): Option<Node> {
    if tree == [] then None
    else if tree[0].id == id then Some(tree[0])
    else Get(id, tree[1..])
  }

  lemma {:induction false} GetFinds(n: Node, tree: seq<Node>)
    requires n in tree
    ensures Get(n.id, tree).Some?
    ensures Get(n.id, tree).value in tree && Get(n.id, tree).value.id == n.id
  {
    if tree[0].id != n.id {
      GetFinds(n, tree[1..]);
    }
  }

  function MarkRebased(tree: seq<Node>, rootId: Bytes): (marked: seq<Node>)
    ensures |marked| == |tree|
    ensures forall i | 0 <= i < |tree| :: marked[i] == if tree[i].id == rootId then tree[i].(isRebased := true) else tree[i]
  {
    seq(|tree|, i requires 0 <= i < |tree| => if tree[i].id == rootId then tree[i].(isRebased := true) else tree[i])
  }

  /** The builder fails on an empty nested list: its root has no node. */
  ghost predicate NoEmptyNested(elements: seq<Element>) {
    forall e | e in elements :: e.Sub? ==> e.elements != [] && NoEmptyNested(e.elements)
  }

  function GenerateTree(h: HashFn, elements: seq<Element>): (result: (Bytes, seq<Node>))
    requires NoEmptyNested(elements)
    ensures elements != [] ==> exists n :: n in result.1 && n.id == result.0
    decreases elements, 1
  {
    GenerateFrom(h, elements, [], [])
  }

  function GenerateFrom(h: HashFn, elements: seq<Element>, stack: seq<Node>, tree: seq<Node>): (result: (Bytes, seq<Node>))
    requires NoEmptyNested(elements)
    requires forall n | n in stack :: n in tree
    ensures elements != [] || stack != [] ==> exists n :: n in result.1 && n.id == result.0
    decreases elements, 0
  {
    if elements == [] then
      if stack == [] then ([], []) else GenerateAllRows(h, stack, tree)
    else
      match elements[0]
      case Chunk(data, note) =>
        var leaf := GenerateLeaf(h, data, note);
        GenerateFrom(h, elements[1..], stack + [leaf], [leaf] + tree)
      case Sub(inner) =>
        assert elements[0] in elements;
        var (subRoot, subTree) := GenerateTree(h, inner);
        var subTree' := MarkRebased(subTree, subRoot);
        assert exists n :: n in subTree' && n.id == subRoot by {
          var n :| n in subTree && n.id == subRoot;
          var i :| 0 <= i < |subTree| && subTree[i] == n;
          assert subTree'[i] in subTree' && subTree'[i].id == subRoot;
        }
        assert Get(subRoot, subTree').Some? && Get(subRoot, subTree').value in subTree' by {
          var n :| n in subTree' && n.id == subRoot;
          GetFinds(n, subTree');
        }
        var subRootNode := Get(subRoot, subTree').value;
        GenerateFrom(h, elements[1..], stack + [subRootNode], tree + subTree')
  }

  //////////////////////////////////////////////////////////////////////////////
  // Proofs
  //////////////////////////////////////////////////////////////////////////////

  /** A path element: the branch, marked when the child walked to is rebased. */
  function PathPart(n: Node, next: Node): Bytes
    requires n.BranchNode?
  {
    (if next.isRebased then Zeros(HASH_SIZE) else []) + n.left + n.right + NoteToBinary(n.note)
  }

  /** The offset in the child: relative to its start if it is rebased, where the start of a left
      child is taken to be the note of the node's parent. */
  function PathDest(n: Node, next: Node, dest: int, prevNote: nat): int {
    if !next.isRebased then dest
    else if dest < n.note then dest - prevNote
    else dest - n.note
  }

  /** The walk from node `id` to the leaf at `dest`. The walk follows IDs, so nothing bounds
      it on an arbitrary node list: `steps` does, and None is a missing node or a walk that
      is longer than that. */
  function PathParts(id: Bytes, dest: int, tree: seq<Node>, prevNote: nat, steps: nat): Option<Bytes>
    decreases steps
  {
    match Get(id, tree)
    case None => None
    case Some(n) =>
      if n.LeafNode? then Some(n.data + NoteToBinary(n.note))
      else if steps == 0 then None
      else
        var nextId := if dest < n.note then n.left else n.right;
        match Get(nextId, tree)
        case None => None
        case Some(next) =>
          match PathParts(nextId, PathDest(n, next, dest, prevNote), tree, n.note, steps - 1)
          case None => None
          case Some(rest) => Some(PathPart(n, next) + rest)
  }

  function GeneratePath(id: Bytes, dest: int, tree: seq<Node>): Option<Bytes> {
    PathParts(id, dest, tree, 0, |tree|)
  }

  //////////////////////////////////////////////////////////////////////////////
  // Validation
  //////////////////////////////////////////////////////////////////////////////

  datatype Ruleset = Basic | StrictBorders | StrictDataSplit | OffsetRebaseSupport

  datatype Split = AnySplit | StrictSplit | RelaxedSplit

  datatype Rules = Rules(checkBorders: bool, split: Split, allowRebase: bool)

  /** Whether only right branches were taken since the root or the last rebase. */
  datatype RightMost = Undefined | IsRightMost | IsNotRightMost

  datatype Verdict = InvalidRightBound | Rejected | Accepted(chunkId: Bytes, start: int, end: int)

  function RulesOf(ruleset: Ruleset): Rules {
    match ruleset
    case Basic => Rules(false, AnySplit, false)
    case StrictBorders => Rules(true, AnySplit, false)
    case StrictDataSplit => Rules(true, StrictSplit, false)
    case OffsetRebaseSupport => Rules(true, RelaxedSplit, true)
  }

  function Min(a: int, b: int): int { if a < b then a else b }

  function Max(a: int, b: int): int { if a < b then b else a }

  function FloorInt(n: nat, nearest: nat): nat
    requires nearest > 0
  {
    n - n % nearest
  }

  function Clamp(dest: int, rightBound: int): int {
    if dest >= rightBound then rightBound - 1 else if dest < 0 then 0 else dest
  }

  function ValidatePath(h: HashFn, id: Bytes, dest: int, rightBound: int, path: Bytes, ruleset: Ruleset): Verdict {
    if rightBound <= 0 then InvalidRightBound
    else
      var rules := RulesOf(ruleset);
      ValidateProof(h, id, Position(Clamp(dest, rightBound), 0, rightBound, 0, Undefined),
                    ParsePath(path, rules.allowRebase), rightBound, rules)
  }

  predicate BordersValid(rules: Rules, lb: int, rb: int, endOffset: int) {
    rules.checkBorders ==> endOffset - lb <= DATA_CHUNK_SIZE && rb - lb <= DATA_CHUNK_SIZE
  }

  predicate StrictSplitValid(lb: nat, rb: nat, endOffset: nat, dataSize: int) {
    if endOffset - lb == DATA_CHUNK_SIZE then
      lb % DATA_CHUNK_SIZE == 0
    else if endOffset == dataSize then
      rb % DATA_CHUNK_SIZE > 0 && lb <= FloorInt(rb, DATA_CHUNK_SIZE)
    else
      && lb % DATA_CHUNK_SIZE == 0
      && dataSize - lb > DATA_CHUNK_SIZE
      && dataSize - lb < 2 * DATA_CHUNK_SIZE
  }

  predicate RelaxedSplitValid(shiftedLeft: nat, shiftedEnd: nat, rightMost: RightMost) {
    if rightMost.IsRightMost? then
      || shiftedLeft % DATA_CHUNK_SIZE == 0
      || (shiftedLeft / DATA_CHUNK_SIZE + 1 == shiftedEnd / DATA_CHUNK_SIZE && shiftedEnd % DATA_CHUNK_SIZE != 0)
    else
      shiftedLeft % DATA_CHUNK_SIZE == 0
  }

  predicate SplitValid(
    rules: Rules, lb: nat, rb: nat, endOffset: nat, dataSize: int, rightMost: RightMost, shift: nat
  ) {
    match rules.split
    case AnySplit => true
    case StrictSplit => StrictSplitValid(lb, rb, endOffset, dataSize)
    case RelaxedSplit => RelaxedSplitValid(shift + lb, shift + endOffset, rightMost)
  }

  /** A path, read node by node from the root: branches and then a leaf. */
  datatype Proof =
    | ProofLeaf(data: Bytes, endOffset: nat)
    | ProofBranch(marked: bool, left: Bytes, right: Bytes, note: nat, rest: Proof)
    | Malformed

  /** The binary patterns of the validator, in order. The mark of a rebased subtree, 32 zero
      bytes, is recognised only where rebasing is allowed. */
  function ParsePath(path: Bytes, allowRebase: bool): Proof
    decreases |path|
  {
    if |path| == 64 then
      ProofLeaf(path[..32], FromBigEndian(path[32..]))
    else if |path| >= 128 && allowRebase && path[..32] == Zeros(32) then
      ProofBranch(true, path[32..64], path[64..96], FromBigEndian(path[96..128]), ParsePath(path[128..], allowRebase))
    else if |path| >= 96 then
      ProofBranch(false, path[..32], path[32..64], FromBigEndian(path[64..96]), ParsePath(path[96..], allowRebase))
    else
      Malformed
  }

  /** Where validation stands: a frame [lb, rb) of the current subtree, whose offset zero is the
      absolute offset `shift`, and the wanted offset in that frame. */
  datatype Position = Position(dest: int, lb: int, rb: int, shift: int, rightMost: RightMost)

  predicate Within(at: Position) {
    0 <= at.shift && 0 <= at.lb <= at.dest < at.rb
  }

  /** The child's position. A marked child has offsets of its own, starting at zero. */
  function Descend(at: Position, note: nat, marked: bool): (next: Position)
    requires Within(at)
    ensures Within(next)
    ensures next.dest + next.shift == at.dest + at.shift
    ensures next.rb + next.shift <= at.rb + at.shift
  {
    if at.dest < note then
      var note' := Min(at.rb, note);
      if marked then Position(at.dest - at.lb, 0, note' - at.lb, at.shift + at.lb, Undefined)
      else Position(at.dest, at.lb, note', at.shift, IsNotRightMost)
    else
      var note' := Max(at.lb, note);
      if marked then Position(at.dest - note', 0, at.rb - note', at.shift + note', Undefined)
      else Position(at.dest, note', at.rb, at.shift, if at.rightMost.Undefined? then IsRightMost else at.rightMost)
  }

  function ValidateLeaf(h: HashFn, id: Bytes, data: Bytes, endOffset: nat, at: Position, dataSize: int, rules: Rules): Verdict
    requires Within(at)
  {
    if !BordersValid(rules, at.lb, at.rb, endOffset) then Rejected
    else if !SplitValid(rules, at.lb, at.rb, endOffset, dataSize, at.rightMost, at.shift) then Rejected
    else if h(LeafPreimage(h, data, endOffset)) != id then Rejected
    else Accepted(data, at.shift + at.lb, at.shift + Max(Min(at.rb, endOffset), at.lb + 1))
  }

  function ValidateProof(h: HashFn, id: Bytes, at: Position, proof: Proof, dataSize: int, rules: Rules): Verdict
    requires Within(at)
    decreases proof
  {
    match proof
    case ProofLeaf(data, endOffset) => ValidateLeaf(h, id, data, endOffset, at, dataSize, rules)
    case ProofBranch(marked, left, right, note, rest) =>
      if h(BranchPreimage(h, left, right, note)) != id then Rejected
      else
        ValidateProof(h, if at.dest < note then left else right, Descend(at, note, marked), rest, dataSize, rules)
    case Malformed => Rejected
  }
}
