/** Proofs with rebase marks that are not the generated ones, against trees of flat lists
    (src/ar_merkle.erl:126-200). */
module MarkedProofs {
  import opened Bytes
  import opened Options
  import opened Merkle
  import opened MerkleShapes
  import opened MerkleBuild
  import opened MerkleLayout
  import opened MerkleProofs
  import opened MerkleSoundness

  //////////////////////////////////////////////////////////////////////////////
  // The generated path has no marks
  //////////////////////////////////////////////////////////////////////////////

  lemma {:induction false} ZeroNote(width: nat)
    ensures BigEndian(0, width) == Zeros(width)
    decreases width
  {
    if width > 0 {
      ZeroNote(width - 1);
    }
  }

  lemma {:induction false} PathIsLong(h: HashFn, s: Shape, dest: int, prevNote: nat)
    requires DataSized(s)
    ensures |PathOf(h, s, dest, prevNote)| >= 64 && (s.Leaf? ==> |PathOf(h, s, dest, prevNote)| == 64)
  {
    if s.Branch? {
      PathIsLong(h, Next(s, dest), NextDest(s, dest, prevNote), s.note);
    }
  }

  /** The path of a branch whose left child has the ID zero reads as marked. */
  lemma ParseAsMarked(l: Bytes, r: Bytes, note: nat, rest: Bytes)
    requires l == Zeros(32) && |r| == 32 && |rest| >= 64
    ensures
      ParsePath(l + r + NoteToBinary(note) + rest, true)
      == ProofBranch(true, r, NoteToBinary(note), FromBigEndian(rest[..32]), ParsePath(rest[32..], true))
  {
    var path := l + r + NoteToBinary(note) + rest;
    assert path[..32] == l && path[32..64] == r && path[64..96] == NoteToBinary(note);
    assert path[96..128] == rest[..32] && path[128..] == rest[32..];
  }

  /** Such a path is not accepted: it is too short, or a node has the ID of its child. */
  lemma NotReadAsMarked(h: HashFn, s: Shape, at: Position, rest: Bytes, dataSize: int, rules: Rules, strings: set<Bytes>)
    requires s.Branch? && NoRebase(s) && DataSized(s) && Within(at)
    requires rest == PathOf(h, Next(s, at.dest), at.dest, s.note)
    requires Comparable(h, s, ParsePath(Id(h, s.left) + Id(h, s.right) + NoteToBinary(s.note) + rest, true), strings)
    requires
      var proof := ParsePath(Id(h, s.left) + Id(h, s.right) + NoteToBinary(s.note) + rest, true);
      ValidateProof(h, Id(h, s), at, proof, dataSize, rules).Accepted?
    ensures Id(h, s.left) != Zeros(32)
  {
    var (l, r) := (Id(h, s.left), Id(h, s.right));
    var proof := ParsePath(l + r + NoteToBinary(s.note) + rest, true);
    PathIsLong(h, Next(s, at.dest), at.dest, s.note);
    if l == Zeros(32) {
      ParseAsMarked(l, r, s.note, rest);
      ProofNodeIsRoot(h, s, proof, strings);
      MarkedIsShort(h, s, at, rest, strings);
    }
  }

  lemma PathStart(h: HashFn, s: Shape, dest: int, prevNote: nat)
    requires s.Branch? && NoRebase(s)
    ensures |PathOf(h, s, dest, prevNote)| >= 32 && PathOf(h, s, dest, prevNote)[..32] == Id(h, s.left)
  {
    assert [] + Id(h, s.left) == Id(h, s.left);
  }

  lemma ChildHasOtherId(h: HashFn, s: Shape, strings: set<Bytes>)
    requires s.Branch? && NoCollision(h, strings) && Preimages(h, s) <= strings
    ensures Id(h, s.left) != Id(h, s)
  {
    if Id(h, s.left) == Id(h, s) {
      EqualIdEqualSize(h, s.left, s, strings);
    }
  }

  lemma MarkedIsShort(h: HashFn, s: Shape, at: Position, rest: Bytes, strings: set<Bytes>)
    requires s.Branch? && NoRebase(s) && DataSized(s) && Within(at) && s.note < NOTE_LIMIT
    requires NoCollision(h, strings) && Preimages(h, s) <= strings
    requires rest == PathOf(h, Next(s, at.dest), at.dest, s.note) && |rest| >= 64
    requires Id(h, s.right) == Zeros(32) == NoteToBinary(s.note) && FromBigEndian(rest[..32]) == s.note
    ensures |rest| == 64
  {
    ZeroNote(32);
    NoteRoundTrip(s.note);
    NoteRoundTrip(0);
    NoteOfDecoded(rest[..32]);
    if s.right.Branch? {
      PathStart(h, s.right, at.dest, s.note);
      ChildHasOtherId(h, s.right, strings);
    } else {
      PathIsLong(h, s.right, at.dest, s.note);
    }
  }

  lemma PathUnfold(h: HashFn, s: Shape, dest: int, prevNote: nat)
    requires s.Branch? && NoRebase(s)
    ensures
      PathOf(h, s, dest, prevNote)
      == Id(h, s.left) + Id(h, s.right) + NoteToBinary(s.note) + PathOf(h, Next(s, dest), dest, s.note)
  {
    assert [] + Id(h, s.left) == Id(h, s.left);
  }

  /** If the generated path of a shape without rebased nodes is accepted, it has no marks. */
  lemma {:induction false} GeneratedHasNoMarks(
    h: HashFn, s: Shape, at: Position, prevNote: nat, dataSize: int, rules: Rules, strings: set<Bytes>
  )
    requires NoRebase(s) && DataSized(s) && Within(at)
    requires Comparable(h, s, ParsePath(PathOf(h, s, at.dest, prevNote), true), strings)
    requires ValidateProof(h, Id(h, s), at, ParsePath(PathOf(h, s, at.dest, prevNote), true), dataSize, rules).Accepted?
    ensures Unmarked(ParsePath(PathOf(h, s, at.dest, prevNote), true))
    decreases s
  {
    if s.Branch? {
      var rest := PathOf(h, Next(s, at.dest), at.dest, s.note);
      PathUnfold(h, s, at.dest, prevNote);
      NotReadAsMarked(h, s, at, rest, dataSize, rules, strings);
      ParseBranch(Id(h, s.left), Id(h, s.right), s.note, rest, true);
      GeneratedHasNoMarks(h, Next(s, at.dest), Descend(at, s.note, false), s.note, dataSize, rules, strings);
    } else {
      ParseLeaf(s.data, s.note, true);
    }
  }

  /** Against the root of a flat list, the rebasing ruleset accepts of the paths without rebase marks
      only the generated one, and that one has no marks. */
  lemma GeneratedIffUnmarked(h: HashFn, elements: seq<Element>, dest: int, rightBound: int, path: Bytes)
    requires elements != [] && Flat(elements) && ElementNotesFit(elements) && NoEmptyNested(elements) && ChunkIdsSized(elements)
    requires ValidatePath(h, GenerateTree(h, elements).0, dest, rightBound, path, OffsetRebaseSupport).Accepted?
    requires NoCollision(h, Hashed(h, GenerateTree(h, elements).1) + ProofPreimages(h, ParsePath(path, true)))
    ensures
      var (root, tree) := GenerateTree(h, elements);
      GeneratePath(root, Clamp(dest, rightBound), tree) == Some(path) <==> Unmarked(ParsePath(path, true))
  {
    var (root, tree) := GenerateTree(h, elements);
    var s := ShapeOf(elements);
    var strings := Hashed(h, tree) + ProofPreimages(h, ParsePath(path, true));
    if Unmarked(ParsePath(path, true)) {
      UnmarkedParse(path);
      RebaseWithoutMarks(h, root, dest, rightBound, path);
      FlatProofsAreUnique(h, elements, dest, rightBound, path, StrictBorders);
    } else if GeneratePath(root, Clamp(dest, rightBound), tree) == Some(path) {
      FlatTreeFacts(h, elements, Clamp(dest, rightBound));
      TreeDataSized(elements);
      GeneratedIsUnmarked(h, s, dest, rightBound, path, strings);
    }
  }

  lemma AcceptedProof(h: HashFn, id: Bytes, dest: int, rightBound: int, path: Bytes) returns (at: Position)
    requires ValidatePath(h, id, dest, rightBound, path, OffsetRebaseSupport).Accepted?
    ensures rightBound > 0 && at == Position(Clamp(dest, rightBound), 0, rightBound, 0, Undefined) && Within(at)
    ensures
      ValidatePath(h, id, dest, rightBound, path, OffsetRebaseSupport)
      == ValidateProof(h, id, at, ParsePath(path, true), rightBound, RulesOf(OffsetRebaseSupport))
  {
    at := Position(Clamp(dest, rightBound), 0, rightBound, 0, Undefined);
  }

  lemma GeneratedIsUnmarked(h: HashFn, s: Shape, dest: int, rightBound: int, path: Bytes, strings: set<Bytes>)
    requires NoRebase(s) && DataSized(s) && ComparablePath(h, s, path, true, strings)
    requires ValidatePath(h, Id(h, s), dest, rightBound, path, OffsetRebaseSupport).Accepted?
    requires path == PathOf(h, s, Clamp(dest, rightBound), 0)
    ensures Unmarked(ParsePath(path, true))
  {
    ParsedNotesFit(path, true);
    var at := AcceptedProof(h, Id(h, s), dest, rightBound, path);
    GeneratedHasNoMarks(h, s, at, 0, rightBound, RulesOf(OffsetRebaseSupport), strings);
  }

  //////////////////////////////////////////////////////////////////////////////
  // Lists against which marks do no harm
  //////////////////////////////////////////////////////////////////////////////

  /** All chunks are full but the last two, which hold at most a chunk each, and only the last may be
      empty. */
  predicate FullFront(elements: seq<Element>, pos: nat) {
    elements != [] ==>
      && elements[0].Chunk? && pos <= elements[0].note <= pos + DATA_CHUNK_SIZE
      && (|elements| > 1 ==> pos < elements[0].note)
      && (|elements| > 2 ==> elements[0].note == pos + DATA_CHUNK_SIZE)
      && FullFront(elements[1..], elements[0].note)
  }

  /** Left children are not empty, and a right child with children is no longer than what comes before
      it. */
  predicate Sturdy(s: Shape, pos: nat) {
    s.Branch? ==>
      && pos < s.note && (s.right.Branch? ==> MaxOf(s.right) <= 2 * s.note)
      && Sturdy(s.left, pos) && Sturdy(s.right, s.note)
  }

  /** A row whose shapes take `unit` bytes each, but the last one, and the one before a last leaf. */
  predicate Even(row: seq<Shape>, unit: nat, pos: nat) {
    row != [] ==>
      var end := MaxOf(row[0]);
      && !row[0].rebased && pos <= end <= pos + unit && Sturdy(row[0], pos)
      && (|row| > 1 ==> pos < end && (end == pos + unit || (|row| == 2 && row[1].Leaf?)))
      && Even(row[1..], unit, end)
  }

  lemma EvenPair(row: seq<Shape>, unit: nat, pos: nat)
    requires Even(row, unit, pos) && |row| >= 2
    ensures
      var n := Pair(row[0], row[1], pos);
      && row[1..][0] == row[1] && row[1..][1..] == row[2..]
      && pos < n.max <= pos + 2 * unit && Sturdy(n, pos) && Even(row[2..], unit, n.max)
      && (|row| > 2 ==> n.max == pos + 2 * unit || (|row| == 3 && row[2].Leaf?))
  {
    assert row[1..][0] == row[1] && row[1..][1..] == row[2..];
    assert |row| > 2 ==> row[1..][1] == row[2];
  }

  lemma {:induction false} RowKeepsEven(row: seq<Shape>, unit: nat, pos: nat)
    requires Even(row, unit, pos)
    ensures Even(ShapeRow(row, pos), 2 * unit, pos)
    decreases |row|
  {
    if |row| >= 2 {
      var n := Pair(row[0], row[1], pos);
      var rest := ShapeRow(row[2..], n.max);
      EvenPair(row, unit, pos);
      RowKeepsEven(row[2..], unit, n.max);
      assert ([n] + rest)[1..] == rest;
      assert |row| == 3 ==> rest == row[2..];
    }
  }

  lemma {:induction false} AllRowsSturdy(row: seq<Shape>, unit: nat)
    requires row != [] && Even(row, unit, 0)
    ensures Sturdy(ShapeAllRows(row), 0)
    decreases |row|
  {
    if |row| > 1 {
      RowKeepsEven(row, unit, 0);
      AllRowsSturdy(ShapeRow(row, 0), 2 * unit);
    }
  }

  lemma {:induction false} ForestEven(elements: seq<Element>, pos: nat)
    requires NoEmptyNested(elements) && FullFront(elements, pos)
    ensures Even(Forest(elements), DATA_CHUNK_SIZE, pos)
    decreases elements
  {
    if elements != [] {
      ForestEven(elements[1..], elements[0].note);
      assert Forest(elements)[1..] == Forest(elements[1..]);
    }
  }

  //////////////////////////////////////////////////////////////////////////////
  // Every verdict is true then
  //////////////////////////////////////////////////////////////////////////////

  /** The position in the frame of a subtree that starts at `start`, opened by a mark. */
  predicate Astray(s: Shape, at: Position, start: nat) {
    && Within(at) && at.lb == 0 && at.shift == start && 0 < start < MaxOf(s) && !at.rightMost.IsRightMost?
    && (s.Branch? ==> at.rb <= start)
  }

  lemma AstrayNext(s: Shape, at: Position, start: nat, marked: bool)
    requires s.Branch? && NoRebase(s) && Sturdy(s, start) && Spans(s, Frame(start, MaxOf(s), 0)) && Astray(s, at, start)
    ensures at.dest < s.note && Astray(s.left, Descend(at, s.note, marked), start)
    ensures NoRebase(s.left) && Sturdy(s.left, start) && Spans(s.left, Frame(start, MaxOf(s.left), 0))
  {
    assert LeftFrame(s, Frame(start, MaxOf(s), 0)) == Frame(start, s.note, 0);
  }

  lemma AstrayLeaf(h: HashFn, s: Shape, at: Position, start: nat, dataSize: int)
    requires s.Leaf? && Astray(s, at, start)
    ensures ValidateLeaf(h, Id(h, s), s.data, s.note, at, dataSize, RulesOf(OffsetRebaseSupport)) == Rejected
  {
  }

  /** Notes are counted from the start of the data, so that the walk goes left all the way, to a chunk
      whose end is too far from the start of the frame. */
  lemma {:induction false} AstrayIsRejected(
    h: HashFn, s: Shape, at: Position, start: nat, proof: Proof, dataSize: int, strings: set<Bytes>
  )
    requires Comparable(h, s, proof, strings) && NoRebase(s) && Sturdy(s, start)
    requires Spans(s, Frame(start, MaxOf(s), 0)) && Astray(s, at, start)
    ensures !ValidateProof(h, Id(h, s), at, proof, dataSize, RulesOf(OffsetRebaseSupport)).Accepted?
    decreases proof
  {
    var rules := RulesOf(OffsetRebaseSupport);
    if ValidateProof(h, Id(h, s), at, proof, dataSize, rules).Accepted? {
      if proof.ProofBranch? {
        AcceptedNext(h, s, at, proof, dataSize, rules, strings);
        AstrayNext(s, at, start, proof.marked);
        AstrayIsRejected(h, s.left, Descend(at, s.note, proof.marked), start, proof.rest, dataSize, strings);
      } else {
        ProofNodeIsRoot(h, s, proof, strings);
        AstrayLeaf(h, s, at, start, dataSize);
      }
    }
  }

  /** A mark that changes nothing, at the start of the data. */
  ghost predicate OnTrack(s: Shape, f: Frame, at: Position) {
    && Spans(s, f) && f.shift == 0 && Within(at) && at.lb == f.lb && at.rb == f.rb && at.shift == 0
    && Sturdy(s, f.lb) && (s.Branch? && f.lb > 0 ==> f.rb <= 2 * f.lb)
  }

  /** Off the track after a mark, or still on it. */
  ghost predicate Goes(next: Shape, f: Frame, at: Position) {
    if at.shift > 0 then
      Spans(next, Frame(at.shift, MaxOf(next), 0)) && Sturdy(next, at.shift) && Astray(next, at, at.shift)
    else OnTrack(next, f, at)
  }

  lemma TrackLeft(s: Shape, f: Frame, at: Position, marked: bool)
    requires s.Branch? && NoRebase(s) && OnTrack(s, f, at) && at.dest < s.note
    ensures Goes(s.left, LeftFrame(s, f), Descend(at, s.note, marked))
  {
    assert LeftFrame(s, f) == Frame(f.lb, s.note, 0);
    assert Spans(s.left, LeftFrame(s, f)) && MaxOf(s.left) == s.note;
    var at' := Descend(at, s.note, marked);
    assert marked ==> at' == Position(at.dest - f.lb, 0, s.note - f.lb, f.lb, Undefined);
    assert !marked ==> at' == Position(at.dest, f.lb, s.note, 0, IsNotRightMost);
  }

  lemma TrackRight(s: Shape, f: Frame, at: Position, marked: bool)
    requires s.Branch? && NoRebase(s) && OnTrack(s, f, at) && at.dest >= s.note
    ensures Goes(s.right, RightFrame(s, f), Descend(at, s.note, marked))
  {
    assert RightFrame(s, f) == Frame(s.note, f.rb, 0);
    assert Spans(s.right, RightFrame(s, f)) && MaxOf(s.right) == f.rb;
    var at' := Descend(at, s.note, marked);
    assert marked ==> at' == Position(at.dest - s.note, 0, f.rb - s.note, s.note, Undefined);
    assert !marked ==> at'.lb == s.note && at'.rb == f.rb && at'.shift == 0;
  }

  lemma LeafOnTrack(h: HashFn, s: Shape, f: Frame, at: Position, dataSize: int, rules: Rules) returns (p: Placed)
    requires s.Leaf? && OnTrack(s, f, at)
    requires ValidateProof(h, Id(h, s), at, ProofLeaf(s.data, s.note), dataSize, rules).Accepted?
    ensures p in Leaves(s, f) && p.start <= at.dest < p.end
    ensures ValidateProof(h, Id(h, s), at, ProofLeaf(s.data, s.note), dataSize, rules) == Accepted(p.data, p.start, p.end)
  {
    p := PlacedLeaf(s, f);
    assert Leaves(s, f) == [p];
  }

  lemma {:induction false} OnTrackVerdict(
    h: HashFn, s: Shape, f: Frame, at: Position, proof: Proof, dataSize: int, strings: set<Bytes>
  ) returns (p: Placed)
    requires Comparable(h, s, proof, strings) && NoRebase(s) && OnTrack(s, f, at)
    requires ValidateProof(h, Id(h, s), at, proof, dataSize, RulesOf(OffsetRebaseSupport)).Accepted?
    ensures p in Leaves(s, f) && p.start <= at.dest < p.end
    ensures ValidateProof(h, Id(h, s), at, proof, dataSize, RulesOf(OffsetRebaseSupport)) == Accepted(p.data, p.start, p.end)
    decreases proof
  {
    var rules := RulesOf(OffsetRebaseSupport);
    if proof.ProofLeaf? {
      ProofNodeIsRoot(h, s, proof, strings);
      p := LeafOnTrack(h, s, f, at, dataSize, rules);
    } else {
      AcceptedNext(h, s, at, proof, dataSize, rules, strings);
      var (next, at') := (Next(s, at.dest), Descend(at, s.note, proof.marked));
      if at.dest < s.note {
        TrackLeft(s, f, at, proof.marked);
      } else {
        TrackRight(s, f, at, proof.marked);
      }
      if at'.shift > 0 {
        AstrayIsRejected(h, next, at', at'.shift, proof.rest, dataSize, strings);
      } else {
        p := OnTrackVerdict(h, next, NextFrame(s, at.dest, f), at', proof.rest, dataSize, strings);
      }
    }
  }

  lemma {:induction false} FullFrontIsFlat(elements: seq<Element>, pos: nat)
    requires FullFront(elements, pos)
    ensures Flat(elements)
    decreases elements
  {
    if elements != [] {
      FullFrontIsFlat(elements[1..], elements[0].note);
      assert forall e | e in elements :: e == elements[0] || e in elements[1..];
    }
  }

  lemma FullFrontTree(h: HashFn, elements: seq<Element>)
    requires Provable(h, elements) && FullFront(elements, 0)
    ensures
      var (tree, s) := (GenerateTree(h, elements).1, ShapeOf(elements));
      NoRebase(s) && Sturdy(s, 0) && ShapeNotesFit(s) && Preimages(h, s) <= Hashed(h, tree)
  {
    var (tree, s) := (GenerateTree(h, elements).1, ShapeOf(elements));
    FullFrontIsFlat(elements, 0);
    FlatTree(elements);
    ForestEven(elements, 0);
    AllRowsSturdy(Forest(elements), DATA_CHUNK_SIZE);
    ProvableTree(h, elements, 0);
    forall n | n in tree ensures n.note < NOTE_LIMIT {
      SpannedNotesFit(h, s, Frame(0, EndOf(elements, 0), 0), n);
    }
    TreeNotesFit(h, elements);
  }

  /** Against the root of a flat list whose chunks are full but the last two, whatever path the rebasing
      ruleset accepts yields the real chunk at the offset with its exact bounds, marks or no marks. */
  lemma FullFrontSoundness(h: HashFn, elements: seq<Element>, dest: int, path: Bytes) returns (p: Placed)
    requires Provable(h, elements) && FullFront(elements, 0) && 0 < EndOf(elements, 0)
    requires ValidatePath(h, GenerateTree(h, elements).0, dest, EndOf(elements, 0), path, OffsetRebaseSupport).Accepted?
    requires NoCollision(h, Hashed(h, GenerateTree(h, elements).1) + ProofPreimages(h, ParsePath(path, true)))
    ensures p in Flatten(elements, 0, 0) && p.start <= Clamp(dest, EndOf(elements, 0)) < p.end
    ensures
      ValidatePath(h, GenerateTree(h, elements).0, dest, EndOf(elements, 0), path, OffsetRebaseSupport)
      == Accepted(p.data, p.start, p.end)
  {
    var (root, tree) := GenerateTree(h, elements);
    var (s, f) := (ShapeOf(elements), Frame(0, EndOf(elements, 0), 0));
    var strings := Hashed(h, tree) + ProofPreimages(h, ParsePath(path, true));
    ProvableTree(h, elements, 0);
    FullFrontTree(h, elements);
    ParsedNotesFit(path, true);
    var at := AcceptedProof(h, root, dest, EndOf(elements, 0), path);
    p := OnTrackVerdict(h, s, f, at, ParsePath(path, true), EndOf(elements, 0), strings);
  }
}
