/** Paths that the rebasing ruleset accepts and that are not the generated ones
    (src/ar_merkle.erl:126-231). */
module MarkedExamples {
  import opened Bytes
  import opened Merkle
  import opened MerkleShapes
  import opened MerkleBuild
  import opened MerkleLayout
  import opened MerkleSoundness
  import opened AgreeingProofs
  import opened MarkedProofs

  lemma NoteLimitIsLarge()
    ensures NOTE_LIMIT > 0x1_0000_0000
  {
    assert Limit(1) == 256;
    assert Limit(2) == 0x1_0000;
    assert Limit(3) == 0x100_0000;
    assert Limit(4) == 0x1_0000_0000;
    LimitGrows(4, 32);
  }

  lemma {:induction false} LimitGrows(m: nat, n: nat)
    requires m < n
    ensures Limit(m) < Limit(n)
  {
    if m < n - 1 {
      LimitGrows(m, n - 1);
    }
  }

  function Join(l: Shape, r: Shape): Shape { Branch(l, r, MaxOf(l), MaxOf(r), false) }

  lemma RowCons(a: Shape, b: Shape, rest: seq<Shape>, shift: nat)
    requires !a.rebased && !b.rebased
    ensures ShapeRow([a, b] + rest, shift) == [Join(a, b)] + ShapeRow(rest, MaxOf(b))
  {
    assert ([a, b] + rest)[2..] == rest;
  }

  lemma ForestCons(d: Bytes, n: nat, rest: seq<Element>)
    requires NoEmptyNested(rest)
    ensures NoEmptyNested([Chunk(d, n)] + rest) && Forest([Chunk(d, n)] + rest) == [Leaf(d, n, false)] + Forest(rest)
  {
    assert ([Chunk(d, n)] + rest)[1..] == rest;
  }

  lemma AllRowsOf(row: seq<Shape>, next: seq<Shape>)
    requires |row| > 1 && next == ShapeRow(row, 0)
    ensures ShapeAllRows(row) == if |next| == 1 then next[0] else ShapeAllRows(next)
  {
  }

  /** The root of the tree that is built is that of the shape. */
  lemma RootIs(h: HashFn, elements: seq<Element>)
    requires elements != [] && NoEmptyNested(elements) && NoCollision(h, Hashed(h, GenerateTree(h, elements).1))
    ensures GenerateTree(h, elements).0 == Id(h, ShapeOf(elements))
  {
    GenerateTreeIsShape(h, elements);
  }

  lemma ValidatedBy(h: HashFn, id: Bytes, dest: int, rightBound: int, path: Bytes, proof: Proof)
    requires 0 <= dest < rightBound && ParsePath(path, true) == proof
    ensures
      ValidatePath(h, id, dest, rightBound, path, OffsetRebaseSupport)
      == ValidateProof(h, id, Position(dest, 0, rightBound, 0, Undefined), proof, rightBound, RulesOf(OffsetRebaseSupport))
  {
  }

  //////////////////////////////////////////////////////////////////////////////
  // Two paths for one offset
  //////////////////////////////////////////////////////////////////////////////

  function TwoChunks(d1: Bytes, d2: Bytes): Shape {
    Branch(Leaf(d1, DATA_CHUNK_SIZE, false), Leaf(d2, 2 * DATA_CHUNK_SIZE, false), DATA_CHUNK_SIZE, 2 * DATA_CHUNK_SIZE, false)
  }

  function TwoChunksProof(h: HashFn, d1: Bytes, d2: Bytes, marked: bool): Proof {
    var (s, n) := (TwoChunks(d1, d2), DATA_CHUNK_SIZE);
    ProofBranch(marked, Id(h, s.left), Id(h, s.right), n, ProofLeaf(d1, n))
  }

  lemma TwoChunksParse(h: HashFn, d1: Bytes, d2: Bytes)
    requires |d1| == HASH_SIZE && h(LeafPreimage(h, d1, DATA_CHUNK_SIZE)) != Zeros(HASH_SIZE)
    ensures
      var path := PathOf(h, TwoChunks(d1, d2), 0, 0);
      && ParsePath(path, true) == TwoChunksProof(h, d1, d2, false)
      && ParsePath(Zeros(HASH_SIZE) + path, true) == TwoChunksProof(h, d1, d2, true)
  {
    var (s, n) := (TwoChunks(d1, d2), DATA_CHUNK_SIZE);
    var (l, r, rest) := (Id(h, s.left), Id(h, s.right), d1 + NoteToBinary(n));
    NoteLimitIsLarge();
    PathUnfold(h, s, 0, 0);
    ParseLeaf(d1, n, true);
    ParseBranch(l, r, n, rest, true);
    ParseMarkedBranch(l, r, n, rest);
    MarkInFront(l, r, NoteToBinary(n), rest);
  }

  lemma MarkInFront(l: Bytes, r: Bytes, note: Bytes, rest: Bytes)
    ensures Zeros(32) + (l + r + note + rest) == Zeros(32) + l + r + note + rest
  {
  }

  lemma TwoChunksVerdict(h: HashFn, d1: Bytes, d2: Bytes, marked: bool)
    ensures
      var n := DATA_CHUNK_SIZE;
      ValidateProof(h, Id(h, TwoChunks(d1, d2)), Position(0, 0, 2 * n, 0, Undefined), TwoChunksProof(h, d1, d2, marked),
                    2 * n, RulesOf(OffsetRebaseSupport))
      == Accepted(d1, 0, n)
  {
  }

  function TwoFull(d1: Bytes, d2: Bytes): seq<Element> {
    [Chunk(d1, DATA_CHUNK_SIZE)] + [Chunk(d2, 2 * DATA_CHUNK_SIZE)]
  }

  lemma TwoFullIs(d1: Bytes, d2: Bytes)
    ensures NoEmptyNested(TwoFull(d1, d2)) && Flat(TwoFull(d1, d2)) && ShapeOf(TwoFull(d1, d2)) == TwoChunks(d1, d2)
  {
    var (n, l, r) := (DATA_CHUNK_SIZE, Leaf(d1, DATA_CHUNK_SIZE, false), Leaf(d2, 2 * DATA_CHUNK_SIZE, false));
    assert [Chunk(d2, 2 * n)] + [] == [Chunk(d2, 2 * n)];
    ForestCons(d2, 2 * n, []);
    ForestCons(d1, n, [Chunk(d2, 2 * n)]);
    assert [r] + Forest([]) == [r];
    assert [l] + [r] == [l, r] + [];
    RowCons(l, r, [], 0);
    assert Forest(TwoFull(d1, d2)) == [l, r];
    AllRowsOf([l, r], [Join(l, r)]);
  }

  /** Uniqueness stops at the rebasing ruleset: against the root of two full chunks the generated path of
      the first one is accepted, and so is a longer one with a rebase mark in front. */
  lemma RebaseProofsAreNotUnique(h: HashFn, d1: Bytes, d2: Bytes) returns (path: Bytes)
    requires |d1| == |d2| == HASH_SIZE
    requires h(LeafPreimage(h, d1, DATA_CHUNK_SIZE)) != Zeros(HASH_SIZE)
    requires NoEmptyNested(TwoFull(d1, d2)) && NoCollision(h, Hashed(h, GenerateTree(h, TwoFull(d1, d2)).1))
    ensures
      var (root, n) := (GenerateTree(h, TwoFull(d1, d2)).0, DATA_CHUNK_SIZE);
      && ValidatePath(h, root, 0, 2 * n, path, OffsetRebaseSupport) == Accepted(d1, 0, n)
      && ValidatePath(h, root, 0, 2 * n, Zeros(HASH_SIZE) + path, OffsetRebaseSupport) == Accepted(d1, 0, n)
  {
    path := PathOf(h, TwoChunks(d1, d2), 0, 0);
    TwoFullIs(d1, d2);
    RootIs(h, TwoFull(d1, d2));
    TwoChunksParse(h, d1, d2);
    var (root, n) := (Id(h, TwoChunks(d1, d2)), DATA_CHUNK_SIZE);
    TwoChunksVerdict(h, d1, d2, false);
    ValidatedBy(h, root, 0, 2 * n, path, TwoChunksProof(h, d1, d2, false));
    TwoChunksVerdict(h, d1, d2, true);
    ValidatedBy(h, root, 0, 2 * n, Zeros(HASH_SIZE) + path, TwoChunksProof(h, d1, d2, true));
  }

  //////////////////////////////////////////////////////////////////////////////
  // Wrong bounds
  //////////////////////////////////////////////////////////////////////////////

  /** A chunk, and a nested list of one chunk. */
  function ChunkAndSub(d1: Bytes, d2: Bytes): seq<Element> {
    [Chunk(d1, DATA_CHUNK_SIZE)] + [Sub([Chunk(d2, DATA_CHUNK_SIZE)])]
  }

  function ChunkAndSubShape(d1: Bytes, d2: Bytes): Shape {
    Branch(Leaf(d1, DATA_CHUNK_SIZE, false), Leaf(d2, DATA_CHUNK_SIZE, true), DATA_CHUNK_SIZE, 2 * DATA_CHUNK_SIZE, false)
  }

  lemma ChunkAndSubIs(d1: Bytes, d2: Bytes)
    ensures
      var elements := ChunkAndSub(d1, d2);
      NoEmptyNested(elements) && ShapeOf(elements) == ChunkAndSubShape(d1, d2) && EndOf(elements, 0) == 2 * DATA_CHUNK_SIZE
  {
    var (n, inner) := (DATA_CHUNK_SIZE, [Chunk(d2, DATA_CHUNK_SIZE)]);
    assert [Chunk(d2, n)] + [] == inner && inner[1..] == [];
    ForestCons(d2, n, []);
    assert Forest(inner) == [Leaf(d2, n, false)];
    assert ShapeOf(inner) == Leaf(d2, n, false);
    var sub := [Sub(inner)];
    assert NoEmptyNested(sub) && ShapeOfElement(sub[0]) == Leaf(d2, n, true);
    assert sub[1..] == [] && Forest(sub) == [Leaf(d2, n, true)] + [];
    ForestCons(d1, n, sub);
    var row := [Leaf(d1, n, false), Leaf(d2, n, true)];
    assert Forest(ChunkAndSub(d1, d2)) == row && row[2..] == [];
    assert ShapeRow(row[2..], 2 * n) == [];
    assert ShapeRow(row, 0) == [ChunkAndSubShape(d1, d2)];
    AllRowsOf(row, [ChunkAndSubShape(d1, d2)]);
    assert EndOf(inner, 0) == EndOf(inner[1..], n) == n;
    assert ElementEnd(sub[0], n) == 2 * n && EndOf(sub, n) == EndOf(sub[1..], 2 * n) == 2 * n;
    assert ChunkAndSub(d1, d2)[1..] == sub;
  }

  /** Without its mark, the path to the nested chunk is accepted too: the offset K + 5 is answered with
      the interval from K to K + 1. */
  lemma WrongBounds(h: HashFn, d1: Bytes, d2: Bytes) returns (path: Bytes)
    requires |d1| == |d2| == HASH_SIZE
    requires h(LeafPreimage(h, d1, DATA_CHUNK_SIZE)) != Zeros(HASH_SIZE)
    requires NoEmptyNested(ChunkAndSub(d1, d2)) && NoCollision(h, Hashed(h, GenerateTree(h, ChunkAndSub(d1, d2)).1))
    ensures
      var (root, n) := (GenerateTree(h, ChunkAndSub(d1, d2)).0, DATA_CHUNK_SIZE);
      ValidatePath(h, root, n + 5, 2 * n, path, OffsetRebaseSupport) == Accepted(d2, n, n + 1)
  {
    var (s, n) := (ChunkAndSubShape(d1, d2), DATA_CHUNK_SIZE);
    var (l, r, rest) := (Id(h, s.left), Id(h, s.right), d2 + NoteToBinary(n));
    NoteLimitIsLarge();
    ChunkAndSubIs(d1, d2);
    RootIs(h, ChunkAndSub(d1, d2));
    path := l + r + NoteToBinary(n) + rest;
    ParseLeaf(d2, n, true);
    ParseBranch(l, r, n, rest, true);
    assert ValidateProof(h, r, Position(n + 5, n, 2 * n, 0, IsRightMost), ProofLeaf(d2, n), 2 * n, RulesOf(OffsetRebaseSupport))
        == Accepted(d2, n, n + 1);
  }

  //////////////////////////////////////////////////////////////////////////////
  // Right for the wrong reason
  //////////////////////////////////////////////////////////////////////////////

  /** Two chunks, a nested list of two, and one more. */
  function Around(d: seq<Bytes>): seq<Element>
    requires |d| == 5
  {
    [Chunk(d[0], DATA_CHUNK_SIZE)] + ([Chunk(d[1], 2 * DATA_CHUNK_SIZE)] + ([Sub(Inner(d))] + Outer(d)))
  }

  function Inner(d: seq<Bytes>): seq<Element>
    requires |d| == 5
  {
    [Chunk(d[2], DATA_CHUNK_SIZE)] + [Chunk(d[3], 2 * DATA_CHUNK_SIZE)]
  }

  function Outer(d: seq<Bytes>): seq<Element>
    requires |d| == 5
  {
    [Chunk(d[4], 5 * DATA_CHUNK_SIZE)]
  }

  function Nested(d: seq<Bytes>): Shape
    requires |d| == 5
  {
    TwoChunks(d[2], d[3]).(rebased := true)
  }

  function Back(d: seq<Bytes>): Shape
    requires |d| == 5
  {
    Branch(Nested(d), Leaf(d[4], 5 * DATA_CHUNK_SIZE, false), 4 * DATA_CHUNK_SIZE, 5 * DATA_CHUNK_SIZE, false)
  }

  lemma OuterIs(d: seq<Bytes>)
    requires |d| == 5
    ensures
      var tail := [Sub(Inner(d))] + Outer(d);
      && NoEmptyNested(Inner(d)) && NoEmptyNested(tail)
      && Forest(tail) == [Nested(d), Leaf(d[4], 5 * DATA_CHUNK_SIZE, false)]
  {
    var tail := [Sub(Inner(d))] + Outer(d);
    TwoFullIs(d[2], d[3]);
    assert Inner(d) == TwoFull(d[2], d[3]);
    assert Outer(d) + [] == Outer(d);
    ForestCons(d[4], 5 * DATA_CHUNK_SIZE, []);
    assert tail[0] == Sub(Inner(d)) && tail[1..] == Outer(d);
    assert forall e | e in tail :: e == tail[0] || e in Outer(d);
    assert ShapeOfElement(tail[0]) == Nested(d);
  }

  lemma AroundIs(d: seq<Bytes>)
    requires |d| == 5
    ensures NoEmptyNested(Around(d)) && ShapeOf(Around(d)) == Join(TwoChunks(d[0], d[1]), Back(d))
  {
    var n := DATA_CHUNK_SIZE;
    var (tail, a, b, e) := ([Sub(Inner(d))] + Outer(d), Leaf(d[0], n, false), Leaf(d[1], 2 * n, false), Leaf(d[4], 5 * n, false));
    OuterIs(d);
    ForestCons(d[1], 2 * n, tail);
    ForestCons(d[0], n, [Chunk(d[1], 2 * n)] + tail);
    assert Forest(Around(d)) == [a, b] + [Nested(d), e];
    RowCons(a, b, [Nested(d), e], 0);
    assert [Nested(d), e][2..] == [] && ShapeRow([Nested(d), e], 2 * n) == [Back(d)];
    AllRowsOf([a, b] + [Nested(d), e], [TwoChunks(d[0], d[1]), Back(d)]);
    assert [TwoChunks(d[0], d[1]), Back(d)] + [] == [TwoChunks(d[0], d[1]), Back(d)];
    RowCons(TwoChunks(d[0], d[1]), Back(d), [], 0);
    AllRowsOf([TwoChunks(d[0], d[1]), Back(d)], [Join(TwoChunks(d[0], d[1]), Back(d))]);
  }

  /** To the first nested chunk, with the mark one branch too early. */
  function EarlyPath(h: HashFn, d: seq<Bytes>): Bytes
    requires |d| == 5
  {
    Zeros(32) + Id(h, TwoChunks(d[0], d[1])) + Id(h, Back(d)) + NoteToBinary(2 * DATA_CHUNK_SIZE)
    + (Id(h, Nested(d)) + Id(h, Back(d).right) + NoteToBinary(4 * DATA_CHUNK_SIZE)
    + (Id(h, Nested(d).left) + Id(h, Nested(d).right) + NoteToBinary(DATA_CHUNK_SIZE)
    + (d[2] + NoteToBinary(DATA_CHUNK_SIZE))))
  }

  function EarlyProof(h: HashFn, d: seq<Bytes>): Proof
    requires |d| == 5
  {
    ProofBranch(true, Id(h, TwoChunks(d[0], d[1])), Id(h, Back(d)), 2 * DATA_CHUNK_SIZE,
      ProofBranch(false, Id(h, Nested(d)), Id(h, Back(d).right), 4 * DATA_CHUNK_SIZE,
        ProofBranch(false, Id(h, Nested(d).left), Id(h, Nested(d).right), DATA_CHUNK_SIZE,
          ProofLeaf(d[2], DATA_CHUNK_SIZE))))
  }

  lemma EarlyParse(h: HashFn, d: seq<Bytes>)
    requires |d| == 5 && |d[2]| == HASH_SIZE
    requires Id(h, Nested(d)) != Zeros(HASH_SIZE) && Id(h, Nested(d).left) != Zeros(HASH_SIZE)
    ensures ParsePath(EarlyPath(h, d), true) == EarlyProof(h, d)
  {
    var n := DATA_CHUNK_SIZE;
    var leaf := d[2] + NoteToBinary(n);
    var inner := Id(h, Nested(d).left) + Id(h, Nested(d).right) + NoteToBinary(n) + leaf;
    var outer := Id(h, Nested(d)) + Id(h, Back(d).right) + NoteToBinary(4 * n) + inner;
    NoteLimitIsLarge();
    ParseLeaf(d[2], n, true);
    ParseBranch(Id(h, Nested(d).left), Id(h, Nested(d).right), n, leaf, true);
    ParseBranch(Id(h, Nested(d)), Id(h, Back(d).right), 4 * n, inner, true);
    ParseMarkedBranch(Id(h, TwoChunks(d[0], d[1])), Id(h, Back(d)), 2 * n, outer);
  }

  /** Where the mark stands the frame starts as the nested one does, one branch further down. */
  lemma EarlyVerdict(h: HashFn, d: seq<Bytes>)
    requires |d| == 5
    ensures
      var (n, root) := (DATA_CHUNK_SIZE, Join(TwoChunks(d[0], d[1]), Back(d)));
      && ValidateProof(h, Id(h, root), Position(2 * n + 5, 0, 5 * n, 0, Undefined), EarlyProof(h, d), 5 * n, RulesOf(OffsetRebaseSupport))
         == Accepted(d[2], 2 * n, 3 * n)
      && !Agrees(root, 2 * n + 5, Frame(0, 5 * n, 0), EarlyProof(h, d))
  {
    var (n, rules) := (DATA_CHUNK_SIZE, RulesOf(OffsetRebaseSupport));
    var (p1, p2) := (EarlyProof(h, d).rest, EarlyProof(h, d).rest.rest);
    var at1 := Position(5, 0, 3 * n, 2 * n, Undefined);
    var at2 := Position(5, 0, 3 * n, 2 * n, IsNotRightMost);
    var at3 := Position(5, 0, n, 2 * n, IsNotRightMost);
    assert ValidateProof(h, Id(h, Nested(d).left), at3, p2.rest, 5 * n, rules) == Accepted(d[2], 2 * n, 3 * n);
    assert ValidateProof(h, Id(h, Nested(d)), at2, p2, 5 * n, rules) == Accepted(d[2], 2 * n, 3 * n);
    assert ValidateProof(h, Id(h, Back(d)), at1, p1, 5 * n, rules) == Accepted(d[2], 2 * n, 3 * n);
  }

  /** Marks that agree with the tree are enough for a true answer, and not needed: one that comes a branch
      too early can take the place of one that is missing. */
  lemma EarlyMarkIsRight(h: HashFn, d: seq<Bytes>) returns (path: Bytes)
    requires |d| == 5 && |d[2]| == HASH_SIZE
    requires Id(h, Nested(d)) != Zeros(HASH_SIZE) && Id(h, Nested(d).left) != Zeros(HASH_SIZE)
    requires NoEmptyNested(Around(d)) && NoCollision(h, Hashed(h, GenerateTree(h, Around(d)).1))
    ensures
      var (root, n) := (GenerateTree(h, Around(d)).0, DATA_CHUNK_SIZE);
      && ValidatePath(h, root, 2 * n + 5, 5 * n, path, OffsetRebaseSupport) == Accepted(d[2], 2 * n, 3 * n)
      && !Agrees(ShapeOf(Around(d)), 2 * n + 5, Frame(0, 5 * n, 0), ParsePath(path, true))
  {
    path := EarlyPath(h, d);
    AroundIs(d);
    RootIs(h, Around(d));
    EarlyParse(h, d);
    EarlyVerdict(h, d);
    ValidatedBy(h, Id(h, Join(TwoChunks(d[0], d[1]), Back(d))), 2 * DATA_CHUNK_SIZE + 5, 5 * DATA_CHUNK_SIZE, path, EarlyProof(h, d));
  }

  //////////////////////////////////////////////////////////////////////////////
  // A wrong chunk
  //////////////////////////////////////////////////////////////////////////////

  /** Seven chunks of which only the last three are not small. */
  function Seven(d: seq<Bytes>): seq<Element>
    requires |d| == 7
  {
    [Chunk(d[0], 25)] + ([Chunk(d[1], 50)] + ([Chunk(d[2], 75)] + ([Chunk(d[3], 100)] + LastThree(d))))
  }

  function LastThree(d: seq<Bytes>): seq<Element>
    requires |d| == 7
  {
    [Chunk(d[4], DATA_CHUNK_SIZE - 100)] + ([Chunk(d[5], DATA_CHUNK_SIZE + 10)] + [Chunk(d[6], DATA_CHUNK_SIZE + 200)])
  }

  function At25(d: seq<Bytes>, k: nat): Shape
    requires |d| == 7 && k < 4
  {
    Leaf(d[k], 25 * k + 25, false)
  }

  function Small(d: seq<Bytes>): Shape
    requires |d| == 7
  {
    Join(Join(At25(d, 0), At25(d, 1)), Join(At25(d, 2), At25(d, 3)))
  }

  function Fifth(d: seq<Bytes>): Shape
    requires |d| == 7
  {
    Leaf(d[4], DATA_CHUNK_SIZE - 100, false)
  }

  function Sixth(d: seq<Bytes>): Shape
    requires |d| == 7
  {
    Leaf(d[5], DATA_CHUNK_SIZE + 10, false)
  }

  function Seventh(d: seq<Bytes>): Shape
    requires |d| == 7
  {
    Leaf(d[6], DATA_CHUNK_SIZE + 200, false)
  }

  function Big(d: seq<Bytes>): Shape
    requires |d| == 7
  {
    Join(Join(Fifth(d), Sixth(d)), Seventh(d))
  }

  lemma LastThreeIs(d: seq<Bytes>)
    requires |d| == 7
    ensures NoEmptyNested(LastThree(d)) && Forest(LastThree(d)) == [Fifth(d), Sixth(d), Seventh(d)]
  {
    var last := [Chunk(d[6], DATA_CHUNK_SIZE + 200)];
    assert last + [] == last;
    ForestCons(d[6], DATA_CHUNK_SIZE + 200, []);
    ForestCons(d[5], DATA_CHUNK_SIZE + 10, last);
    ForestCons(d[4], DATA_CHUNK_SIZE - 100, [Chunk(d[5], DATA_CHUNK_SIZE + 10)] + last);
  }

  lemma SevenForest(d: seq<Bytes>)
    requires |d| == 7
    ensures NoEmptyNested(Seven(d))
    ensures
      Forest(Seven(d)) == [At25(d, 0), At25(d, 1)] + ([At25(d, 2), At25(d, 3)] + ([Fifth(d), Sixth(d)] + [Seventh(d)]))
  {
    LastThreeIs(d);
    ForestCons(d[3], 100, LastThree(d));
    ForestCons(d[2], 75, [Chunk(d[3], 100)] + LastThree(d));
    ForestCons(d[1], 50, [Chunk(d[2], 75)] + ([Chunk(d[3], 100)] + LastThree(d)));
    ForestCons(d[0], 25, [Chunk(d[1], 50)] + ([Chunk(d[2], 75)] + ([Chunk(d[3], 100)] + LastThree(d))));
  }

  lemma SevenIs(d: seq<Bytes>)
    requires |d| == 7
    ensures NoEmptyNested(Seven(d)) && ShapeOf(Seven(d)) == Join(Small(d), Big(d))
  {
    SevenForest(d);
    var (a, b, c, z) := (Join(At25(d, 0), At25(d, 1)), Join(At25(d, 2), At25(d, 3)), Join(Fifth(d), Sixth(d)), Seventh(d));
    var row := Forest(Seven(d));
    RowCons(Fifth(d), Sixth(d), [z], MaxOf(b));
    RowCons(At25(d, 2), At25(d, 3), [Fifth(d), Sixth(d)] + [z], MaxOf(a));
    RowCons(At25(d, 0), At25(d, 1), [At25(d, 2), At25(d, 3)] + ([Fifth(d), Sixth(d)] + [z]), 0);
    assert ShapeRow([z], MaxOf(c)) == [z];
    assert ShapeRow(row, 0) == [a] + ([b] + ([c] + [z]));
    AllRowsOf(row, [a, b] + [c, z]);
    assert [c, z] + [] == [c, z];
    RowCons(c, z, [], MaxOf(b));
    RowCons(a, b, [c, z], 0);
    AllRowsOf([a, b] + [c, z], [Join(a, b), Join(c, z)]);
    assert [Join(a, b), Join(c, z)] + [] == [Join(a, b), Join(c, z)];
    RowCons(Join(a, b), Join(c, z), [], 0);
    AllRowsOf([Join(a, b), Join(c, z)], [Join(Small(d), Big(d))]);
  }

  /** The path to the sixth chunk, with a mark at the root. */
  function WrongPath(h: HashFn, d: seq<Bytes>): Bytes
    requires |d| == 7
  {
    Zeros(32) + Id(h, Small(d)) + Id(h, Big(d)) + NoteToBinary(100)
    + (Id(h, Join(Fifth(d), Sixth(d))) + Id(h, Seventh(d)) + NoteToBinary(DATA_CHUNK_SIZE + 10)
    + (Id(h, Fifth(d)) + Id(h, Sixth(d)) + NoteToBinary(DATA_CHUNK_SIZE - 100)
    + (d[5] + NoteToBinary(DATA_CHUNK_SIZE + 10))))
  }

  function WrongProof(h: HashFn, d: seq<Bytes>): Proof
    requires |d| == 7
  {
    ProofBranch(true, Id(h, Small(d)), Id(h, Big(d)), 100,
      ProofBranch(false, Id(h, Join(Fifth(d), Sixth(d))), Id(h, Seventh(d)), DATA_CHUNK_SIZE + 10,
        ProofBranch(false, Id(h, Fifth(d)), Id(h, Sixth(d)), DATA_CHUNK_SIZE - 100,
          ProofLeaf(d[5], DATA_CHUNK_SIZE + 10))))
  }

  lemma WrongParse(h: HashFn, d: seq<Bytes>)
    requires |d| == 7 && |d[5]| == HASH_SIZE
    requires Id(h, Join(Fifth(d), Sixth(d))) != Zeros(HASH_SIZE) && Id(h, Fifth(d)) != Zeros(HASH_SIZE)
    ensures ParsePath(WrongPath(h, d), true) == WrongProof(h, d)
  {
    var n := DATA_CHUNK_SIZE;
    var leaf := d[5] + NoteToBinary(n + 10);
    var inner := Id(h, Fifth(d)) + Id(h, Sixth(d)) + NoteToBinary(n - 100) + leaf;
    var outer := Id(h, Join(Fifth(d), Sixth(d))) + Id(h, Seventh(d)) + NoteToBinary(n + 10) + inner;
    NoteLimitIsLarge();
    ParseLeaf(d[5], n + 10, true);
    ParseBranch(Id(h, Fifth(d)), Id(h, Sixth(d)), n - 100, leaf, true);
    ParseBranch(Id(h, Join(Fifth(d), Sixth(d))), Id(h, Seventh(d)), n + 10, inner, true);
    ParseMarkedBranch(Id(h, Small(d)), Id(h, Big(d)), 100, outer);
  }

  /** The mark moves the frame by 100, and the notes lead to the sixth chunk, in what looks like a
      correct place: its bytes would start at a multiple of 256 KiB. */
  lemma WrongVerdict(h: HashFn, d: seq<Bytes>)
    requires |d| == 7
    ensures
      var n := DATA_CHUNK_SIZE;
      ValidateProof(h, Id(h, Join(Small(d), Big(d))), Position(n + 50, 0, n + 200, 0, Undefined), WrongProof(h, d), n + 200,
                    RulesOf(OffsetRebaseSupport))
      == Accepted(d[5], n, n + 110)
  {
    var (n, rules) := (DATA_CHUNK_SIZE, RulesOf(OffsetRebaseSupport));
    var (p1, p2) := (WrongProof(h, d).rest, WrongProof(h, d).rest.rest);
    var at1 := Position(n - 50, 0, n + 100, 100, Undefined);
    var at2 := Position(n - 50, 0, n + 10, 100, IsNotRightMost);
    var at3 := Position(n - 50, n - 100, n + 10, 100, IsNotRightMost);
    assert ValidateProof(h, Id(h, Sixth(d)), at3, p2.rest, n + 200, rules) == Accepted(d[5], n, n + 110);
    assert ValidateProof(h, Id(h, Join(Fifth(d), Sixth(d))), at2, p2, n + 200, rules) == Accepted(d[5], n, n + 110);
    assert ValidateProof(h, Id(h, Big(d)), at1, p1, n + 200, rules) == Accepted(d[5], n, n + 110);
  }

  lemma LayoutCons(d: Bytes, n: nat, rest: seq<Element>, pos: nat)
    ensures EndOf([Chunk(d, n)] + rest, pos) == EndOf(rest, n)
    ensures Flatten([Chunk(d, n)] + rest, pos, 0) == [Placed(d, pos, n)] + Flatten(rest, n, 0)
  {
    assert ([Chunk(d, n)] + rest)[1..] == rest;
  }

  lemma SevenEnds(d: seq<Bytes>)
    requires |d| == 7
    ensures EndOf(Seven(d), 0) == DATA_CHUNK_SIZE + 200
    ensures Placed(d[6], DATA_CHUNK_SIZE + 10, DATA_CHUNK_SIZE + 200) in Flatten(Seven(d), 0, 0)
  {
    var n := DATA_CHUNK_SIZE;
    var last := [Chunk(d[6], n + 200)];
    assert last + [] == last;
    LayoutCons(d[6], n + 200, [], n + 10);
    LayoutCons(d[5], n + 10, last, n - 100);
    LayoutCons(d[4], n - 100, [Chunk(d[5], n + 10)] + last, 100);
    LayoutCons(d[3], 100, LastThree(d), 75);
    LayoutCons(d[2], 75, [Chunk(d[3], 100)] + LastThree(d), 50);
    LayoutCons(d[1], 50, [Chunk(d[2], 75)] + ([Chunk(d[3], 100)] + LastThree(d)), 25);
    LayoutCons(d[0], 25, [Chunk(d[1], 50)] + ([Chunk(d[2], 75)] + ([Chunk(d[3], 100)] + LastThree(d))), 0);
  }

  /** Against the root of a flat list, an offset in the seventh chunk is answered with the sixth chunk. */
  lemma WrongChunk(h: HashFn, d: seq<Bytes>) returns (path: Bytes)
    requires |d| == 7 && |d[5]| == HASH_SIZE
    requires Id(h, Join(Fifth(d), Sixth(d))) != Zeros(HASH_SIZE) && Id(h, Fifth(d)) != Zeros(HASH_SIZE)
    requires NoEmptyNested(Seven(d)) && NoCollision(h, Hashed(h, GenerateTree(h, Seven(d)).1))
    ensures
      var (root, n) := (GenerateTree(h, Seven(d)).0, DATA_CHUNK_SIZE);
      && EndOf(Seven(d), 0) == n + 200 && Placed(d[6], n + 10, n + 200) in Flatten(Seven(d), 0, 0)
      && ValidatePath(h, root, n + 50, n + 200, path, OffsetRebaseSupport) == Accepted(d[5], n, n + 110)
  {
    path := WrongPath(h, d);
    SevenIs(d);
    RootIs(h, Seven(d));
    SevenEnds(d);
    WrongParse(h, d);
    WrongVerdict(h, d);
    ValidatedBy(h, Id(h, Join(Small(d), Big(d))), DATA_CHUNK_SIZE + 50, DATA_CHUNK_SIZE + 200, path, WrongProof(h, d));
  }
}
