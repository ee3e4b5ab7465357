/** How transaction data becomes a Merkle tree of chunks (src/ar_tx.erl). */
module Chunking {
  import opened Bytes
  import opened Options
  import opened Merkle
  import opened MerkleShapes
  import opened MerkleBuild
  import opened MerkleLayout
  import opened MerkleProofs
  import opened MerkleSoundness
  import opened MarkedProofs
  import opened SplitRules

  const MIN_CHUNK_SIZE := 32768

  /** Format 2 transactions use the arweave-js rule, all others the legacy one. */
  datatype Mode = Legacy | ArweaveJs

  /** The size of the next chunk of a binary of at least one full chunk: the arweave-js rule
      halves what is left when the remainder would be small. */
  function NextChunkSize(mode: Mode, binSize: nat): (size: nat)
    requires binSize >= DATA_CHUNK_SIZE
    ensures 0 < size <= binSize
  {
    var rest := binSize - DATA_CHUNK_SIZE;
    if mode.ArweaveJs? && 0 < rest < MIN_CHUNK_SIZE then (binSize + 1) / 2 else DATA_CHUNK_SIZE
  }

  /** A full chunk is always followed by another one, so data whose size is a multiple of the
      chunk size ends in an empty chunk. */
  function ChunkBinary(mode: Mode, bin: Bytes): (chunks: seq<Bytes>)
    ensures chunks != []
    decreases |bin|
  {
    if |bin| < DATA_CHUNK_SIZE then [bin]
    else
      var size := NextChunkSize(mode, |bin|);
      [bin[..size]] + ChunkBinary(mode, bin[size..])
  }

  /** Chunk IDs with cumulative end offsets. */
  function SizedChunkIds(h: HashFn, chunks: seq<Bytes>, pos: nat): (elements: seq<Element>)
    ensures |elements| == |chunks| && Flat(elements) && NoEmptyNested(elements)
  {
    if chunks == [] then []
    else [Chunk(h(chunks[0]), pos + |chunks[0]|)] + SizedChunkIds(h, chunks[1..], pos + |chunks[0]|)
  }

  function DataElements(h: HashFn, mode: Mode, data: Bytes): (elements: seq<Element>)
    ensures elements != [] && Flat(elements) && NoEmptyNested(elements)
  {
    SizedChunkIds(h, ChunkBinary(mode, data), 0)
  }

  function Concat(chunks: seq<Bytes>): Bytes {
    if chunks == [] then [] else chunks[0] + Concat(chunks[1..])
  }

  /** Chunking loses and reorders nothing. */
  lemma {:induction false} ChunksConcat(mode: Mode, bin: Bytes)
    ensures Concat(ChunkBinary(mode, bin)) == bin
    decreases |bin|
  {
    if |bin| < DATA_CHUNK_SIZE {
      assert [bin][1..] == [];
      assert bin + [] == bin;
    } else {
      var size := NextChunkSize(mode, |bin|);
      ChunksConcat(mode, bin[size..]);
      var rest := ChunkBinary(mode, bin[size..]);
      assert ([bin[..size]] + rest)[1..] == rest;
      assert bin[..size] + bin[size..] == bin;
    }
  }

  lemma ElementsCons(e: Element, rest: seq<Element>, pos: nat)
    requires e.Chunk? && pos <= e.note && |e.data| == HASH_SIZE && Laid(rest, e.note) && ChunkIdsSized(rest)
    ensures Laid([e] + rest, pos) && ChunkIdsSized([e] + rest) && EndOf([e] + rest, pos) == EndOf(rest, e.note)
  {
    assert ([e] + rest)[0] == e && ([e] + rest)[1..] == rest;
  }

  lemma {:induction false} ElementsBounded(h: HashFn, chunks: seq<Bytes>, pos: nat)
    ensures forall e | e in SizedChunkIds(h, chunks, pos) :: e.note <= pos + |Concat(chunks)|
  {
    if chunks != [] {
      ElementsBounded(h, chunks[1..], pos + |chunks[0]|);
    }
  }

  lemma {:induction false} ElementsFlat(h: HashFn, chunks: seq<Bytes>, pos: nat)
    ensures
      var elements := SizedChunkIds(h, chunks, pos);
      Laid(elements, pos) && ChunkIdsSized(elements) && EndOf(elements, pos) == pos + |Concat(chunks)|
  {
    if chunks != [] {
      var end := pos + |chunks[0]|;
      ElementsFlat(h, chunks[1..], end);
      ElementsCons(Chunk(h(chunks[0]), end), SizedChunkIds(h, chunks[1..], end), pos);
    }
  }

  //////////////////////////////////////////////////////////////////////////////
  // Where the cuts are
  //////////////////////////////////////////////////////////////////////////////

  /** The cuts in `size` bytes: at the multiples of 262144 and at the end, except that arweave-js puts
      the last one in the middle of what is behind the one before when fewer than 32768 bytes follow it. */
  function Border(mode: Mode, size: nat, i: nat): nat {
    var (full, rest) := (size / 262144, size % 262144);
    if i > full then size
    else if mode.ArweaveJs? && 0 < i == full && 0 < rest < 32768 then 262144 * (i - 1) + (262144 + rest + 1) / 2
    else 262144 * i
  }

  lemma BorderStep(mode: Mode, size: nat, i: nat)
    requires size >= 262144
    ensures
      var next := NextChunkSize(mode, size);
      && Border(mode, size, 0) == 0 && Border(mode, size, i + 1) == next + Border(mode, size - next, i)
      && size / 262144 == (size - next) / 262144 + 1
  {
    var next := NextChunkSize(mode, size);
    if next == 262144 {
      assert (size - next) % 262144 == size % 262144;
    } else {
      assert size / 262144 == 1;
    }
  }

  /** All that lies between two cuts. */
  ghost predicate IsPiece(h: HashFn, data: Bytes, start: nat, end: nat, p: Placed) {
    start <= end <= |data| && p == Placed(h(data[start..end]), start, end)
  }

  /** The chunks of a binary that starts at `pos` of the data. */
  ghost function PiecesFrom(h: HashFn, mode: Mode, data: Bytes, pos: nat): seq<Placed>
    requires pos <= |data|
  {
    Flatten(SizedChunkIds(h, ChunkBinary(mode, data[pos..]), pos), pos, 0)
  }

  lemma {:induction false} PieceAt(h: HashFn, mode: Mode, data: Bytes, pos: nat, i: nat) returns (start: nat, end: nat)
    requires pos <= |data| && i <= (|data| - pos) / 262144
    ensures start == pos + Border(mode, |data| - pos, i) && end == pos + Border(mode, |data| - pos, i + 1)
    ensures |PiecesFrom(h, mode, data, pos)| == (|data| - pos) / 262144 + 1
    ensures IsPiece(h, data, start, end, PiecesFrom(h, mode, data, pos)[i])
    decreases |data| - pos
  {
    var size := |data| - pos;
    if size < 262144 {
      OnlyChunk(h, mode, data, pos);
      start, end := pos, |data|;
    } else {
      var next := NextPieces(h, mode, data, pos);
      if i == 0 {
        start, end := pos, next;
        var _, _ := PieceAt(h, mode, data, next, 0);
      } else {
        start, end := PieceAt(h, mode, data, next, i - 1);
        BorderStep(mode, size, i - 1);
      }
      BorderStep(mode, size, i);
    }
  }

  lemma NextPieces(h: HashFn, mode: Mode, data: Bytes, pos: nat) returns (next: nat)
    requires pos + 262144 <= |data|
    ensures pos < next <= |data| && next == pos + NextChunkSize(mode, |data| - pos)
    ensures Border(mode, |data| - pos, 0) == 0 && Border(mode, |data| - pos, 1) == next - pos
    ensures (|data| - pos) / 262144 == (|data| - next) / 262144 + 1
    ensures PiecesFrom(h, mode, data, pos) == [Placed(h(data[pos..next]), pos, next)] + PiecesFrom(h, mode, data, next)
  {
    next := pos + NextChunkSize(mode, |data| - pos);
    BorderStep(mode, |data| - pos, 0);
    FrontChunk(h, mode, data, pos, next);
  }

  lemma OnlyChunk(h: HashFn, mode: Mode, data: Bytes, pos: nat)
    requires pos <= |data| < pos + 262144
    ensures
      Flatten(SizedChunkIds(h, ChunkBinary(mode, data[pos..]), pos), pos, 0) == [Placed(h(data[pos..|data|]), pos, |data|)]
  {
    var bin := data[pos..];
    assert [bin][1..] == [];
    var e := Chunk(h(bin), |data|);
    assert SizedChunkIds(h, [bin], pos) == [e];
    assert [e][1..] == [];
    assert data[pos..|data|] == bin;
  }

  lemma FrontChunk(h: HashFn, mode: Mode, data: Bytes, pos: nat, next: nat)
    requires pos + DATA_CHUNK_SIZE <= |data| && next == pos + NextChunkSize(mode, |data| - pos)
    ensures
      Flatten(SizedChunkIds(h, ChunkBinary(mode, data[pos..]), pos), pos, 0)
      == [Placed(h(data[pos..next]), pos, next)] + Flatten(SizedChunkIds(h, ChunkBinary(mode, data[next..]), next), next, 0)
  {
    var bin := data[pos..];
    var (size, rest) := (next - pos, ChunkBinary(mode, data[next..]));
    assert bin[..size] == data[pos..next] && bin[size..] == data[next..];
    var chunks := [bin[..size]] + rest;
    assert ChunkBinary(mode, bin) == chunks && chunks[1..] == rest;
    var (e, tail) := (Chunk(h(bin[..size]), next), SizedChunkIds(h, rest, next));
    assert SizedChunkIds(h, chunks, pos) == [e] + tail;
    assert ([e] + tail)[1..] == tail;
  }

  /** All chunks of the data. Their number is one more than that of the full chunks that fit. */
  lemma ChunksBetweenBorders(h: HashFn, mode: Mode, data: Bytes)
    ensures
      var chunks := Flatten(DataElements(h, mode, data), 0, 0);
      && |chunks| == |data| / 262144 + 1
      && forall i | 0 <= i < |chunks| :: IsPiece(h, data, Border(mode, |data|, i), Border(mode, |data|, i + 1), chunks[i])
  {
    assert data[0..] == data;
    var chunks := PiecesFrom(h, mode, data, 0);
    assert chunks == Flatten(DataElements(h, mode, data), 0, 0);
    var _, _ := PieceAt(h, mode, data, 0, 0);
    forall i | 0 <= i < |chunks| ensures IsPiece(h, data, Border(mode, |data|, i), Border(mode, |data|, i + 1), chunks[i]) {
      var _, _ := PieceAt(h, mode, data, 0, i);
    }
  }

  /** Every chunk has at most 262144 bytes, and unless it is empty it lies as the strict and the relaxed
      split ask. */
  lemma ChunksOk(mode: Mode, size: nat, i: nat)
    requires i <= size / 262144
    ensures
      var (start, end) := (Border(mode, size, i), Border(mode, size, i + 1));
      && end <= start + 262144
      && (start < end ==> ChunkSplit(start, end, size) && RelaxedCases(start, end, 0 < i == size / 262144))
  {
    var (full, rest) := (size / 262144, size % 262144);
    var (start, end) := (Border(mode, size, i), Border(mode, size, i + 1));
    assert size == 262144 * full + rest;
    if i == full {
      if mode.ArweaveJs? && 0 < i && 0 < rest < 32768 {
        assert start / 262144 == i - 1 && end / 262144 == i;
      }
    } else {
      assert start == 262144 * i;
    }
  }

  //////////////////////////////////////////////////////////////////////////////
  // End to end
  //////////////////////////////////////////////////////////////////////////////

  /** The tree of the data, unless strings hashed for it collide. */
  lemma DataProvable(h: HashFn, mode: Mode, data: Bytes)
    requires |data| < NOTE_LIMIT
    requires NoCollision(h, Hashed(h, GenerateTree(h, DataElements(h, mode, data)).1))
    ensures Provable(h, DataElements(h, mode, data)) && EndOf(DataElements(h, mode, data), 0) == |data|
  {
    var elements := DataElements(h, mode, data);
    ChunksConcat(mode, data);
    ElementsFlat(h, ChunkBinary(mode, data), 0);
    ElementsBounded(h, ChunkBinary(mode, data), 0);
    FlatTreeFacts(h, elements, 0);
  }

  /** For every non-empty binary, both chunking modes and every offset below its size, the generated
      path validates under every ruleset, and returns the ID and the exact bounds of the chunk of the
      data that holds the offset. The rebasing one needs that no ID reads as its mark. */
  lemma ProofOfEveryByte(h: HashFn, mode: Mode, data: Bytes, offset: nat, ruleset: Ruleset) returns (p: Placed, i: nat)
    requires offset < |data| < NOTE_LIMIT
    requires NoCollision(h, Hashed(h, GenerateTree(h, DataElements(h, mode, data)).1))
    requires ruleset.OffsetRebaseSupport? ==> NoZeroIds(GenerateTree(h, DataElements(h, mode, data)).1)
    ensures p.start == Border(mode, |data|, i) && p.end == Border(mode, |data|, i + 1)
    ensures p.start <= offset < p.end <= |data| && p.data == h(data[p.start..p.end])
    ensures
      var (root, tree) := GenerateTree(h, DataElements(h, mode, data));
      var path := GeneratePath(root, offset, tree);
      path.Some? && ValidatePath(h, root, offset, |data|, path.value, ruleset) == Accepted(p.data, p.start, p.end)
  {
    var elements := DataElements(h, mode, data);
    DataProvable(h, mode, data);
    if ruleset.OffsetRebaseSupport? {
      p := GeneratedRebaseExactly(h, elements, offset);
      i := ChunkIsTrue(h, mode, data, p);
      LastOfData(h, mode, data, i);
    } else {
      p := GeneratedExactly(h, elements, offset);
      i := ChunkIsTrue(h, mode, data, p);
    }
    ChunksOk(mode, |data|, i);
  }

  lemma LastOfData(h: HashFn, mode: Mode, data: Bytes, i: nat)
    requires i <= |data| / 262144
    ensures
      var elements := DataElements(h, mode, data);
      && |elements| == |data| / 262144 + 1
      && (i == |data| / 262144 ==> LastChunkStart(elements) == Border(mode, |data|, i))
  {
    ChunksBetweenBorders(h, mode, data);
    LastOfFlat(DataElements(h, mode, data));
    var (chunks, last) := (Flatten(DataElements(h, mode, data), 0, 0), |data| / 262144);
    assert IsPiece(h, data, Border(mode, |data|, last), Border(mode, |data|, last + 1), chunks[last]);
  }

  lemma ChunkIsTrue(h: HashFn, mode: Mode, data: Bytes, p: Placed) returns (i: nat)
    requires p in Flatten(DataElements(h, mode, data), 0, 0)
    ensures p.start <= p.end <= |data| && p.data == h(data[p.start..p.end])
    ensures i <= |data| / 262144 && p.start == Border(mode, |data|, i) && p.end == Border(mode, |data|, i + 1)
  {
    ChunksBetweenBorders(h, mode, data);
    var chunks := Flatten(DataElements(h, mode, data), 0, 0);
    i :| 0 <= i < |chunks| && chunks[i] == p;
    assert IsPiece(h, data, Border(mode, |data|, i), Border(mode, |data|, i + 1), chunks[i]);
  }

  /** And nothing else validates: bytes accepted against the data root at any offset, inside or
      outside the data, are the generated path, and they yield the real chunk. */
  lemma OnlyTrueProofs(h: HashFn, mode: Mode, data: Bytes, dest: int, path: Bytes, ruleset: Ruleset) returns (p: Placed)
    requires 0 < |data| < NOTE_LIMIT && !ruleset.OffsetRebaseSupport?
    requires ValidatePath(h, GenerateTree(h, DataElements(h, mode, data)).0, dest, |data|, path, ruleset).Accepted?
    requires
      var proof := ParsePath(path, RulesOf(ruleset).allowRebase);
      NoCollision(h, Hashed(h, GenerateTree(h, DataElements(h, mode, data)).1) + ProofPreimages(h, proof))
    ensures p.start <= Clamp(dest, |data|) < p.end <= |data| && p.data == h(data[p.start..p.end])
    ensures
      var (root, tree) := GenerateTree(h, DataElements(h, mode, data));
      && GeneratePath(root, Clamp(dest, |data|), tree) == Some(path)
      && ValidatePath(h, root, dest, |data|, path, ruleset) == Accepted(p.data, p.start, p.end)
  {
    var elements := DataElements(h, mode, data);
    DataProvable(h, mode, data);
    ChunksConcat(mode, data);
    ElementsBounded(h, ChunkBinary(mode, data), 0);
    p := FlatSoundness(h, elements, dest, path, ruleset);
    var i := ChunkIsTrue(h, mode, data, p);
  }

  /** All chunks are full but the last two. */
  lemma {:induction false} ChunksFullFront(h: HashFn, mode: Mode, bin: Bytes, pos: nat)
    ensures FullFront(SizedChunkIds(h, ChunkBinary(mode, bin), pos), pos)
    decreases |bin|
  {
    if |bin| >= DATA_CHUNK_SIZE {
      var size := NextChunkSize(mode, |bin|);
      var rest := ChunkBinary(mode, bin[size..]);
      ChunksFullFront(h, mode, bin[size..], pos + size);
      var (e, tail) := (Chunk(h(bin[..size]), pos + size), SizedChunkIds(h, rest, pos + size));
      assert ([bin[..size]] + rest)[1..] == rest;
      assert SizedChunkIds(h, ChunkBinary(mode, bin), pos) == [e] + tail && ([e] + tail)[1..] == tail;
    } else {
      assert [bin][1..] == [];
      var e := Chunk(h(bin), pos + |bin|);
      assert SizedChunkIds(h, [bin], pos) == [e] && [e][1..] == [];
    }
  }

  /** Under every ruleset, marks or no marks, what is accepted yields the real chunk at the offset with
      its exact bounds. */
  lemma OnlyTrueChunks(h: HashFn, mode: Mode, data: Bytes, dest: int, path: Bytes, ruleset: Ruleset) returns (p: Placed)
    requires 0 < |data| < NOTE_LIMIT
    requires ValidatePath(h, GenerateTree(h, DataElements(h, mode, data)).0, dest, |data|, path, ruleset).Accepted?
    requires
      var proof := ParsePath(path, RulesOf(ruleset).allowRebase);
      NoCollision(h, Hashed(h, GenerateTree(h, DataElements(h, mode, data)).1) + ProofPreimages(h, proof))
    ensures p.start <= Clamp(dest, |data|) < p.end <= |data| && p.data == h(data[p.start..p.end])
    ensures
      ValidatePath(h, GenerateTree(h, DataElements(h, mode, data)).0, dest, |data|, path, ruleset)
      == Accepted(p.data, p.start, p.end)
  {
    if !ruleset.OffsetRebaseSupport? {
      p := OnlyTrueProofs(h, mode, data, dest, path, ruleset);
    } else {
      p := OnlyTrueRebased(h, mode, data, dest, path, ruleset);
    }
  }

  lemma RebasedSoundness(h: HashFn, elements: seq<Element>, dest: int, path: Bytes, ruleset: Ruleset) returns (p: Placed)
    requires Provable(h, elements) && FullFront(elements, 0) && 0 < EndOf(elements, 0) && ruleset.OffsetRebaseSupport?
    requires ValidatePath(h, GenerateTree(h, elements).0, dest, EndOf(elements, 0), path, ruleset).Accepted?
    requires NoCollision(h, Hashed(h, GenerateTree(h, elements).1) + ProofPreimages(h, ParsePath(path, true)))
    ensures p in Flatten(elements, 0, 0) && p.start <= Clamp(dest, EndOf(elements, 0)) < p.end
    ensures
      ValidatePath(h, GenerateTree(h, elements).0, dest, EndOf(elements, 0), path, ruleset)
      == Accepted(p.data, p.start, p.end)
  {
    assert ruleset == OffsetRebaseSupport;
    p := FullFrontSoundness(h, elements, dest, path);
  }

  lemma OnlyTrueRebased(h: HashFn, mode: Mode, data: Bytes, dest: int, path: Bytes, ruleset: Ruleset) returns (p: Placed)
    requires 0 < |data| < NOTE_LIMIT && ruleset.OffsetRebaseSupport?
    requires ValidatePath(h, GenerateTree(h, DataElements(h, mode, data)).0, dest, |data|, path, ruleset).Accepted?
    requires
      var proof := ParsePath(path, RulesOf(ruleset).allowRebase);
      NoCollision(h, Hashed(h, GenerateTree(h, DataElements(h, mode, data)).1) + ProofPreimages(h, proof))
    ensures p.start <= Clamp(dest, |data|) < p.end <= |data| && p.data == h(data[p.start..p.end])
    ensures
      ValidatePath(h, GenerateTree(h, DataElements(h, mode, data)).0, dest, |data|, path, ruleset)
      == Accepted(p.data, p.start, p.end)
  {
    var elements := DataElements(h, mode, data);
    DataProvable(h, mode, data);
    ChunksFullFront(h, mode, data, 0);
    assert ParsePath(path, RulesOf(ruleset).allowRebase) == ParsePath(path, true);
    p := RebasedSoundness(h, elements, dest, path, ruleset);
    var i := ChunkIsTrue(h, mode, data, p);
  }
}
