/** Where the builder puts the chunks of an element list. */
module MerkleLayout {
  import opened Bytes
  import opened Merkle
  import opened MerkleShapes
  import opened MerkleBuild

  //////////////////////////////////////////////////////////////////////////////
  // Element lists as byte ranges
  //////////////////////////////////////////////////////////////////////////////

  /** The end of a list that starts at `pos` in its frame. A nested list takes as much room as
      its own last offset says. */
  function EndOf(elements: seq<Element>, pos: nat): nat
    decreases elements
  {
    if elements == [] then pos else EndOf(elements[1..], ElementEnd(elements[0], pos))
  }

  function ElementEnd(e: Element, pos: nat): nat
    decreases e
  {
    match e
    case Chunk(_, note) => note
    case Sub(inner) => pos + EndOf(inner, 0)
  }

  /** Notes never decrease and nested lists are not empty. */
  predicate Laid(elements: seq<Element>, pos: nat)
    decreases elements
  {
    elements != [] ==> ElementLaid(elements[0], pos) && Laid(elements[1..], ElementEnd(elements[0], pos))
  }

  predicate ElementLaid(e: Element, pos: nat)
    decreases e
  {
    match e
    case Chunk(_, note) => pos <= note
    case Sub(inner) => inner != [] && Laid(inner, 0)
  }

  /** The chunks at their absolute offsets, for a frame whose offset zero is `shift`. */
  function Flatten(elements: seq<Element>, pos: nat, shift: nat): seq<Placed>
    decreases elements
  {
    if elements == [] then []
    else ElementChunks(elements[0], pos, shift) + Flatten(elements[1..], ElementEnd(elements[0], pos), shift)
  }

  function ElementChunks(e: Element, pos: nat, shift: nat): seq<Placed>
    decreases e
  {
    match e
    case Chunk(data, note) => [Placed(data, shift + pos, shift + note)]
    case Sub(inner) => Flatten(inner, 0, shift + pos)
  }

  predicate Flat(elements: seq<Element>) {
    forall e | e in elements :: e.Chunk?
  }

  predicate ChunkIdsSized(elements: seq<Element>)
    decreases elements
  {
    elements != [] ==>
      (match elements[0]
       case Chunk(data, _) => |data| == HASH_SIZE
       case Sub(inner) => ChunkIdsSized(inner))
      && ChunkIdsSized(elements[1..])
  }

  //////////////////////////////////////////////////////////////////////////////
  // Rows of shapes
  //////////////////////////////////////////////////////////////////////////////

  function FrameAt(s: Shape, pos: nat, shift: nat): Frame {
    if s.rebased then Frame(0, MaxOf(s), shift + pos) else Frame(pos, MaxOf(s), shift)
  }

  function EndAt(s: Shape, pos: nat): nat {
    if s.rebased then pos + MaxOf(s) else MaxOf(s)
  }

  ghost predicate RowSpans(row: seq<Shape>, pos: nat, shift: nat) {
    row != [] ==> Spans(row[0], FrameAt(row[0], pos, shift)) && RowSpans(row[1..], EndAt(row[0], pos), shift)
  }

  ghost function RowLeaves(row: seq<Shape>, pos: nat, shift: nat): seq<Placed>
    requires RowSpans(row, pos, shift)
  {
    if row == [] then []
    else Leaves(row[0], FrameAt(row[0], pos, shift)) + RowLeaves(row[1..], EndAt(row[0], pos), shift)
  }

  function RowEnd(row: seq<Shape>, pos: nat): nat {
    if row == [] then pos else RowEnd(row[1..], EndAt(row[0], pos))
  }

  lemma PairSpans(l: Shape, r: Shape, pos: nat, shift: nat)
    requires Spans(l, FrameAt(l, pos, shift)) && Spans(r, FrameAt(r, EndAt(l, pos), shift))
    ensures
      var n := Pair(l, r, pos);
      && EndAt(n, pos) == EndAt(r, EndAt(l, pos))
      && Spans(n, FrameAt(n, pos, shift))
      && Leaves(n, FrameAt(n, pos, shift)) == Leaves(l, FrameAt(l, pos, shift)) + Leaves(r, FrameAt(r, EndAt(l, pos), shift))
  {
    var n := Pair(l, r, pos);
    var f := FrameAt(n, pos, shift);
    assert LeftFrame(n, f) == FrameAt(l, pos, shift);
    assert RightFrame(n, f) == FrameAt(r, EndAt(l, pos), shift);
  }

  /** A row with one more shape in front. */
  lemma RowOf(s: Shape, rest: seq<Shape>, pos: nat, shift: nat)
    requires Spans(s, FrameAt(s, pos, shift)) && RowSpans(rest, EndAt(s, pos), shift)
    ensures RowSpans([s] + rest, pos, shift) && RowEnd([s] + rest, pos) == RowEnd(rest, EndAt(s, pos))
    ensures RowLeaves([s] + rest, pos, shift) == Leaves(s, FrameAt(s, pos, shift)) + RowLeaves(rest, EndAt(s, pos), shift)
  {
    assert ([s] + rest)[1..] == rest;
  }

  lemma FirstOfRow(row: seq<Shape>, pos: nat, shift: nat)
    requires RowSpans(row, pos, shift) && row != []
    ensures
      var (f, next) := (FrameAt(row[0], pos, shift), EndAt(row[0], pos));
      && Spans(row[0], f) && RowSpans(row[1..], next, shift) && RowEnd(row, pos) == RowEnd(row[1..], next)
      && RowLeaves(row, pos, shift) == Leaves(row[0], f) + RowLeaves(row[1..], next, shift)
  {
  }

  lemma Regroup(a: seq<Placed>, b: seq<Placed>, c: seq<Placed>)
    ensures a + (b + c) == a + b + c
  {
  }

  /** The first two shapes of a row. */
  lemma FrontOfRow(row: seq<Shape>, pos: nat, shift: nat)
    requires RowSpans(row, pos, shift) && |row| >= 2
    ensures
      var (l, r) := (row[0], row[1]);
      var (next, end) := (EndAt(l, pos), EndAt(r, EndAt(l, pos)));
      && Spans(l, FrameAt(l, pos, shift)) && Spans(r, FrameAt(r, next, shift)) && RowSpans(row[2..], end, shift)
      && RowEnd(row, pos) == RowEnd(row[2..], end)
      && RowLeaves(row, pos, shift)
         == Leaves(l, FrameAt(l, pos, shift)) + Leaves(r, FrameAt(r, next, shift)) + RowLeaves(row[2..], end, shift)
  {
    var (l, r, rest) := (row[0], row[1], row[2..]);
    var (next, end) := (EndAt(l, pos), EndAt(r, EndAt(l, pos)));
    assert row[1..][0] == r && row[1..][1..] == rest;
    FirstOfRow(row, pos, shift);
    FirstOfRow(row[1..], next, shift);
    Regroup(Leaves(l, FrameAt(l, pos, shift)), Leaves(r, FrameAt(r, next, shift)), RowLeaves(rest, end, shift));
  }

  /** Pairing up a row moves no chunk. */
  lemma {:induction false} RowKeepsLayout(row: seq<Shape>, pos: nat, shift: nat)
    requires RowSpans(row, pos, shift)
    ensures
      var newRow := ShapeRow(row, pos);
      && RowSpans(newRow, pos, shift)
      && RowLeaves(newRow, pos, shift) == RowLeaves(row, pos, shift)
      && RowEnd(newRow, pos) == RowEnd(row, pos)
    decreases |row|
  {
    if |row| >= 2 {
      var (l, r) := (row[0], row[1]);
      var n := Pair(l, r, pos);
      FrontOfRow(row, pos, shift);
      PairSpans(l, r, pos, shift);
      RowKeepsLayout(row[2..], n.max, shift);
      RowOf(n, ShapeRow(row[2..], n.max), pos, shift);
    }
  }

  lemma {:induction false} AllRowsKeepLayout(row: seq<Shape>, shift: nat)
    requires row != [] && RowSpans(row, 0, shift)
    ensures
      var s := ShapeAllRows(row);
      var f := Frame(0, RowEnd(row, 0), shift);
      Spans(s, f) && Leaves(s, f) == RowLeaves(row, 0, shift)
    decreases |row|
  {
    if |row| == 1 {
      assert row[1..] == [];
      assert RowLeaves(row[1..], EndAt(row[0], 0), shift) == [];
    } else {
      RowKeepsLayout(row, 0, shift);
      AllRowsKeepLayout(ShapeRow(row, 0), shift);
    }
  }

  //////////////////////////////////////////////////////////////////////////////
  // The layout of the whole tree
  //////////////////////////////////////////////////////////////////////////////

  /** The row covers [pos, end) and has these chunks. */
  ghost predicate RowIs(row: seq<Shape>, pos: nat, shift: nat, end: nat, leaves: seq<Placed>) {
    RowSpans(row, pos, shift) && RowEnd(row, pos) == end && RowLeaves(row, pos, shift) == leaves
  }

  lemma {:induction false} ForestLayout(elements: seq<Element>, pos: nat, shift: nat)
    requires NoEmptyNested(elements) && Laid(elements, pos)
    ensures RowIs(Forest(elements), pos, shift, EndOf(elements, pos), Flatten(elements, pos, shift))
    decreases elements, 0
  {
    if elements != [] {
      var e := elements[0];
      assert e in elements;
      var (s, rest) := (ShapeOfElement(e), elements[1..]);
      ElementLayout(e, pos, shift);
      ForestLayout(rest, EndAt(s, pos), shift);
    }
  }

  lemma {:induction false} ElementLayout(e: Element, pos: nat, shift: nat)
    requires ElementLaid(e, pos) && (e.Sub? ==> NoEmptyNested(e.elements))
    ensures
      var s := ShapeOfElement(e);
      && Spans(s, FrameAt(s, pos, shift))
      && EndAt(s, pos) == ElementEnd(e, pos)
      && Leaves(s, FrameAt(s, pos, shift)) == ElementChunks(e, pos, shift)
    decreases e, 0
  {
    if e.Sub? {
      TreeLayout(e.elements, shift + pos);
    }
  }

  /** The tree of an element list covers it and has its chunks in order at their offsets. */
  lemma {:induction false} TreeLayout(elements: seq<Element>, shift: nat)
    requires elements != [] && NoEmptyNested(elements) && Laid(elements, 0)
    ensures
      var (s, f) := (ShapeOf(elements), Frame(0, EndOf(elements, 0), shift));
      Spans(s, f) && Leaves(s, f) == Flatten(elements, 0, shift)
    decreases elements, 1
  {
    ForestLayout(elements, 0, shift);
    AllRowsKeepLayout(Forest(elements), shift);
  }

  //////////////////////////////////////////////////////////////////////////////
  // Properties of all leaves or all nodes
  //////////////////////////////////////////////////////////////////////////////

  predicate RowDataSized(row: seq<Shape>) {
    forall s | s in row :: DataSized(s)
  }

  lemma {:induction false} AllRowsDataSized(row: seq<Shape>)
    requires row != [] && RowDataSized(row)
    ensures DataSized(ShapeAllRows(row))
    decreases |row|
  {
    if |row| > 1 {
      RowKeepsDataSized(row, 0);
      AllRowsDataSized(ShapeRow(row, 0));
    }
  }

  lemma {:induction false} RowKeepsDataSized(row: seq<Shape>, shift: nat)
    requires RowDataSized(row)
    ensures RowDataSized(ShapeRow(row, shift))
    decreases |row|
  {
    if |row| >= 2 {
      RowKeepsDataSized(row[2..], Pair(row[0], row[1], shift).max);
    }
  }

  lemma {:induction false} TreeDataSized(elements: seq<Element>)
    requires elements != [] && NoEmptyNested(elements) && ChunkIdsSized(elements)
    ensures DataSized(ShapeOf(elements))
    decreases elements, 1
  {
    ForestDataSized(elements);
    AllRowsDataSized(Forest(elements));
  }

  lemma {:induction false} ForestDataSized(elements: seq<Element>)
    requires NoEmptyNested(elements) && ChunkIdsSized(elements)
    ensures RowDataSized(Forest(elements))
    decreases elements, 0
  {
    if elements != [] {
      assert elements[0] in elements;
      if elements[0].Sub? {
        TreeDataSized(elements[0].elements);
      }
      ForestDataSized(elements[1..]);
    }
  }

  predicate RowNoRebase(row: seq<Shape>) {
    forall s | s in row :: NoRebase(s) && !s.rebased
  }

  lemma {:induction false} AllRowsNoRebase(row: seq<Shape>)
    requires row != [] && RowNoRebase(row)
    ensures NoRebase(ShapeAllRows(row)) && !ShapeAllRows(row).rebased
    decreases |row|
  {
    if |row| > 1 {
      RowKeepsNoRebase(row, 0);
      AllRowsNoRebase(ShapeRow(row, 0));
    }
  }

  lemma {:induction false} RowKeepsNoRebase(row: seq<Shape>, shift: nat)
    requires RowNoRebase(row)
    ensures RowNoRebase(ShapeRow(row, shift))
    decreases |row|
  {
    if |row| >= 2 {
      RowKeepsNoRebase(row[2..], Pair(row[0], row[1], shift).max);
    }
  }

  lemma {:induction false} FlatForest(elements: seq<Element>)
    requires Flat(elements)
    ensures NoEmptyNested(elements) && RowNoRebase(Forest(elements))
  {
    if elements != [] {
      FlatForest(elements[1..]);
    }
  }

  /** A flat list has a tree without rebased nodes. */
  lemma FlatTree(elements: seq<Element>)
    requires Flat(elements) && elements != []
    ensures NoEmptyNested(elements) && NoRebase(ShapeOf(elements)) && !ShapeOf(elements).rebased
    ensures WellPlaced(ShapeOf(elements), true)
  {
    FlatForest(elements);
    AllRowsNoRebase(Forest(elements));
    NoRebaseWellPlaced(ShapeOf(elements), true);
  }

  lemma {:induction false} NoRebaseWellPlaced(s: Shape, exact: bool)
    requires NoRebase(s)
    ensures WellPlaced(s, exact)
  {
    if s.Branch? {
      NoRebaseWellPlaced(s.left, false);
      NoRebaseWellPlaced(s.right, true);
    }
  }
}
