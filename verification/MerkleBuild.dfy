/** The node list the builder returns is a binary shape laid out by its element list. */
module MerkleBuild {
  import opened Bytes
  import opened Options
  import opened Merkle
  import opened MerkleShapes

  //////////////////////////////////////////////////////////////////////////////
  // The builder on shapes
  //////////////////////////////////////////////////////////////////////////////

  function Mark(s: Shape): Shape { s.(rebased := true) }

  function Pair(l: Shape, r: Shape, shift: nat): Shape {
    var lMax := if l.rebased then shift + MaxOf(l) else MaxOf(l);
    var rMax := if r.rebased then lMax + MaxOf(r) else MaxOf(r);
    Branch(l, r, lMax, rMax, false)
  }

  function ShapeRow(row: seq<Shape>, shift: nat): (newRow: seq<Shape>)
    ensures |newRow| == (|row| + 1) / 2
  {
    if |row| <= 1 then row
    else
      var n := Pair(row[0], row[1], shift);
      [n] + ShapeRow(row[2..], n.max)
  }

  function ShapeAllRows(row: seq<Shape>): Shape
    requires row != []
    decreases |row|
  {
    if |row| == 1 then row[0] else ShapeAllRows(ShapeRow(row, 0))
  }

  ghost function Forest(elements: seq<Element>): (forest: seq<Shape>)
    requires NoEmptyNested(elements)
    ensures |forest| == |elements|
    decreases elements, 0
  {
    if elements == [] then []
    else [ShapeOfElement(elements[0])] + Forest(elements[1..])
  }

  ghost function ShapeOfElement(e: Element): Shape
    requires e.Sub? ==> e.elements != [] && NoEmptyNested(e.elements)
    decreases e, 0
  {
    match e
    case Chunk(data, note) => Leaf(data, note, false)
    case Sub(inner) => Mark(ShapeOf(inner))
  }

  ghost function ShapeOf(elements: seq<Element>): Shape
    requires elements != [] && NoEmptyNested(elements)
    decreases elements, 1
  {
    ShapeAllRows(Forest(elements))
  }

  //////////////////////////////////////////////////////////////////////////////
  // Node lists of rows
  //////////////////////////////////////////////////////////////////////////////

  function NodesOf(h: HashFn, row: seq<Shape>): (nodes: seq<Node>)
    ensures |nodes| == |row|
    ensures forall i | 0 <= i < |row| :: nodes[i] == NodeOf(h, row[i])
  {
    seq(|row|, i requires 0 <= i < |row| => NodeOf(h, row[i]))
  }

  function ForestNodes(h: HashFn, forest: seq<Shape>): set<Node> {
    if forest == [] then {} else Nodes(h, forest[0]) + ForestNodes(h, forest[1..])
  }

  /** The list holds exactly the nodes of the forest. */
  ghost predicate Rep(h: HashFn, tree: seq<Node>, forest: seq<Shape>) {
    forall n :: n in tree <==> n in ForestNodes(h, forest)
  }

  lemma {:induction false} ForestNodesAppend(h: HashFn, a: seq<Shape>, b: seq<Shape>)
    ensures ForestNodes(h, a + b) == ForestNodes(h, a) + ForestNodes(h, b)
  {
    if a == [] {
      assert a + b == b;
    } else {
      assert (a + b)[1..] == a[1..] + b;
      ForestNodesAppend(h, a[1..], b);
    }
  }

  lemma {:induction false} GenerateRowIsShapeRow(h: HashFn, row: seq<Shape>, shift: nat)
    ensures GenerateRow(h, NodesOf(h, row), shift) == NodesOf(h, ShapeRow(row, shift))
    decreases |row|
  {
    if |row| >= 2 {
      var n := Pair(row[0], row[1], shift);
      assert GenerateNode(h, NodeOf(h, row[0]), NodeOf(h, row[1]), shift) == (NodeOf(h, Pair(row[0], row[1], shift)), Pair(row[0], row[1], shift).max);
      GenerateRowIsShapeRow(h, row[2..], n.max);
      assert NodesOf(h, row)[2..] == NodesOf(h, row[2..]);
    }
  }

  function Roots(h: HashFn, row: seq<Shape>): set<Node> {
    if row == [] then {} else {NodeOf(h, row[0])} + Roots(h, row[1..])
  }

  lemma {:induction false} RootsAreNodesOf(h: HashFn, row: seq<Shape>)
    ensures forall n :: n in Roots(h, row) <==> n in NodesOf(h, row)
  {
    if row != [] {
      RootsAreNodesOf(h, row[1..]);
      assert [row[0]] + row[1..] == row;
    }
  }

  /** A row adds its own new nodes to those of the row below. */
  lemma {:induction false} RowAddsNodes(h: HashFn, row: seq<Shape>, shift: nat)
    ensures ForestNodes(h, ShapeRow(row, shift)) == Roots(h, ShapeRow(row, shift)) + ForestNodes(h, row)
    decreases |row|
  {
    if |row| == 1 {
      assert row[1..] == [];
    } else if |row| >= 2 {
      var n := Pair(row[0], row[1], shift);
      var rest := ShapeRow(row[2..], n.max);
      RowAddsNodes(h, row[2..], n.max);
      ForestNodesAppend(h, [n], rest);
      ForestNodesAppend(h, row[..2], row[2..]);
      assert row[..2] + row[2..] == row && row[..2] == [row[0], row[1]];
      PairNodes(h, row[0], row[1], shift);
      assert ([n] + rest)[1..] == rest;
    }
  }

  lemma PairNodes(h: HashFn, l: Shape, r: Shape, shift: nat)
    ensures ForestNodes(h, [Pair(l, r, shift)]) == {NodeOf(h, Pair(l, r, shift))} + ForestNodes(h, [l, r])
  {
    var n := Pair(l, r, shift);
    assert [l, r][1..] == [r];
    assert ForestNodes(h, [r]) == Nodes(h, r);
    assert ForestNodes(h, [n]) == Nodes(h, n);
  }

  lemma {:induction false} AllRowsAreShape(h: HashFn, row: seq<Shape>, tree: seq<Node>)
    requires row != [] && Rep(h, tree, row)
    requires forall n | n in NodesOf(h, row) :: n in tree
    ensures
      var (root, tree') := GenerateAllRows(h, NodesOf(h, row), tree);
      var s := ShapeAllRows(row);
      root == Id(h, s) && Rep(h, tree', [s]) && (forall n | n in tree :: n in tree')
    ensures Depth(ShapeAllRows(row)) + |tree| <= |GenerateAllRows(h, NodesOf(h, row), tree).1| + MaxDepth(row)
    decreases |row|
  {
    if |row| == 1 {
      assert row == [row[0]];
    } else {
      var newRow := ShapeRow(row, 0);
      GenerateRowIsShapeRow(h, row, 0);
      RowAddsNodes(h, row, 0);
      RootsAreNodesOf(h, newRow);
      RowDepth(row, 0);
      AllRowsAreShape(h, newRow, NodesOf(h, newRow) + tree);
    }
  }

  function MaxDepth(row: seq<Shape>): nat {
    if row == [] then 0
    else
      var d := MaxDepth(row[1..]);
      if d < Depth(row[0]) then Depth(row[0]) else d
  }

  lemma {:induction false} RowDepth(row: seq<Shape>, shift: nat)
    ensures MaxDepth(ShapeRow(row, shift)) <= MaxDepth(row) + 1
    decreases |row|
  {
    if |row| >= 2 {
      var n := Pair(row[0], row[1], shift);
      RowDepth(row[2..], n.max);
      assert row[1..][1..] == row[2..];
      assert ([n] + ShapeRow(row[2..], n.max))[1..] == ShapeRow(row[2..], n.max);
    }
  }

  //////////////////////////////////////////////////////////////////////////////
  // The whole builder
  //////////////////////////////////////////////////////////////////////////////

  lemma {:induction false} AllRowsKeep(h: HashFn, row: seq<Node>, tree: seq<Node>)
    requires row != [] && forall n | n in row :: n in tree
    ensures forall n | n in tree :: n in GenerateAllRows(h, row, tree).1
    decreases |row|
  {
    if |row| > 1 {
      var newRow := GenerateRow(h, row, 0);
      AllRowsKeep(h, newRow, newRow + tree);
    }
  }

  /** Nodes once in the list stay in it. */
  lemma {:induction false} GenerateFromKeeps(h: HashFn, elements: seq<Element>, stack: seq<Node>, tree: seq<Node>)
    requires NoEmptyNested(elements) && (elements != [] || stack != [])
    requires forall n | n in stack :: n in tree
    ensures forall n | n in tree :: n in GenerateFrom(h, elements, stack, tree).1
  {
    if elements == [] {
      AllRowsKeep(h, stack, tree);
    } else {
      match elements[0]
      case Chunk(data, note) =>
        var leaf := GenerateLeaf(h, data, note);
        GenerateFromKeeps(h, elements[1..], stack + [leaf], [leaf] + tree);
      case Sub(inner) =>
        assert elements[0] in elements;
        var (subRoot, subTree) := GenerateTree(h, inner);
        var subTree' := MarkRebased(subTree, subRoot);
        MarkedHasRoot(h, subTree, subRoot);
        var subRootNode := Get(subRoot, subTree').value;
        GenerateFromKeeps(h, elements[1..], stack + [subRootNode], tree + subTree');
    }
  }

  lemma MarkedHasRoot(h: HashFn, tree: seq<Node>, rootId: Bytes)
    requires exists n :: n in tree && n.id == rootId
    ensures Get(rootId, MarkRebased(tree, rootId)).Some?
    ensures Get(rootId, MarkRebased(tree, rootId)).value in MarkRebased(tree, rootId)
  {
    var n :| n in tree && n.id == rootId;
    var i :| 0 <= i < |tree| && tree[i] == n;
    GetFinds(MarkRebased(tree, rootId)[i], MarkRebased(tree, rootId));
  }

  lemma MarkedHashed(h: HashFn, tree: seq<Node>, rootId: Bytes, larger: seq<Node>)
    requires forall n | n in MarkRebased(tree, rootId) :: n in larger
    ensures Hashed(h, tree) <= Hashed(h, larger)
  {
    var marked := MarkRebased(tree, rootId);
    forall b | b in Hashed(h, tree) ensures b in Hashed(h, larger) {
      var n :| n in tree && b in NodePreimages(h, n);
      var i :| 0 <= i < |tree| && tree[i] == n;
      assert marked[i] in marked && NodePreimages(h, marked[i]) == NodePreimages(h, n);
    }
  }

  lemma MarkedNode(h: HashFn, tree: seq<Node>, s: Shape, n: Node)
    requires Rep(h, tree, [s]) && NoCollision(h, Preimages(h, s))
    ensures n in MarkRebased(tree, Id(h, s)) <==> n in Nodes(h, Mark(s))
  {
    var marked := MarkRebased(tree, Id(h, s));
    assert ForestNodes(h, [s]) == Nodes(h, s);
    if n in marked {
      var i :| 0 <= i < |marked| && marked[i] == n;
      assert tree[i] in tree;
      if tree[i].id == Id(h, s) {
        RootIdIsUnique(h, s, tree[i]);
      }
    }
    if n in Nodes(h, Mark(s)) {
      if n == NodeOf(h, Mark(s)) {
        assert NodeOf(h, s) in tree;
        var i :| 0 <= i < |tree| && tree[i] == NodeOf(h, s);
        assert marked[i] == n;
      } else {
        BelowRoot(h, s, n);
        assert n in tree;
        var i :| 0 <= i < |tree| && tree[i] == n;
        assert marked[i] == n;
      }
    }
  }

  /** Without a collision no node below the root has the root's ID. */
  lemma BelowRoot(h: HashFn, s: Shape, n: Node)
    requires s.Branch? && n in Nodes(h, s.left) + Nodes(h, s.right)
    requires NoCollision(h, Preimages(h, s))
    ensures n in Nodes(h, s) && n.id != Id(h, s)
  {
    var side := if n in Nodes(h, s.left) then s.left else s.right;
    var t := NodeHasShape(h, side, n);
    if n.id == Id(h, s) {
      EqualIdEqualSize(h, t, s, Preimages(h, s));
    }
  }

  lemma MarkedRep(h: HashFn, tree: seq<Node>, s: Shape)
    requires Rep(h, tree, [s]) && NoCollision(h, Preimages(h, s))
    ensures Rep(h, MarkRebased(tree, Id(h, s)), [Mark(s)])
    ensures Get(Id(h, s), MarkRebased(tree, Id(h, s))) == Some(NodeOf(h, Mark(s)))
  {
    var marked := MarkRebased(tree, Id(h, s));
    assert ForestNodes(h, [Mark(s)]) == Nodes(h, Mark(s));
    forall n ensures n in marked <==> n in ForestNodes(h, [Mark(s)]) {
      MarkedNode(h, tree, s, n);
    }
    assert Id(h, Mark(s)) == Id(h, s);
    GetFinds(NodeOf(h, Mark(s)), marked);
    var found := Get(Id(h, s), marked).value;
    RootIdIsUnique(h, Mark(s), found);
  }

  lemma {:induction false} MaxDepthAppend(a: seq<Shape>, b: seq<Shape>)
    ensures MaxDepth(a + b) == if MaxDepth(a) < MaxDepth(b) then MaxDepth(b) else MaxDepth(a)
  {
    if a == [] {
      assert a + b == b;
    } else {
      assert (a + b)[1..] == a[1..] + b;
      MaxDepthAppend(a[1..], b);
    }
  }

  /** The shapes built so far, with their nodes in the list. */
  ghost predicate Built(h: HashFn, tree: seq<Node>, done: seq<Shape>) {
    && Rep(h, tree, done)
    && (forall n | n in NodesOf(h, done) :: n in tree)
    && MaxDepth(done) <= |tree|
  }

  lemma BuiltMore(h: HashFn, tree: seq<Node>, done: seq<Shape>, s: Shape, added: seq<Node>, all: seq<Node>)
    requires Built(h, tree, done) && Rep(h, added, [s]) && Depth(s) <= |added|
    requires all == tree + added || all == added + tree
    ensures Built(h, all, done + [s])
    ensures NodesOf(h, done + [s]) == NodesOf(h, done) + [NodeOf(h, s)]
  {
    ForestNodesAppend(h, done, [s]);
    MaxDepthAppend(done, [s]);
    assert NodesOf(h, done + [s]) == NodesOf(h, done) + [NodeOf(h, s)];
    assert NodeOf(h, s) in ForestNodes(h, [s]);
  }

  /** The list and root of the builder are those of shape `s`. */
  ghost predicate IsTreeOf(h: HashFn, result: (Bytes, seq<Node>), s: Shape) {
    result.0 == Id(h, s) && Rep(h, result.1, [s]) && Depth(s) <= |result.1|
  }

  lemma {:induction false} GenerateFromIsShape(h: HashFn, elements: seq<Element>, done: seq<Shape>, tree: seq<Node>)
    requires NoEmptyNested(elements) && (elements != [] || done != [])
    requires Built(h, tree, done)
    requires NoCollision(h, Hashed(h, GenerateFrom(h, elements, NodesOf(h, done), tree).1))
    ensures done + Forest(elements) != []
    ensures IsTreeOf(h, GenerateFrom(h, elements, NodesOf(h, done), tree), ShapeAllRows(done + Forest(elements)))
    decreases elements, 0
  {
    if elements == [] {
      assert done + Forest(elements) == done;
      AllRowsAreShape(h, done, tree);
    } else {
      var e := elements[0];
      assert e in elements;
      var s := ShapeOfElement(e);
      assert done + Forest(elements) == done + [s] + Forest(elements[1..]);
      match e
      case Chunk(data, note) =>
        var leaf := GenerateLeaf(h, data, note);
        BuiltMore(h, tree, done, s, [leaf], [leaf] + tree);
        GenerateFromIsShape(h, elements[1..], done + [s], [leaf] + tree);
      case Sub(inner) =>
        var (subRoot, subTree) := GenerateTree(h, inner);
        var subTree' := MarkRebased(subTree, subRoot);
        MarkedHasRoot(h, subTree, subRoot);
        var subRootNode := Get(subRoot, subTree').value;
        var final := GenerateFrom(h, elements, NodesOf(h, done), tree).1;
        GenerateFromKeeps(h, elements[1..], NodesOf(h, done) + [subRootNode], tree + subTree');
        assert forall n | n in subTree' :: n in tree + subTree';
        MarkedHashed(h, subTree, subRoot, final);
        SubtreeIsShape(h, inner, s);
        BuiltMore(h, tree, done, s, subTree', tree + subTree');
        GenerateFromIsShape(h, elements[1..], done + [s], tree + subTree');
    }
  }

  lemma {:induction false} SubtreeIsShape(h: HashFn, inner: seq<Element>, s: Shape)
    requires inner != [] && NoEmptyNested(inner) && s == Mark(ShapeOf(inner))
    requires NoCollision(h, Hashed(h, GenerateTree(h, inner).1))
    ensures
      var (subRoot, subTree) := GenerateTree(h, inner);
      var subTree' := MarkRebased(subTree, subRoot);
      Rep(h, subTree', [s]) && Depth(s) <= |subTree'| && Get(subRoot, subTree') == Some(NodeOf(h, s))
    decreases inner, 2
  {
    GenerateTreeIsShape(h, inner);
    var (subRoot, subTree) := GenerateTree(h, inner);
    var t := ShapeOf(inner);
    TreePreimages(h, subTree, t);
    MarkedRep(h, subTree, t);
  }

  lemma TreePreimages(h: HashFn, tree: seq<Node>, s: Shape)
    requires Rep(h, tree, [s])
    ensures Preimages(h, s) <= Hashed(h, tree)
  {
    assert ForestNodes(h, [s]) == Nodes(h, s);
    NodesPreimages(h, s, tree);
  }

  /** Unless two of the strings hashed for the returned nodes collide, the builder's node list
      is the shape that the element list describes. */
  lemma {:induction false} GenerateTreeIsShape(h: HashFn, elements: seq<Element>)
    requires elements != [] && NoEmptyNested(elements)
    requires NoCollision(h, Hashed(h, GenerateTree(h, elements).1))
    ensures IsTreeOf(h, GenerateTree(h, elements), ShapeOf(elements))
    decreases elements, 1
  {
    assert NodesOf(h, []) == [];
    assert [] + Forest(elements) == Forest(elements);
    GenerateFromIsShape(h, elements, [], []);
  }
}
