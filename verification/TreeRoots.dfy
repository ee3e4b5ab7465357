/** The root and the paths of an element list as a recursion on the list, and not by rows: the list is
    split at the largest power of two below its length (src/ar_merkle.erl:251-352). */
module TreeRoots {
  import opened Bytes
  import opened Options
  import opened Merkle
  import opened MerkleShapes
  import opened MerkleBuild
  import opened MerkleLayout
  import opened MerkleProofs
  import opened Remainders

  //////////////////////////////////////////////////////////////////////////////
  // Splitting rows
  //////////////////////////////////////////////////////////////////////////////

  predicate IsPowerOfTwo(n: nat) {
    n == 1 || (n > 1 && n % 2 == 0 && IsPowerOfTwo(n / 2))
  }

  /** The largest power of two below `n`. */
  function SplitPoint(n: nat): (k: nat)
    requires n >= 2
    ensures IsPowerOfTwo(k) && k < n <= 2 * k
  {
    if n == 2 then 1 else 2 * SplitPoint((n + 1) / 2)
  }

  function SplitTree(row: seq<Shape>, pos: nat): Shape
    requires row != []
    decreases |row|
  {
    if |row| == 1 then row[0]
    else
      var k := SplitPoint(|row|);
      Pair(SplitTree(row[..k], pos), SplitTree(row[k..], RowEnd(row[..k], pos)), pos)
  }

  lemma SplitTreeOf(a: seq<Shape>, b: seq<Shape>, pos: nat)
    requires b != [] && |a + b| >= 2 && |a| == SplitPoint(|a + b|)
    ensures SplitTree(a + b, pos) == Pair(SplitTree(a, pos), SplitTree(b, RowEnd(a, pos)), pos)
  {
    assert (a + b)[..|a|] == a && (a + b)[|a|..] == b;
  }

  lemma {:induction false} RowsApart(a: seq<Shape>, b: seq<Shape>, pos: nat)
    requires |a| % 2 == 0
    ensures ShapeRow(a + b, pos) == ShapeRow(a, pos) + ShapeRow(b, RowEnd(a, pos))
    ensures RowEnd(ShapeRow(a, pos), pos) == RowEnd(a, pos)
    decreases |a|
  {
    if a == [] {
      assert a + b == b;
    } else {
      var (n, rest) := (Pair(a[0], a[1], pos), a[2..]);
      RowsApart(rest, b, n.max);
      assert (a + b)[2..] == rest + b && a[1..][1..] == rest;
      assert RowEnd(a, pos) == RowEnd(rest, n.max);
      RowsJoin(n, ShapeRow(rest, n.max), ShapeRow(b, RowEnd(a, pos)));
      assert ([n] + ShapeRow(rest, n.max))[1..] == ShapeRow(rest, n.max);
    }
  }

  lemma RowsJoin(n: Shape, a: seq<Shape>, b: seq<Shape>)
    ensures [n] + (a + b) == ([n] + a) + b
  {
  }

  lemma PartsSplit(a: seq<Shape>, b: seq<Shape>, pos: nat)
    requires b != [] && |a + b| > 2 && |a| == SplitPoint(|a + b|)
    requires SplitTree(ShapeRow(a, pos), pos) == SplitTree(a, pos)
    requires SplitTree(ShapeRow(b, RowEnd(a, pos)), RowEnd(a, pos)) == SplitTree(b, RowEnd(a, pos))
    ensures SplitTree(ShapeRow(a + b, pos), pos) == SplitTree(a + b, pos)
  {
    var (a', b') := (ShapeRow(a, pos), ShapeRow(b, RowEnd(a, pos)));
    RowsApart(a, b, pos);
    SplitTreeOf(a, b, pos);
    assert |a' + b'| == (|a + b| + 1) / 2;
    SplitTreeOf(a', b', pos);
  }

  /** Pairing up a row changes nothing for the recursive split. */
  lemma {:induction false} RowSplitsAlike(row: seq<Shape>, pos: nat)
    requires |row| >= 2
    ensures SplitTree(ShapeRow(row, pos), pos) == SplitTree(row, pos)
    decreases |row|
  {
    if |row| == 2 {
      PairSplits(row, pos);
    } else {
      var k := SplitPoint(|row|);
      var (a, b) := (row[..k], row[k..]);
      assert a + b == row;
      RowSplitsAlike(a, pos);
      if |b| >= 2 {
        RowSplitsAlike(b, RowEnd(a, pos));
      }
      PartsSplit(a, b, pos);
    }
  }

  lemma PairSplits(row: seq<Shape>, pos: nat)
    requires |row| == 2
    ensures SplitTree(ShapeRow(row, pos), pos) == SplitTree(row, pos) == Pair(row[0], row[1], pos)
  {
    assert row[2..] == [] && row[..1] == [row[0]] && row[1..] == [row[1]];
  }

  lemma {:induction false} AllRowsSplit(row: seq<Shape>)
    requires row != []
    ensures ShapeAllRows(row) == SplitTree(row, 0)
    decreases |row|
  {
    if |row| > 1 {
      RowSplitsAlike(row, 0);
      AllRowsSplit(ShapeRow(row, 0));
    }
  }

  //////////////////////////////////////////////////////////////////////////////
  // The root of a list
  //////////////////////////////////////////////////////////////////////////////

  /** The root as a formula: a chunk hashes its data and its end, a nested list is a list of its own, and
      two parts hash their roots, left before right, and the end of the left one. */
  ghost function ListRoot(h: HashFn, elements: seq<Element>, pos: nat): Bytes
    requires elements != [] && NoEmptyNested(elements)
    decreases elements
  {
    if |elements| == 1 then
      match elements[0]
      case Chunk(data, end) => h(h(data) + h(BigEndian(end, 32)))
      case Sub(inner) => assert elements[0] in elements; ListRoot(h, inner, 0)
    else
      var k := SplitPoint(|elements|);
      var (left, right) := (elements[..k], elements[k..]);
      var mid := EndOf(left, pos);
      h(h(ListRoot(h, left, pos)) + h(ListRoot(h, right, mid)) + h(BigEndian(mid, 32)))
  }

  lemma {:induction false} ForestApart(a: seq<Element>, b: seq<Element>)
    requires NoEmptyNested(a) && NoEmptyNested(b) && NoEmptyNested(a + b)
    ensures Forest(a + b) == Forest(a) + Forest(b)
  {
    if a == [] {
      assert a + b == b;
    } else {
      assert a[0] in a && (a + b)[1..] == a[1..] + b;
      ForestApart(a[1..], b);
    }
  }

  lemma {:induction false} LaidApart(a: seq<Element>, b: seq<Element>, pos: nat)
    ensures EndOf(a + b, pos) == EndOf(b, EndOf(a, pos))
    ensures Laid(a + b, pos) <==> Laid(a, pos) && Laid(b, EndOf(a, pos))
    decreases |a|
  {
    if a == [] {
      assert a + b == b;
    } else {
      assert (a + b)[1..] == a[1..] + b;
      LaidApart(a[1..], b, ElementEnd(a[0], pos));
    }
  }

  lemma ForestEnd(elements: seq<Element>, pos: nat)
    requires NoEmptyNested(elements) && Laid(elements, pos)
    ensures RowEnd(Forest(elements), pos) == EndOf(elements, pos)
  {
    ForestLayout(elements, pos, 0);
  }

  function SplitEnd(row: seq<Shape>, pos: nat): nat
    requires row != []
  {
    EndAt(SplitTree(row, pos), pos)
  }

  lemma {:induction false} SplitTreeEnd(row: seq<Shape>, pos: nat)
    requires row != []
    ensures SplitEnd(row, pos) == RowEnd(row, pos)
    decreases |row|
  {
    if |row| == 1 {
      assert row[1..] == [];
    } else {
      var k := SplitPoint(|row|);
      var (a, b) := (row[..k], row[k..]);
      SplitTreeEnd(a, pos);
      SplitTreeEnd(b, RowEnd(a, pos));
      assert a + b == row;
      RowEndApart(a, b, pos);
      PairEnd(SplitTree(a, pos), SplitTree(b, RowEnd(a, pos)), pos);
    }
  }

  lemma PairEnd(l: Shape, r: Shape, pos: nat)
    ensures EndAt(Pair(l, r, pos), pos) == EndAt(r, EndAt(l, pos))
  {
  }

  lemma {:induction false} RowEndApart(a: seq<Shape>, b: seq<Shape>, pos: nat)
    ensures RowEnd(a + b, pos) == RowEnd(b, RowEnd(a, pos))
  {
    if a == [] {
      assert a + b == b;
    } else {
      assert (a + b)[1..] == a[1..] + b;
      RowEndApart(a[1..], b, EndAt(a[0], pos));
    }
  }

  lemma PairId(h: HashFn, l: Shape, r: Shape, pos: nat)
    ensures Id(h, Pair(l, r, pos)) == h(h(Id(h, l)) + h(Id(h, r)) + h(BigEndian(EndAt(l, pos), 32)))
  {
  }

  /** A list of several elements in its two parts. */
  lemma ListParts(elements: seq<Element>, pos: nat) returns (k: nat)
    requires |elements| > 1 && NoEmptyNested(elements) && Laid(elements, pos)
    ensures k == SplitPoint(|elements|) && NoEmptyNested(elements[..k]) && NoEmptyNested(elements[k..])
    ensures Laid(elements[..k], pos) && Laid(elements[k..], EndOf(elements[..k], pos))
    ensures Forest(elements) == Forest(elements[..k]) + Forest(elements[k..])
    ensures RowEnd(Forest(elements[..k]), pos) == EndOf(elements[..k], pos)
  {
    k := SplitPoint(|elements|);
    var (a, b) := (elements[..k], elements[k..]);
    assert a + b == elements;
    LaidApart(a, b, pos);
    ForestApart(a, b);
    ForestEnd(a, pos);
  }

  lemma {:induction false} SplitTreeRoot(h: HashFn, elements: seq<Element>, pos: nat)
    requires elements != [] && NoEmptyNested(elements) && Laid(elements, pos)
    ensures Id(h, SplitTree(Forest(elements), pos)) == ListRoot(h, elements, pos)
    decreases elements, 0
  {
    if |elements| == 1 {
      assert elements[0] in elements;
      if elements[0].Sub? {
        ShapeRoot(h, elements[0].elements);
      }
    } else {
      var k := ListParts(elements, pos);
      var (a, b) := (elements[..k], elements[k..]);
      SplitTreeRoot(h, a, pos);
      SplitTreeRoot(h, b, EndOf(a, pos));
      SplitTreeOf(Forest(a), Forest(b), pos);
      SplitTreeEnd(Forest(a), pos);
      PairId(h, SplitTree(Forest(a), pos), SplitTree(Forest(b), EndOf(a, pos)), pos);
    }
  }

  lemma {:induction false} ShapeRoot(h: HashFn, elements: seq<Element>)
    requires elements != [] && NoEmptyNested(elements) && Laid(elements, 0)
    ensures Id(h, ShapeOf(elements)) == ListRoot(h, elements, 0)
    decreases elements, 1
  {
    AllRowsSplit(Forest(elements));
    SplitTreeRoot(h, elements, 0);
  }

  /** The root that the builder returns is the formula, nested or not. */
  lemma RootIsFormula(h: HashFn, elements: seq<Element>)
    requires elements != [] && NoEmptyNested(elements) && Laid(elements, 0)
    requires NoCollision(h, Hashed(h, GenerateTree(h, elements).1))
    ensures GenerateTree(h, elements).0 == ListRoot(h, elements, 0)
  {
    GenerateTreeIsShape(h, elements);
    ShapeRoot(h, elements);
  }

  //////////////////////////////////////////////////////////////////////////////
  // The paths of a flat list
  //////////////////////////////////////////////////////////////////////////////

  /** The path as a formula: on the way down the roots of both parts and the end of the left one, and
      then the chunk ID and its end. */
  ghost function ListPath(h: HashFn, elements: seq<Element>, pos: nat, offset: int): Bytes
    requires elements != [] && Flat(elements) && NoEmptyNested(elements)
    decreases elements
  {
    if |elements| == 1 then elements[0].data + BigEndian(elements[0].note, 32)
    else
      var k := SplitPoint(|elements|);
      var (left, right) := (elements[..k], elements[k..]);
      var mid := EndOf(left, pos);
      ListRoot(h, left, pos) + ListRoot(h, right, mid) + BigEndian(mid, 32)
      + if offset < mid then ListPath(h, left, pos, offset) else ListPath(h, right, mid, offset)
  }

  lemma PairPath(h: HashFn, l: Shape, r: Shape, pos: nat, offset: int, prevNote: nat)
    requires !l.rebased && !r.rebased
    ensures
      PathOf(h, Pair(l, r, pos), offset, prevNote)
      == Id(h, l) + Id(h, r) + BigEndian(MaxOf(l), 32) + PathOf(h, if offset < MaxOf(l) then l else r, offset, MaxOf(l))
  {
    assert [] + Id(h, l) == Id(h, l);
  }

  lemma {:induction false} SplitTreePlain(row: seq<Shape>, pos: nat)
    requires row != [] && RowNoRebase(row)
    ensures !SplitTree(row, pos).rebased
  {
  }

  lemma {:induction false} SplitTreePath(h: HashFn, elements: seq<Element>, pos: nat, offset: int, prevNote: nat)
    requires elements != [] && Flat(elements) && NoEmptyNested(elements) && Laid(elements, pos)
    ensures PathOf(h, SplitTree(Forest(elements), pos), offset, prevNote) == ListPath(h, elements, pos, offset)
    decreases |elements|
  {
    if |elements| == 1 {
    } else {
      var k := ListParts(elements, pos);
      var (a, b) := (elements[..k], elements[k..]);
      var mid := EndOf(a, pos);
      var (l, r) := (SplitTree(Forest(a), pos), SplitTree(Forest(b), mid));
      FlatForest(a);
      FlatForest(b);
      SplitTreePath(h, a, pos, offset, mid);
      SplitTreePath(h, b, mid, offset, mid);
      SplitTreeRoot(h, a, pos);
      SplitTreeRoot(h, b, mid);
      SplitTreeOf(Forest(a), Forest(b), pos);
      SplitTreeEnd(Forest(a), pos);
      SplitTreePlain(Forest(a), pos);
      SplitTreePlain(Forest(b), mid);
      PairPath(h, l, r, pos, offset, prevNote);
    }
  }

  /** The generated path of every offset is the formula. */
  lemma PathIsFormula(h: HashFn, elements: seq<Element>, offset: int)
    requires Provable(h, elements) && Flat(elements)
    ensures
      var (root, tree) := GenerateTree(h, elements);
      GeneratePath(root, offset, tree) == Some(ListPath(h, elements, 0, offset))
  {
    ProvableTree(h, elements, offset);
    AllRowsSplit(Forest(elements));
    SplitTreePath(h, elements, 0, offset, 0);
  }

  /** The root of two chunks, written out. */
  lemma RootOfTwo(h: HashFn, d1: Bytes, n1: nat, d2: Bytes, n2: nat)
    ensures
      var (left, right) := (h(h(d1) + h(BigEndian(n1, 32))), h(h(d2) + h(BigEndian(n2, 32))));
      GenerateTree(h, [Chunk(d1, n1), Chunk(d2, n2)]).0 == h(h(left) + h(right) + h(BigEndian(n1, 32)))
  {
    var (l, r, second) := (GenerateLeaf(h, d1, n1), GenerateLeaf(h, d2, n2), [Chunk(d2, n2)]);
    var n := GenerateNode(h, l, r, 0).0;
    assert [Chunk(d1, n1), Chunk(d2, n2)][1..] == second && second[1..] == [];
    assert [] + [l] == [l] && [l] + [] == [l] && [l] + [r] == [l, r] && [r] + [l] == [r, l];
    assert GenerateFrom(h, [Chunk(d1, n1), Chunk(d2, n2)], [], []) == GenerateFrom(h, second, [l], [l]);
    assert GenerateFrom(h, second, [l], [l]) == GenerateFrom(h, [], [l, r], [r, l]);
    assert [l, r][2..] == [] && GenerateRow(h, [l, r], 0) == [n];
    assert GenerateAllRows(h, [l, r], [r, l]) == GenerateAllRows(h, [n], [n] + [r, l]);
  }

  /** Byte `i` of a note. */
  lemma {:induction false} NoteDigit(n: nat, width: nat, i: nat)
    requires i < width
    ensures BigEndian(n, width)[i] as nat == n / Limit(width - 1 - i) % 256
    decreases width
  {
    if i < width - 1 {
      NoteDigit(n / 256, width - 1, i);
      DivideTwice(n, Limit(width - 2 - i));
    }
  }

  lemma DivideTwice(n: nat, p: nat)
    requires p > 0
    ensures n / 256 / p == n / (256 * p)
  {
    var (m, r) := (n / 256, n % 256);
    var (q, r') := (m / p, m % p);
    DivideTwiceSum(n, p, q, r', r);
    DivModUnique(n, 256 * p, q, 256 * r' + r);
  }

  lemma DivideTwiceSum(n: nat, p: nat, q: nat, r': nat, r: nat)
    requires n == 256 * (q * p + r') + r
    ensures n == q * (256 * p) + (256 * r' + r)
  {
  }
}
