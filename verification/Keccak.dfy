/** The in-place permutation (native/hb_keccak/hb_keccak.c:15-81): a 64-bit word is its bits, least
    significant first, and the state is an array of 25 words. */
module Keccak {
  import opened Fips202
  import opened KeccakTables

  //////////////////////////////////////////////////////////////////////////////
  // Operations on words
  //////////////////////////////////////////////////////////////////////////////

  function Xors(a: Bits, b: Bits): (r: Bits)
    requires |a| == |b|
    ensures |r| == |a|
    decreases a
  {
    if a == [] then [] else [Xor(a[0], b[0])] + Xors(a[1..], b[1..])
  }

  function Ors(a: Bits, b: Bits): (r: Bits)
    requires |a| == |b|
    ensures |r| == |a|
    decreases a
  {
    if a == [] then [] else [a[0] || b[0]] + Ors(a[1..], b[1..])
  }

  function Ands(a: Bits, b: Bits): (r: Bits)
    requires |a| == |b|
    ensures |r| == |a|
    decreases a
  {
    if a == [] then [] else [a[0] && b[0]] + Ands(a[1..], b[1..])
  }

  function Nots(a: Bits): (r: Bits)
    ensures |r| == |a|
    decreases a
  {
    if a == [] then [] else [!a[0]] + Nots(a[1..])
  }

  function ShiftLeft(a: Lane, n: nat): Lane
    requires n <= 64
  {
    ZeroBits(n) + a[..64 - n]
  }

  function ShiftRight(a: Lane, n: nat): Lane
    requires n <= 64
  {
    a[n..] + ZeroBits(n)
  }

  function Rol(a: Lane, n: nat): Lane
    requires n <= 64
  {
    Ors(ShiftLeft(a, n), ShiftRight(a, 64 - n))
  }

  lemma {:induction false} XorsAt(a: Bits, b: Bits, z: nat)
    requires |a| == |b| && z < |a|
    ensures Xors(a, b)[z] == Xor(a[z], b[z])
    decreases a
  {
    if z > 0 {
      XorsAt(a[1..], b[1..], z - 1);
    }
  }

  lemma {:induction false} OrsAt(a: Bits, b: Bits, z: nat)
    requires |a| == |b| && z < |a|
    ensures Ors(a, b)[z] == (a[z] || b[z])
    decreases a
  {
    if z > 0 {
      OrsAt(a[1..], b[1..], z - 1);
    }
  }

  lemma {:induction false} AndsNotAt(a: Bits, b: Bits, z: nat)
    requires |a| == |b| && z < |a|
    ensures Ands(Nots(a), b)[z] == (!a[z] && b[z])
    decreases a
  {
    assert Nots(a)[1..] == Nots(a[1..]);
    if z > 0 {
      AndsNotAt(a[1..], b[1..], z - 1);
    }
  }

  lemma RolAt(a: Lane, n: nat, z: nat)
    requires n < 64 && z < 64
    ensures Rol(a, n)[z] == a[(z + 64 - n) % 64]
  {
    OrsAt(ShiftLeft(a, n), ShiftRight(a, 64 - n), z);
    assert (z + 64 - n) % 64 == if z >= n then z - n else z + 64 - n;
  }

  //////////////////////////////////////////////////////////////////////////////
  // What each step of the code leaves in the words
  //////////////////////////////////////////////////////////////////////////////

  /** Sum of the first `rows` words of a column. */
  function Parity(s: StateArray, x: nat, rows: nat): Lane
    requires x < 5 && rows <= 5
  {
    if rows == 0 then Zero() else Xors(Parity(s, x, rows - 1), s[x + 5 * (rows - 1)])
  }

  function Parities(s: StateArray): (b: seq<Lane>)
    ensures |b| == 5
  {
    seq(5, (x: nat) requires x < 5 => Parity(s, x, 5))
  }

  /** What theta adds to every word of a column. */
  function ColumnAdds(b: seq<Lane>, x: nat): Lane
    requires x < 5 && |b| == 5
  {
    Xors(b[(x + 4) % 5], Rol(b[(x + 1) % 5], 1))
  }

  function ThetaLane(s: StateArray, b: seq<Lane>, i: nat): Lane
    requires i < 25 && |b| == 5
  {
    Xors(s[i], ColumnAdds(b, i % 5))
  }

  /** The tables of the walk: where each step writes, by how much it rotates, and which step writes
      a lane. */
  datatype Tables = Tables(rho: seq<nat>, pi: seq<nat>, visit: seq<nat>) {
    predicate Ok() {
      && |rho| == 24 && |pi| == 24 && |visit| == 25
      && (forall k | 0 <= k < 24 :: rho[k] <= 64)
      && (forall k | 0 <= k < 24 :: 0 < pi[k] < 25 && visit[pi[k]] == k)
      && (forall lane | 1 <= lane < 25 :: visit[lane] < 24 && pi[visit[lane]] == lane)
    }

    function SourceOf(k: nat): nat
      requires k < 24 && Ok()
      ensures SourceOf(k) < 25
    {
      if k == 0 then 1 else pi[k - 1]
    }

    function Moved(s: StateArray, i: nat): Lane
      requires i < 25 && Ok()
    {
      if i == 0 then s[0] else Rol(s[SourceOf(visit[i])], rho[visit[i]])
    }
  }

  function TheTables(): (t: Tables)
    ensures t.Ok()
  {
    TablesOk();
    Tables(RHO, PI, VISIT)
  }

  lemma TablesOk()
    ensures Tables(RHO, PI, VISIT).Ok()
  {
    var t := Tables(RHO, PI, VISIT);
    forall k | 0 <= k < 24 ensures 0 < t.pi[k] < 25 && t.visit[t.pi[k]] == k && t.rho[k] <= 64 {
      StepWrites(k);
    }
    forall lane | 1 <= lane < 25 ensures t.visit[lane] < 24 && t.pi[t.visit[lane]] == lane {
      WrittenAt(lane);
    }
  }

  function ChiLane(s: StateArray, i: nat): Lane
    requires i < 25
  {
    var (x, y) := (i % 5, i - i % 5);
    Xors(s[i], Ands(Nots(s[y + (x + 1) % 5]), s[y + (x + 2) % 5]))
  }

  //////////////////////////////////////////////////////////////////////////////
  // The code
  //////////////////////////////////////////////////////////////////////////////

  /** The words of `target` have replaced those of `s` in the first columns, and in the words below
      `y` of column `x`. */
  ghost predicate Columns(now: seq<Lane>, target: StateArray, s: StateArray, x: nat, y: nat) {
    && |now| == 25
    && forall i | 0 <= i < 25 :: now[i] == if i % 5 < x || (i % 5 == x && i < y) then target[i] else s[i]
  }

  lemma ColumnsStep(now: seq<Lane>, target: StateArray, s: StateArray, x: nat, y: nat)
    requires Columns(now, target, s, x, y) && x < 5 && y < 25 && y % 5 == 0
    ensures now[y + x] == s[y + x]
    ensures Columns(now[y + x := target[y + x]], target, s, x, y + 5)
  {
    assert (y + x) % 5 == x;
  }

  lemma ColumnsNext(now: seq<Lane>, target: StateArray, s: StateArray, x: nat)
    requires Columns(now, target, s, x, 25)
    ensures Columns(now, target, s, x + 1, 0)
  {
  }

  predicate Cell(i: int) { 0 <= i < 25 }

  ghost predicate AddsToColumn(target: StateArray, s: StateArray, x: nat, word: Lane) {
    forall i {:trigger Cell(i)} | Cell(i) && i % 5 == x :: target[i] == Xors(s[i], word)
  }

  lemma ThetaColumn(s: StateArray, b: seq<Lane>, x: nat)
    requires |b| == 5 && x < 5
    ensures AddsToColumn(ThetaWords(s, b), s, x, ColumnAdds(b, x))
  {
  }

  /** The words `0 .. n` of `target` have replaced those of `s`. */
  ghost predicate Prefix(now: seq<Lane>, target: StateArray, s: StateArray, n: nat) {
    && |now| == 25
    && forall i | 0 <= i < 25 :: now[i] == if i < n then target[i] else s[i]
  }

  function ThetaWords(s: StateArray, b: seq<Lane>): StateArray
    requires |b| == 5
  {
    seq(25, (i: nat) requires i < 25 => ThetaLane(s, b, i))
  }

  function RhoPiWords(s: StateArray, t: Tables): StateArray
    requires t.Ok()
  {
    seq(25, (i: nat) requires i < 25 => t.Moved(s, i))
  }

  function ChiWords(s: StateArray): StateArray { seq(25, (i: nat) requires i < 25 => ChiLane(s, i)) }

  method ThetaInPlace(a: array<Lane>, b: array<Lane>)
    requires a.Length == 25 && b.Length == 5 && a != b
    modifies a, b
    ensures a[..] == ThetaWords(old(a[..]), Parities(old(a[..])))
  {
    ghost var s: StateArray := a[..];
    var x := 0;
    while x < 5
      invariant x <= 5
      invariant forall j | 0 <= j < x :: b[j] == Parity(s, j, 5)
      invariant a[..] == s
    {
      ghost var sums := ParitySums(s, x);
      SumColumn(a, b, x, s, sums);
      x := x + 1;
    }
    assert b[..] == Parities(s);
    AddParities(a, b);
  }

  /** `sums` holds the sums of the first 0 to 5 words of a column. */
  ghost predicate Sums(sums: seq<Lane>, s: StateArray, x: nat)
    requires x < 5
  {
    && |sums| == 6 && sums[0] == Zero()
    && forall y | 0 <= y < 25 && y % 5 == 0 :: sums[y / 5 + 1] == Xors(sums[y / 5], s[x + y])
  }

  method SumColumn(a: array<Lane>, b: array<Lane>, x: nat, ghost s: StateArray, ghost sums: seq<Lane>)
    requires a.Length == 25 && b.Length == 5 && a != b && x < 5 && a[..] == s
    requires Sums(sums, s, x)
    modifies b
    ensures b[x] == sums[5]
    ensures forall j | 0 <= j < 5 && j != x :: b[j] == old(b[j])
  {
    b[x] := Zero();
    var y := 0;
    ghost var rows := 0;
    while y < 25
      invariant rows <= 5 && y == 5 * rows
      invariant b[x] == sums[rows]
      invariant forall j | 0 <= j < 5 && j != x :: b[j] == old(b[j])
    {
      assert y % 5 == 0 && y / 5 == rows;
      assert a[x + y] == s[x + y];
      b[x] := Xors(b[x], a[x + y]);
      y, rows := y + 5, rows + 1;
    }
  }

  lemma ParitySums(s: StateArray, x: nat) returns (sums: seq<Lane>)
    requires x < 5
    ensures Sums(sums, s, x) && sums[5] == Parity(s, x, 5)
  {
    sums := seq(6, (r: nat) requires r < 6 => Parity(s, x, r));
    forall y | 0 <= y < 25 && y % 5 == 0 ensures sums[y / 5 + 1] == Xors(sums[y / 5], s[x + y]) {
      assert x + 5 * (y / 5) == x + y;
    }
  }

  method AddParities(a: array<Lane>, b: array<Lane>)
    requires a.Length == 25 && b.Length == 5 && a != b
    modifies a
    ensures a[..] == ThetaWords(old(a[..]), b[..])
  {
    ghost var (s: StateArray, target) := (a[..], ThetaWords(a[..], b[..]));
    var x := 0;
    while x < 5
      invariant x <= 5
      invariant Columns(a[..], target, s, x, 0)
    {
      ThetaColumn(s, b[..], x);
      AddParity(a, b, x, s, target);
      ColumnsNext(a[..], target, s, x);
      x := x + 1;
    }
  }

  method AddParity(a: array<Lane>, b: array<Lane>, x: nat, ghost s: StateArray, ghost target: StateArray)
    requires a.Length == 25 && b.Length == 5 && a != b && x < 5
    requires Columns(a[..], target, s, x, 0) && AddsToColumn(target, s, x, ColumnAdds(b[..], x))
    modifies a
    ensures Columns(a[..], target, s, x, 25)
  {
    var y := 0;
    while y < 25
      invariant y <= 25 && y % 5 == 0
      invariant Columns(a[..], target, s, x, y)
    {
      assert Cell(y + x);
      ghost var now := a[..];
      ColumnsStep(now, target, s, x, y);
      a[y + x] := Xors(a[y + x], Xors(b[(x + 4) % 5], Rol(b[(x + 1) % 5], 1)));
      assert a[y + x] == target[y + x];
      assert a[..] == now[y + x := target[y + x]];
      y := y + 5;
    }
  }

  //////////////////////////////////////////////////////////////////////////////
  // Rho and pi
  //////////////////////////////////////////////////////////////////////////////

  /** After `k` steps of the walk: the words visited so far have moved. */
  ghost predicate Walked(now: seq<Lane>, s: StateArray, t: Tables, k: nat)
    requires t.Ok()
  {
    && |now| == 25
    && forall i | 0 <= i < 25 :: now[i] == if t.visit[i] < k then t.Moved(s, i) else s[i]
  }

  /** One word is kept in `t`, so that each write goes to a word that has been read. */
  method RhoPiInPlace(a: array<Lane>, b: array<Lane>, tables: Tables)
    requires a.Length == 25 && b.Length == 5 && a != b && tables.Ok()
    modifies a, b
    ensures a[..] == RhoPiWords(old(a[..]), tables)
  {
    ghost var s: StateArray := a[..];
    var t := a[1];
    var x := 0;
    while x < 24
      invariant x <= 24
      invariant Walked(a[..], s, tables, x)
      invariant x < 24 ==> t == s[tables.SourceOf(x)]
    {
      ghost var now := a[..];
      WalkStep(now, s, tables, x);
      b[0] := a[tables.pi[x]];
      a[tables.pi[x]] := Rol(t, tables.rho[x]);
      assert a[..] == now[tables.pi[x] := Rol(s[tables.SourceOf(x)], tables.rho[x])];
      t := b[0];
      x := x + 1;
    }
    WalkEnds(a[..], s, tables);
  }

  lemma WalkStep(now: seq<Lane>, s: StateArray, t: Tables, k: nat)
    requires t.Ok() && k < 24 && Walked(now, s, t, k)
    ensures now[t.pi[k]] == s[t.pi[k]]
    ensures Walked(now[t.pi[k] := Rol(s[t.SourceOf(k)], t.rho[k])], s, t, k + 1)
  {
    forall i | 0 <= i < 25 && t.visit[i] == k && i > 0 ensures i == t.pi[k] {
    }
  }

  lemma WalkEnds(now: seq<Lane>, s: StateArray, t: Tables)
    requires t.Ok() && Walked(now, s, t, 24)
    ensures now == RhoPiWords(s, t)
  {
  }

  //////////////////////////////////////////////////////////////////////////////
  // Chi
  //////////////////////////////////////////////////////////////////////////////

  method ChiInPlace(a: array<Lane>, b: array<Lane>)
    requires a.Length == 25 && b.Length == 5 && a != b
    modifies a, b
    ensures a[..] == ChiWords(old(a[..]))
  {
    ghost var (s: StateArray, target) := (a[..], ChiWords(a[..]));
    var y := 0;
    while y < 25
      invariant y <= 25 && y % 5 == 0
      invariant Prefix(a[..], target, s, y)
    {
      LoadRow(a, b, y);
      ChiRow(s, b[..], y);
      StoreRow(a, b, y, s, target);
      y := y + 5;
    }
  }

  method LoadRow(a: array<Lane>, b: array<Lane>, y: nat)
    requires a.Length == 25 && b.Length == 5 && a != b && y + 5 <= 25
    modifies b
    ensures forall j | 0 <= j < 5 :: b[j] == a[y + j]
  {
    var x := 0;
    while x < 5
      invariant x <= 5
      invariant forall j | 0 <= j < x :: b[j] == a[y + j]
    {
      b[x] := a[y + x];
      x := x + 1;
    }
  }

  /** The new words of the row at `y`, from its old words `b`. */
  ghost predicate IsChiRow(target: StateArray, b: seq<Lane>, y: nat)
    requires |b| == 5 && y + 5 <= 25
  {
    forall i {:trigger Cell(i)} | Cell(i) && y <= i < y + 5 ::
      target[i] == Xors(b[i - y], Ands(Nots(b[(i - y + 1) % 5]), b[(i - y + 2) % 5]))
  }

  lemma ChiRow(s: StateArray, b: seq<Lane>, y: nat)
    requires |b| == 5 && y + 5 <= 25 && y % 5 == 0
    requires forall j | 0 <= j < 5 :: b[j] == s[y + j]
    ensures IsChiRow(ChiWords(s), b, y)
  {
    forall i | Cell(i) && y <= i < y + 5
      ensures ChiWords(s)[i] == Xors(b[i - y], Ands(Nots(b[(i - y + 1) % 5]), b[(i - y + 2) % 5]))
    {
      ChiRowAt(s, b, y, i);
    }
  }

  lemma ChiRowAt(s: StateArray, b: seq<Lane>, y: nat, i: nat)
    requires |b| == 5 && y + 5 <= 25 && y % 5 == 0 && y <= i < y + 5
    requires forall j | 0 <= j < 5 :: b[j] == s[y + j]
    ensures ChiWords(s)[i] == Xors(b[i - y], Ands(Nots(b[(i - y + 1) % 5]), b[(i - y + 2) % 5]))
  {
    assert i % 5 == i - y;
  }

  method StoreRow(a: array<Lane>, b: array<Lane>, y: nat, ghost s: StateArray, ghost target: StateArray)
    requires a.Length == 25 && b.Length == 5 && a != b && y + 5 <= 25
    requires Prefix(a[..], target, s, y) && IsChiRow(target, b[..], y)
    modifies a
    ensures Prefix(a[..], target, s, y + 5)
  {
    var x := 0;
    while x < 5
      invariant x <= 5
      invariant Prefix(a[..], target, s, y + x)
    {
      assert Cell(y + x);
      ghost var now := a[..];
      a[y + x] := Xors(b[x], Ands(Nots(b[(x + 1) % 5]), b[(x + 2) % 5]));
      assert a[..] == now[y + x := target[y + x]];
      x := x + 1;
    }
  }

  //////////////////////////////////////////////////////////////////////////////
  // The permutation
  //////////////////////////////////////////////////////////////////////////////

  function IotaWords(s: StateArray, constant: Lane): StateArray {
    s[0 := Xors(s[0], constant)]
  }

  function RoundWords(s: StateArray, t: Tables, constant: Lane): StateArray
    requires t.Ok()
  {
    IotaWords(ChiWords(RhoPiWords(ThetaWords(s, Parities(s)), t)), constant)
  }

  method RoundInPlace(a: array<Lane>, b: array<Lane>, tables: Tables, constant: Lane)
    requires a.Length == 25 && b.Length == 5 && a != b && tables.Ok()
    modifies a, b
    ensures a[..] == RoundWords(old(a[..]), tables, constant)
  {
    ThetaInPlace(a, b);
    RhoPiInPlace(a, b, tables);
    ChiInPlace(a, b);
    a[0] := Xors(a[0], constant);
  }
}
