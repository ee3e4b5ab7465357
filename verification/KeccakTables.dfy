/** The tables of the permutation, and what FIPS 202 computes in their place
    (native/hb_keccak/hb_keccak.c:17-35). */
module KeccakTables {
  import opened Fips202

  const RHO: seq<nat> := [
    1, 3, 6, 10, 15, 21,
    28, 36, 45, 55, 2, 14,
    27, 41, 56, 8, 25, 43,
    62, 18, 39, 61, 20, 44
  ]

  const PI: seq<nat> := [
    10, 7, 11, 17, 18, 3,
    5, 16, 8, 21, 24, 4,
    15, 23, 19, 13, 12, 2,
    20, 14, 22, 9, 6, 1
  ]

  const RC: seq<nat> := [
    0x1, 0x8082, 0x800000000000808a, 0x8000000080008000,
    0x808b, 0x80000001, 0x8000000080008081, 0x8000000000008009,
    0x8a, 0x88, 0x80008009, 0x8000000a,
    0x8000808b, 0x800000000000008b, 0x8000000000008089, 0x8000000000008003,
    0x8000000000008002, 0x8000000000000080, 0x800a, 0x800000008000000a,
    0x8000000080008081, 0x8000000000008080, 0x80000001, 0x8000000080008008
  ]

  /** The step that writes a lane; 24 for lane 0, which no step writes. */
  const VISIT: seq<nat> := [
    24, 23, 17, 5, 11, 6, 22, 1, 8, 21, 0, 2, 16, 15, 19, 12, 7, 3, 4, 14, 18, 9, 20, 13, 10
  ]

  //////////////////////////////////////////////////////////////////////////////
  // The walk of rho and pi
  //////////////////////////////////////////////////////////////////////////////

  /** The lane a step of the walk reads: the one written by the step before. */
  function Source(k: nat): nat
    requires k < 24
  {
    if k == 0 then 1 else PI[k - 1]
  }

  /** Each lane but the first is written exactly once. */
  lemma StepWrites(k: nat)
    requires k < 24
    ensures 0 < PI[k] < 25 && VISIT[PI[k]] == k
  {
  }

  lemma WrittenAt(lane: nat)
    requires lane < 25
    ensures if lane == 0 then VISIT[lane] == 24 else VISIT[lane] < 24 && PI[VISIT[lane]] == lane
  {
  }

  /** Lanes are visited in the order of section 3.2.2, and section 3.2.3 moves each to the next. */
  function Next(lane: nat): nat {
    lane / 5 + 5 * ((2 * (lane % 5) + 3 * (lane / 5)) % 5)
  }

  lemma PiIsNext(k: nat)
    requires k < 24
    ensures PI[k] == Next(Source(k))
  {
    if k < 12 {
      PiIsNextLow(k);
    } else {
      PiIsNextHigh(k);
    }
  }

  lemma PiIsNextLow(k: nat)
    requires k < 12
    ensures PI[k] == Next(Source(k))
  {
  }

  lemma PiIsNextHigh(k: nat)
    requires 12 <= k < 24
    ensures PI[k] == Next(Source(k))
  {
  }

  lemma WalkIsNext(k: nat)
    ensures Walk(k + 1).0 + 5 * Walk(k + 1).1 == Next(Walk(k).0 + 5 * Walk(k).1)
  {
    var (x, y) := Walk(k);
    assert (x + 5 * y) / 5 == y && (x + 5 * y) % 5 == x;
  }

  lemma {:induction false} WalkFollows(pi: seq<nat>, k: nat)
    requires |pi| == 24 && pi[0] == Next(1) && forall j | 1 <= j < 24 :: pi[j] == Next(pi[j - 1])
    requires k < 24
    ensures Walk(k).0 + 5 * Walk(k).1 == if k == 0 then 1 else pi[k - 1]
  {
    if k > 0 {
      WalkFollows(pi, k - 1);
      WalkIsNext(k - 1);
    }
  }

  lemma WalkIsSource(k: nat)
    requires k < 24
    ensures Walk(k).0 + 5 * Walk(k).1 == Source(k)
  {
    var pi := PI;
    forall j | 0 <= j < 24 ensures pi[j] == Next(if j == 0 then 1 else pi[j - 1]) {
      PiIsNext(j);
    }
    WalkFollows(pi, k);
  }

  lemma RhoGrows(k: nat)
    requires k < 23
    ensures RHO[k + 1] == (RHO[k] + k + 2) % 64
  {
  }

  lemma RotationGrows(k: nat)
    ensures Rotation(k + 1) == Rotation(k) + k + 2
  {
    assert (k + 2) * (k + 3) == (k + 1) * (k + 2) + 2 * (k + 2);
  }

  lemma AddBefore(n: nat, m: nat)
    ensures (n % 64 + m) % 64 == (n + m) % 64
  {
  }

  lemma {:induction false} RhoFollows(rho: seq<nat>, rotation: nat -> nat, k: nat)
    requires |rho| == 24 && rho[0] == rotation(0) % 64
    requires forall j: nat | j < 23 :: rho[j + 1] == (rho[j] + j + 2) % 64 && rotation(j + 1) == rotation(j) + j + 2
    requires k < 24
    ensures rho[k] == rotation(k) % 64
  {
    if k > 0 {
      RhoFollows(rho, rotation, k - 1);
      var j := k - 1;
      assert rho[j + 1] == (rho[j] + j + 2) % 64 && rotation(j + 1) == rotation(j) + j + 2;
      AddBefore(rotation(j), j + 2);
    }
  }

  lemma RhoIsRotation(k: nat)
    requires k < 24
    ensures RHO[k] == Rotation(k) % 64
  {
    var rho := RHO;
    forall j: nat | j < 23 ensures rho[j + 1] == (rho[j] + j + 2) % 64 && Rotation(j + 1) == Rotation(j) + j + 2 {
      RhoGrows(j);
      RotationGrows(j);
    }
    RhoFollows(rho, Rotation, k);
  }

  //////////////////////////////////////////////////////////////////////////////
  // Round constants
  //////////////////////////////////////////////////////////////////////////////

  /** The shift register at the start of each round. */
  const REGISTERS: seq<Register> := [
    0x01, 0x80, 0xd8, 0x1a, 0xdf, 0x09, 0x35, 0x4f,
    0xca, 0x70, 0x41, 0xec, 0xd5, 0xcd, 0x63, 0xab,
    0xaa, 0x2a, 0xf2, 0xe8, 0x37, 0x3e, 0x0b, 0x44
  ]

  function Seven(r: Register): Register {
    Shift(Shift(Shift(Shift(Shift(Shift(Shift(r)))))))
  }

  lemma {:induction false} RegisterAt(round: nat)
    requires round < 24
    ensures Lfsr(7 * round) == REGISTERS[round]
  {
    if round > 0 {
      RegisterAt(round - 1);
      LfsrSeven(7 * (round - 1));
      RegisterStep(round - 1);
    }
  }

  lemma LfsrSeven(t: nat)
    ensures Lfsr(t + 7) == Seven(Lfsr(t))
  {
    LfsrThree(t);
    LfsrThree(t + 3);
  }

  lemma LfsrThree(t: nat)
    ensures Lfsr(t + 3) == Shift(Shift(Shift(Lfsr(t))))
  {
    assert Lfsr(t + 2) == Shift(Lfsr(t + 1));
  }

  lemma RegisterStep(round: nat)
    requires round < 23
    ensures REGISTERS[round + 1] == Seven(REGISTERS[round])
  {
    if round < 12 {
      RegisterStepLow(round);
    } else {
      RegisterStepHigh(round);
    }
  }

  lemma RegisterStepLow(round: nat)
    requires round < 12
    ensures REGISTERS[round + 1] == Seven(REGISTERS[round])
  {
  }

  lemma RegisterStepHigh(round: nat)
    requires 12 <= round < 23
    ensures REGISTERS[round + 1] == Seven(REGISTERS[round])
  {
  }

  function BitOf(r: Register): nat { if r & 1 == 1 then 1 else 0 }

  /** Seven bits of output, spread over the bits 0, 1, 3, 7, 15, 31 and 63 of a number. */
  function Spread(b0: nat, b1: nat, b2: nat, b3: nat, b4: nat, b5: nat, b6: nat): nat {
    b0 + 2 * (b1 + 4 * (b2 + 16 * (b3 + 256 * (b4 + 0x10000 * (b5 + 0x1_0000_0000 * b6)))))
  }

  function Constant(r0: Register): nat {
    var r1 := Shift(r0);
    var r2 := Shift(r1);
    var r3 := Shift(r2);
    var r4 := Shift(r3);
    var r5 := Shift(r4);
    Spread(BitOf(r0), BitOf(r1), BitOf(r2), BitOf(r3), BitOf(r4), BitOf(r5), BitOf(Shift(r5)))
  }

  lemma ConstantOf(round: nat)
    requires round < 24
    ensures RC[round] == Constant(REGISTERS[round])
  {
    if round < 8 {
      ConstantLow(round);
    } else if round < 16 {
      ConstantMiddle(round);
    } else {
      ConstantHigh(round);
    }
  }

  lemma ConstantLow(round: nat)
    requires round < 8
    ensures RC[round] == Constant(REGISTERS[round])
  {
  }

  lemma ConstantMiddle(round: nat)
    requires 8 <= round < 16
    ensures RC[round] == Constant(REGISTERS[round])
  {
  }

  lemma ConstantHigh(round: nat)
    requires 16 <= round < 24
    ensures RC[round] == Constant(REGISTERS[round])
  {
  }

  /** A machine word, least significant bit first. */
  function WordBits(n: nat, width: nat): (b: Bits)
    ensures |b| == width
    decreases width, n
  {
    if width == 0 then [] else [n % 2 == 1] + WordBits(n / 2, width - 1)
  }

  function Up(n: nat, k: nat): nat {
    if k == 0 then n else 2 * Up(n, k - 1)
  }

  lemma {:induction false} UpShifts(n: nat, k: nat, width: nat)
    requires k <= width
    ensures WordBits(Up(n, k), width) == ZeroBits(k) + WordBits(n, width - k)
  {
    if k > 0 {
      UpShifts(n, k - 1, width - 1);
      assert ZeroBits(k) == [false] + ZeroBits(k - 1);
      assert Up(n, k) % 2 == 0 && Up(n, k) / 2 == Up(n, k - 1);
    }
  }

  lemma {:induction false} UpTwice(n: nat, j: nat, k: nat)
    ensures Up(Up(n, j), k) == Up(n, j + k)
  {
    if k > 0 {
      UpTwice(n, j, k - 1);
    }
  }

  lemma UpFour(n: nat)
    ensures Up(n, 1) == 2 * n && Up(n, 3) == 8 * n && Up(n, 4) == 16 * n
  {
    assert Up(n, 2) == 2 * Up(n, 1);
    assert Up(n, 3) == 2 * Up(n, 2);
    assert Up(n, 4) == 2 * Up(n, 3);
  }

  lemma UpEight(n: nat)
    ensures Up(n, 7) == 0x80 * n && Up(n, 8) == 0x100 * n
  {
    UpFour(n);
    UpFour(Up(n, 4));
    UpTwice(n, 4, 3);
    UpTwice(n, 4, 4);
  }

  lemma UpValues(n: nat)
    ensures Up(n, 1) == 2 * n && Up(n, 3) == 8 * n && Up(n, 7) == 0x80 * n
    ensures Up(n, 15) == 0x8000 * n && Up(n, 31) == 0x8000_0000 * n
  {
    UpFour(n);
    UpEight(n);
    UpEight(Up(n, 8));
    UpTwice(n, 8, 7);
    UpTwice(n, 8, 8);
    var m := Up(n, 16);
    UpEight(m);
    UpEight(Up(m, 8));
    UpTwice(m, 8, 7);
    UpTwice(n, 16, 15);
  }

  /** The round constants of the table are those of section 3.2.5. */
  lemma ConstantBits(round: nat)
    requires round < 24
    ensures WordBits(RC[round], 64) == RoundConstant(round)
  {
    ConstantOf(round);
    RegisterAt(round);
    var r0 := REGISTERS[round];
    RoundBits(round, r0);
    SpreadBits(r0);
  }

  lemma RoundBits(round: nat, r: Register)
    requires round < 24 && r == Lfsr(7 * round)
    ensures RoundConstant(round) == Placed(r)
  {
    var t := 7 * round;
    RcIsLfsr(t);
    RcIsLfsr(t + 1);
    RcIsLfsr(t + 2);
    RcIsLfsr(t + 3);
    RcIsLfsr(t + 4);
    RcIsLfsr(t + 5);
    RcIsLfsr(t + 6);
  }

  lemma RcIsLfsr(t: nat)
    requires t < 255
    ensures Rc(t) == (Lfsr(t) & 1 == 1) && Lfsr(t + 1) == Shift(Lfsr(t))
  {
  }

  /** Seven successive bits of output at the bits of a lane that have a constant. */
  function Placed(r0: Register): Lane {
    var r1 := Shift(r0);
    var r2 := Shift(r1);
    var r3 := Shift(r2);
    var r4 := Shift(r3);
    var r5 := Shift(r4);
    Zero()[0 := r0 & 1 == 1][1 := r1 & 1 == 1][3 := r2 & 1 == 1][7 := r3 & 1 == 1][15 := r4 & 1 == 1]
          [31 := r5 & 1 == 1][63 := Shift(r5) & 1 == 1]
  }

  lemma SpreadBits(r0: Register)
    ensures WordBits(Constant(r0), 64) == Placed(r0)
  {
    var r1 := Shift(r0);
    var r2 := Shift(r1);
    var r3 := Shift(r2);
    var r4 := Shift(r3);
    var r5 := Shift(r4);
    SpreadIs(BitOf(r0), BitOf(r1), BitOf(r2), BitOf(r3), BitOf(r4), BitOf(r5), BitOf(Shift(r5)));
  }

  function Join(b: nat, n: nat, gap: nat): nat {
    b + 2 * Up(n, gap)
  }

  function After(b: bool, gap: nat, rest: Bits): (row: Bits)
    ensures |row| == 1 + gap + |rest|
  {
    [b] + ZeroBits(gap) + rest
  }

  lemma AfterAt(b: bool, gap: nat, rest: Bits)
    ensures
      var row := After(b, gap, rest);
      forall z | 0 <= z < |row| :: row[z] == if z == 0 then b else if z <= gap then false else rest[z - gap - 1]
  {
  }

  lemma JoinBits(b: nat, n: nat, gap: nat, width: nat)
    requires b <= 1 && gap < width
    ensures WordBits(Join(b, n, gap), width) == After(b == 1, gap, WordBits(n, width - 1 - gap))
  {
    UpShifts(n, gap, width - 1);
    var m := Up(n, gap);
    assert Join(b, n, gap) == b + 2 * m;
    if b == 1 {
      assert (1 + 2 * m) % 2 == 1 && (1 + 2 * m) / 2 == m;
    } else {
      assert (2 * m) % 2 == 0 && (2 * m) / 2 == m;
    }
  }

  lemma SpreadIs(b0: nat, b1: nat, b2: nat, b3: nat, b4: nat, b5: nat, b6: nat)
    requires b0 <= 1 && b1 <= 1 && b2 <= 1 && b3 <= 1 && b4 <= 1 && b5 <= 1 && b6 <= 1
    ensures
      WordBits(Spread(b0, b1, b2, b3, b4, b5, b6), 64)
      == Zero()[0 := b0 == 1][1 := b1 == 1][3 := b2 == 1][7 := b3 == 1][15 := b4 == 1][31 := b5 == 1][63 := b6 == 1]
  {
    SpreadRow(b0, b1, b2, b3, b4, b5, b6);
    RowIs(b0 == 1, b1 == 1, b2 == 1, b3 == 1, b4 == 1, b5 == 1, b6 == 1);
  }

  lemma SpreadRow(b0: nat, b1: nat, b2: nat, b3: nat, b4: nat, b5: nat, b6: nat)
    requires b0 <= 1 && b1 <= 1 && b2 <= 1 && b3 <= 1 && b4 <= 1 && b5 <= 1 && b6 <= 1
    ensures
      WordBits(Spread(b0, b1, b2, b3, b4, b5, b6), 64)
      == Row(b0 == 1, b1 == 1, b2 == 1, b3 == 1, b4 == 1, b5 == 1, b6 == 1)
  {
    SpreadJoins(b0, b1, b2, b3, b4, b5, b6);
    HighBits(b3, b4, b5, b6);
    LowBits(b0, b1, b2, Join(b3, Join(b4, Join(b5, b6, 31), 15), 7));
  }

  lemma HighBits(b3: nat, b4: nat, b5: nat, b6: nat)
    requires b3 <= 1 && b4 <= 1 && b5 <= 1 && b6 <= 1
    ensures
      WordBits(Join(b3, Join(b4, Join(b5, b6, 31), 15), 7), 57)
      == After(b3 == 1, 7, After(b4 == 1, 15, After(b5 == 1, 31, [b6 == 1])))
  {
    var n5 := Join(b5, b6, 31);
    JoinBits(b3, Join(b4, n5, 15), 7, 57);
    JoinBits(b4, n5, 15, 49);
    JoinBits(b5, b6, 31, 33);
    OneBit(b6);
  }

  lemma LowBits(b0: nat, b1: nat, b2: nat, n3: nat)
    requires b0 <= 1 && b1 <= 1 && b2 <= 1
    ensures
      WordBits(Join(b0, Join(b1, Join(b2, n3, 3), 1), 0), 64)
      == After(b0 == 1, 0, After(b1 == 1, 1, After(b2 == 1, 3, WordBits(n3, 57))))
  {
    var n2 := Join(b2, n3, 3);
    JoinBits(b0, Join(b1, n2, 1), 0, 64);
    MiddleBits(b1, b2, n3);
  }

  lemma MiddleBits(b1: nat, b2: nat, n3: nat)
    requires b1 <= 1 && b2 <= 1
    ensures
      WordBits(Join(b1, Join(b2, n3, 3), 1), 63) == After(b1 == 1, 1, After(b2 == 1, 3, WordBits(n3, 57)))
  {
    JoinBits(b1, Join(b2, n3, 3), 1, 63);
    JoinBits(b2, n3, 3, 61);
  }

  function Row(b0: bool, b1: bool, b2: bool, b3: bool, b4: bool, b5: bool, b6: bool): Bits {
    After(b0, 0, After(b1, 1, After(b2, 3, After(b3, 7, After(b4, 15, After(b5, 31, [b6]))))))
  }

  lemma OneBit(b: nat)
    requires b <= 1
    ensures WordBits(b, 1) == [b == 1]
  {
  }

  lemma RowIs(b0: bool, b1: bool, b2: bool, b3: bool, b4: bool, b5: bool, b6: bool)
    ensures
      Row(b0, b1, b2, b3, b4, b5, b6)
      == Zero()[0 := b0][1 := b1][3 := b2][7 := b3][15 := b4][31 := b5][63 := b6]
  {
    var r5 := After(b5, 31, [b6]);
    var r4 := After(b4, 15, r5);
    var r3 := After(b3, 7, r4);
    var r2 := After(b2, 3, r3);
    var r1 := After(b1, 1, r2);
    AfterAt(b5, 31, [b6]);
    AfterAt(b4, 15, r5);
    AfterAt(b3, 7, r4);
    AfterAt(b2, 3, r3);
    AfterAt(b1, 1, r2);
    AfterAt(b0, 0, r1);
  }

  lemma SpreadJoins(b0: nat, b1: nat, b2: nat, b3: nat, b4: nat, b5: nat, b6: nat)
    ensures
      Spread(b0, b1, b2, b3, b4, b5, b6)
      == Join(b0, Join(b1, Join(b2, Join(b3, Join(b4, Join(b5, b6, 31), 15), 7), 3), 1), 0)
  {
    var n5 := Join(b5, b6, 31);
    var n4 := Join(b4, n5, 15);
    var n3 := Join(b3, n4, 7);
    var n2 := Join(b2, n3, 3);
    UpValues(b6);
    UpValues(n5);
    UpValues(n4);
    UpValues(n3);
    UpValues(n2);
  }
}
