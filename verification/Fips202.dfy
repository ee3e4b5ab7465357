/** The Keccak permutation and the sponge, as FIPS 202 defines them. */
module Fips202 {

  type Bits = seq<bool>

  type Lane = s: seq<bool> | |s| == 64 witness seq(64, _ => false)

  /** A state array: the lane at (x, y) has index x + 5y, and bit z of a lane has index z, so the
      state as a string of 1600 bits is the lanes one after another (section 3.1). */
  type StateArray = s: seq<Lane> | |s| == 25 witness seq(25, _ => seq(64, _ => false))

  function A(s: StateArray, x: nat, y: nat, z: nat): bool
    requires x < 5 && y < 5 && z < 64
  {
    s[x + 5 * y][z]
  }

  function Xor(a: bool, b: bool): bool { a != b }

  //////////////////////////////////////////////////////////////////////////////
  // Section 3.2: the step mappings
  //////////////////////////////////////////////////////////////////////////////

  /** Section 3.2.1, steps 1 and 2. */
  function C(s: StateArray, x: nat, z: nat): bool
    requires x < 5 && z < 64
  {
    Xor(Xor(Xor(Xor(A(s, x, 0, z), A(s, x, 1, z)), A(s, x, 2, z)), A(s, x, 3, z)), A(s, x, 4, z))
  }

  function D(s: StateArray, x: nat, z: nat): bool
    requires x < 5 && z < 64
  {
    Xor(C(s, (x + 4) % 5, z), C(s, (x + 1) % 5, (z + 63) % 64))
  }

  function ThetaBit(s: StateArray, x: nat, y: nat, z: nat): bool
    requires x < 5 && y < 5 && z < 64
  {
    Xor(A(s, x, y, z), D(s, x, z))
  }

  /** Section 3.2.2: the walk over the lanes, starting at (1, 0). */
  function Walk(t: nat): (p: (nat, nat))
    ensures p.0 < 5 && p.1 < 5
  {
    if t == 0 then (1, 0)
    else
      var (x, y) := Walk(t - 1);
      (y, (2 * x + 3 * y) % 5)
  }

  /** The rotation of the lane visited at step t. */
  function Rotation(t: nat): nat { (t + 1) * (t + 2) / 2 }

  /** The step at which (x, y) is visited, looking from t on; 24 for the lane (0, 0). */
  function VisitFrom(x: nat, y: nat, t: nat): (v: nat)
    requires t <= 24
    ensures t <= v <= 24
    decreases 24 - t
  {
    if t == 24 || Walk(t) == (x, y) then t else VisitFrom(x, y, t + 1)
  }

  function RhoBit(s: StateArray, x: nat, y: nat, z: nat): bool
    requires x < 5 && y < 5 && z < 64
  {
    var t := VisitFrom(x, y, 0);
    if t == 24 then A(s, x, y, z) else A(s, x, y, (z + 64 - Rotation(t) % 64) % 64)
  }

  /** Section 3.2.3, applied to the result of the section before. */
  function RhoPiBit(s: StateArray, x: nat, y: nat, z: nat): bool
    requires x < 5 && y < 5 && z < 64
  {
    RhoBit(s, (x + 3 * y) % 5, x, z)
  }

  /** Section 3.2.4. */
  function ChiBit(s: StateArray, x: nat, y: nat, z: nat): bool
    requires x < 5 && y < 5 && z < 64
  {
    Xor(A(s, x, y, z), Xor(A(s, (x + 1) % 5, y, z), true) && A(s, (x + 2) % 5, y, z))
  }

  // Section 3.2.5: round constants from a linear feedback shift register.

  /** The register R of algorithm 5: bit i of the vector is R[i]. */
  type Register = bv8

  /** One pass of its loop: a zero is shifted in below bit 0, and the bit that falls out at the
      other end is added to bits 0, 4, 5 and 6. */
  function Shift(r: Register): Register {
    (r << 1) ^ (if r & 0x80 != 0 then 0x71 else 0)
  }

  function Lfsr(t: nat): Register {
    if t == 0 then 1 else Shift(Lfsr(t - 1))
  }

  function Rc(t: nat): bool {
    Lfsr(t % 255) & 1 == 1
  }

  function Zero(): (l: Lane)
    ensures forall z | 0 <= z < 64 :: !l[z]
  {
    seq(64, _ => false)
  }

  /** Bits 0, 1, 3, 7, 15, 31 and 63 of round constant `round`, and zeros. */
  function RoundConstant(round: nat): Lane {
    var t := 7 * round;
    Zero()[0 := Rc(t)][1 := Rc(t + 1)][3 := Rc(t + 2)][7 := Rc(t + 3)][15 := Rc(t + 4)][31 := Rc(t + 5)][63 := Rc(t + 6)]
  }

  function IotaBit(s: StateArray, round: nat, x: nat, y: nat, z: nat): bool
    requires x < 5 && y < 5 && z < 64
  {
    if x == 0 && y == 0 then Xor(A(s, 0, 0, z), RoundConstant(round)[z]) else A(s, x, y, z)
  }

  //////////////////////////////////////////////////////////////////////////////
  // Section 3.3: the permutation
  //////////////////////////////////////////////////////////////////////////////

  function Theta(s: StateArray): StateArray {
    seq(25, (i: nat) requires i < 25 => seq(64, (z: nat) requires z < 64 => ThetaBit(s, i % 5, i / 5, z)))
  }

  function RhoPi(s: StateArray): StateArray {
    seq(25, (i: nat) requires i < 25 => seq(64, (z: nat) requires z < 64 => RhoPiBit(s, i % 5, i / 5, z)))
  }

  function Chi(s: StateArray): StateArray {
    seq(25, (i: nat) requires i < 25 => seq(64, (z: nat) requires z < 64 => ChiBit(s, i % 5, i / 5, z)))
  }

  function Iota(s: StateArray, round: nat): StateArray {
    seq(25, (i: nat) requires i < 25 => seq(64, (z: nat) requires z < 64 => IotaBit(s, round, i % 5, i / 5, z)))
  }

  function Round(s: StateArray, round: nat): StateArray {
    Iota(Chi(RhoPi(Theta(s))), round)
  }

  /** The rounds from `round` on. */
  function RoundsFrom(s: StateArray, round: nat): StateArray
    decreases 24 - round
  {
    if round >= 24 then s else RoundsFrom(Round(s, round), round + 1)
  }

  /** Section 3.4: Keccak-f[1600] has 24 rounds. */
  function KeccakF(s: StateArray): StateArray {
    RoundsFrom(s, 0)
  }

  //////////////////////////////////////////////////////////////////////////////
  // Sections 4 and 5: sponge and padding
  //////////////////////////////////////////////////////////////////////////////

  function ZeroBits(n: nat): (b: Bits)
    ensures |b| == n
  {
    seq(n, _ => false)
  }

  /** Section 5.1: a one, zeros, and a one, so that `m` bits become a multiple of `x`. */
  function Pad(x: nat, m: nat): Bits
    requires x > 0
  {
    [true] + ZeroBits((-2 - m) % x) + [true]
  }

  /** A state string with a string added to its first bits (the string is extended with zeros). */
  function XorBits(s: StateArray, p: Bits): StateArray {
    seq(25, (i: nat) requires i < 25 =>
      seq(64, (z: nat) requires z < 64 => Xor(s[i][z], 64 * i + z < |p| && p[64 * i + z])))
  }

  /** The first bits of a state string. */
  function Trunc(s: StateArray, n: nat): (b: Bits)
    requires n <= 1600
    ensures |b| == n
  {
    seq(n, (k: nat) requires k < n => s[k / 64][k % 64])
  }

  /** Algorithm 8, step 6: absorb the blocks of a padded string. */
  function Absorb(s: StateArray, rate: nat, p: Bits): StateArray
    requires 0 < rate
    decreases |p|
  {
    if |p| < rate then s else Absorb(KeccakF(XorBits(s, p[..rate])), rate, p[rate..])
  }

  /** Algorithm 8, steps 7 to 10: `out` is Z so far. */
  function Squeeze(s: StateArray, rate: nat, out: Bits, d: nat): Bits
    requires 0 < rate <= 1600
    decreases d - |out|
  {
    var out' := out + Trunc(s, rate);
    if d <= |out'| then out'[..d] else Squeeze(KeccakF(s), rate, out', d)
  }

  /** The state after all blocks of the padded message bits `n`. */
  function AbsorbAll(rate: nat, n: Bits): StateArray
    requires 0 < rate
  {
    Absorb(seq(25, _ => Zero()), rate, n + Pad(rate, |n|))
  }

  /** The sponge over Keccak-f[1600] with pad10*1: `d` bits for the message bits `n`. */
  function Sponge(rate: nat, n: Bits, d: nat): Bits
    requires 0 < rate <= 1600
  {
    Squeeze(AbsorbAll(rate, n), rate, [], d)
  }

  /** Section 5.2: capacity `c`. */
  function Keccak(c: nat, n: Bits, d: nat): Bits
    requires c < 1600
  {
    Sponge(1600 - c, n, d)
  }

  /** Section 6.1, with 01 appended to the message. */
  function Sha3(bits: nat, m: Bits): Bits
    requires bits < 800
  {
    Keccak(2 * bits, m + [false, true], bits)
  }

  /** Section 6.2, with 1111 appended to the message. */
  function Shake(bits: nat, m: Bits, d: nat): Bits
    requires bits < 800
  {
    Keccak(2 * bits, m + [true, true, true, true], d)
  }
}
