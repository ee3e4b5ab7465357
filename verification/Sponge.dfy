/** The sponge of the hash library (native/hb_keccak/hb_keccak.c:83-174) against sections 4 to 6 of
    FIPS 202. A byte is its eight bits, least significant first (appendix B.1). */
module Sponge {
  import opened Fips202
  import opened KeccakTables
  import opened Keccak
  import opened KeccakRefinement
  import opened Remainders

  type Octet = s: seq<bool> | |s| == 8 witness seq(8, _ => false)

  function Flat(m: seq<Octet>): (b: Bits)
    ensures |b| == 8 * |m|
  {
    seq(8 * |m|, (k: nat) requires k < 8 * |m| => m[k / 8][k % 8])
  }

  lemma FlatAppend(a: seq<Octet>, b: seq<Octet>)
    ensures Flat(a + b) == Flat(a) + Flat(b)
  {
    forall k | 0 <= k < 8 * (|a| + |b|) ensures Flat(a + b)[k] == (Flat(a) + Flat(b))[k] {
      if k >= 8 * |a| {
        assert (k - 8 * |a|) / 8 == k / 8 - |a| && (k - 8 * |a|) % 8 == k % 8;
      }
    }
  }

  /** The zero state: `uint8_t a[Plen] = {0}`. */
  function ZeroState(): StateArray { seq(25, _ => Zero()) }

  //////////////////////////////////////////////////////////////////////////////
  // Bytes of the state
  //////////////////////////////////////////////////////////////////////////////

  /** Byte `i` of the state, on a little-endian machine. */
  function StateOctet(s: seq<Lane>, i: nat): Octet
    requires |s| == 25 && i < 200
  {
    s[i / 8][8 * (i % 8)..8 * (i % 8) + 8]
  }

  /** A byte at its place in a word. */
  function InWord(o: Octet, at: nat): Lane
    requires at < 8
  {
    ZeroBits(8 * at) + o + ZeroBits(56 - 8 * at)
  }

  function XorOctet(s: StateArray, i: nat, o: Octet): StateArray
    requires i < 200
  {
    s[i / 8 := Xors(s[i / 8], InWord(o, i % 8))]
  }

  lemma InWordAt(o: Octet, i: nat, z: nat)
    requires i < 200 && z < 64
    ensures
      var k := 64 * (i / 8) + z;
      InWord(o, i % 8)[z] == (8 * i <= k < 8 * i + 8 && o[k - 8 * i])
  {
    assert i == 8 * (i / 8) + i % 8;
  }

  lemma XorOctetAt(s: StateArray, i: nat, o: Octet, l: nat, z: nat)
    requires i < 200 && l < 25 && z < 64
    ensures
      var k := 64 * l + z;
      XorOctet(s, i, o)[l][z] == Xor(s[l][z], 8 * i <= k < 8 * i + 8 && o[k - 8 * i])
  {
    if l == i / 8 {
      XorsAt(s[l], InWord(o, i % 8), z);
      InWordAt(o, i, z);
    } else {
      assert i == 8 * (i / 8) + i % 8;
    }
  }

  /** Adding a byte to the state is adding a string of zeros and that byte. */
  lemma XorOctetIsXorBits(s: StateArray, i: nat, o: Octet)
    requires i < 200
    ensures XorOctet(s, i, o) == XorBits(s, ZeroBits(8 * i) + o)
  {
    var (s1, s2) := (XorOctet(s, i, o), XorBits(s, ZeroBits(8 * i) + o));
    forall l | 0 <= l < 25 ensures s1[l] == s2[l] {
      forall z | 0 <= z < 64 ensures s1[l][z] == s2[l][z] {
        XorOctetAt(s, i, o, l, z);
      }
    }
  }

  predicate At(p: Bits, k: nat) { k < |p| && p[k] }

  /** Strings added one after another add up. */
  lemma XorBitsTwice(s: StateArray, p: Bits, q: Bits, r: Bits)
    requires forall k: nat | k < 1600 :: At(r, k) == Xor(At(p, k), At(q, k))
    ensures XorBits(XorBits(s, p), q) == XorBits(s, r)
  {
    var (s1, s2) := (XorBits(XorBits(s, p), q), XorBits(s, r));
    forall l | 0 <= l < 25 ensures s1[l] == s2[l] {
      forall z | 0 <= z < 64 ensures s1[l][z] == s2[l][z] {
        var k := 64 * l + z;
        assert At(r, k) == Xor(At(p, k), At(q, k));
      }
    }
  }

  lemma XorNextOctet(s: StateArray, p: Bits, i: nat, o: Octet)
    requires i < 200 && |p| == 8 * i
    ensures XorOctet(XorBits(s, p), i, o) == XorBits(s, p + o)
  {
    var q := ZeroBits(8 * i) + o;
    XorOctetIsXorBits(XorBits(s, p), i, o);
    forall k: nat | k < 1600 ensures At(p + o, k) == Xor(At(p, k), At(q, k)) {
    }
    XorBitsTwice(s, p, q, p + o);
  }

  lemma XorNothing(s: StateArray)
    ensures XorBits(s, []) == s
  {
    forall l | 0 <= l < 25 ensures XorBits(s, [])[l] == s[l] {
    }
  }

  //////////////////////////////////////////////////////////////////////////////
  // Absorbing
  //////////////////////////////////////////////////////////////////////////////

  /** The state after the full blocks of `m`, and what is left of `m` then. */
  function FullBlocks(s: StateArray, m: seq<Octet>, rate: nat): StateArray
    requires rate > 0
    decreases |m|
  {
    if |m| < rate then s else FullBlocks(KeccakF(XorBits(s, Flat(m[..rate]))), m[rate..], rate)
  }

  function LastBlock(m: seq<Octet>, rate: nat): (rest: seq<Octet>)
    requires rate > 0
    ensures |rest| < rate
    decreases |m|
  {
    if |m| < rate then m else LastBlock(m[rate..], rate)
  }

  /** Bit 7 alone: 0x80. */
  function TopBit(): Octet { ZeroBits(7) + [true] }

  function AddLast(s: StateArray, rest: seq<Octet>, rate: nat, delim: Octet): StateArray
    requires |rest| < rate <= 200
  {
    XorBits(XorOctet(XorOctet(s, |rest|, delim), rate - 1, TopBit()), Flat(rest))
  }

  /** A delimiter is the bits that the hash function appends to the message and the first bit of
      the padding. */
  predicate IsDelimiter(delim: Octet, suffix: Bits) {
    |suffix| <= 6 && delim == suffix + [true] + ZeroBits(7 - |suffix|)
  }

  /** The last block with suffix and padding. */
  function Padded(rest: seq<Octet>, suffix: Bits, rate: nat): (p: Bits)
    requires |rest| < rate && |suffix| <= 6
    ensures |p| == 8 * rate
  {
    Flat(rest) + suffix + [true] + ZeroBits(8 * rate - 8 * |rest| - |suffix| - 2) + [true]
  }

  lemma LastIsPadded(s: StateArray, rest: seq<Octet>, rate: nat, delim: Octet, suffix: Bits)
    requires |rest| < rate <= 200 && IsDelimiter(delim, suffix)
    ensures AddLast(s, rest, rate, delim) == XorBits(s, Padded(rest, suffix, rate))
  {
    var n := |rest|;
    var q1 := ZeroBits(8 * n) + delim;
    var q2 := ZeroBits(8 * (rate - 1)) + TopBit();
    XorOctetIsXorBits(s, n, delim);
    XorOctetIsXorBits(XorOctet(s, n, delim), rate - 1, TopBit());
    var q := seq(8 * rate, (k: nat) requires k < 8 * rate => Xor(At(q1, k), At(q2, k)));
    forall k: nat | k < 1600 ensures At(q, k) == Xor(At(q1, k), At(q2, k)) {
    }
    XorBitsTwice(s, q1, q2, q);
    PaddedAt(rest, suffix, rate, delim, q1, q2, q);
    XorBitsTwice(s, q, Flat(rest), Padded(rest, suffix, rate));
  }

  lemma PaddedAt(rest: seq<Octet>, suffix: Bits, rate: nat, delim: Octet, q1: Bits, q2: Bits, q: Bits)
    requires |rest| < rate <= 200 && IsDelimiter(delim, suffix)
    requires q1 == ZeroBits(8 * |rest|) + delim && q2 == ZeroBits(8 * (rate - 1)) + TopBit()
    requires forall k: nat | k < 1600 :: At(q, k) == Xor(At(q1, k), At(q2, k))
    ensures
      forall k: nat | k < 1600 :: At(Padded(rest, suffix, rate), k) == Xor(At(q, k), At(Flat(rest), k))
  {
    forall k: nat | k < 1600 ensures At(Padded(rest, suffix, rate), k) == Xor(At(q, k), At(Flat(rest), k)) {
      assert At(q2, k) == (k == 8 * rate - 1);
      assert At(q1, k) == (8 * |rest| <= k < 8 * |rest| + |suffix| + 1 && (suffix + [true])[k - 8 * |rest|]);
    }
  }

  lemma AbsorbLast(s: StateArray, m: seq<Octet>, rate: nat, delim: Octet, suffix: Bits, p: Bits)
    requires |m| < rate <= 200 && IsDelimiter(delim, suffix) && p == Padded(m, suffix, rate)
    ensures KeccakF(AddLast(s, m, rate, delim)) == Absorb(s, 8 * rate, p)
  {
    LastIsPadded(s, m, rate, delim, suffix);
    assert p[..8 * rate] == p && p[8 * rate..] == [];
  }

  /** The code absorbs what section 4 absorbs: the message, the suffix and the padding of 5.1. */
  lemma {:induction false} AbsorbRefines(s: StateArray, m: seq<Octet>, rate: nat, delim: Octet, suffix: Bits)
    requires 0 < rate <= 200 && IsDelimiter(delim, suffix)
    ensures
      var n := Flat(m) + suffix;
      KeccakF(AddLast(FullBlocks(s, m, rate), LastBlock(m, rate), rate, delim))
      == Absorb(s, 8 * rate, n + Pad(8 * rate, |n|))
    decreases |m|
  {
    var n := Flat(m) + suffix;
    var p := n + Pad(8 * rate, |n|);
    if |m| < rate {
      PadOfLast(8 * rate, |n|);
      AbsorbLast(s, m, rate, delim, suffix, p);
    } else {
      AbsorbSplit(m, rate, suffix);
      AbsorbRefines(KeccakF(XorBits(s, Flat(m[..rate]))), m[rate..], rate, delim, suffix);
    }
  }

  lemma AbsorbSplit(m: seq<Octet>, rate: nat, suffix: Bits)
    requires 0 < rate <= |m|
    ensures
      var (n, n') := (Flat(m) + suffix, Flat(m[rate..]) + suffix);
      var p := n + Pad(8 * rate, |n|);
      p[..8 * rate] == Flat(m[..rate]) && p[8 * rate..] == n' + Pad(8 * rate, |n'|)
  {
    assert m == m[..rate] + m[rate..];
    FlatAppend(m[..rate], m[rate..]);
    PadOfRest(8 * rate, |Flat(m) + suffix|);
  }

  lemma PadOfLast(x: nat, m: nat)
    requires m + 2 <= x
    ensures (-2 - m) % x == x - m - 2
  {
    DivModUnique(-2 - m, x, -1, x - m - 2);
  }

  lemma PadOfRest(x: nat, m: nat)
    requires 0 < x <= m
    ensures Pad(x, m) == Pad(x, m - x)
  {
    var (a, q) := (-2 - m, (-2 - m) / x);
    assert a == q * x + a % x;
    assert (q + 1) * x == q * x + x;
    DivModUnique(a + x, x, q + 1, a % x);
  }

  //////////////////////////////////////////////////////////////////////////////
  // Squeezing
  //////////////////////////////////////////////////////////////////////////////

  /** The `n` bytes that the code copies out, full blocks first. */
  function Emitted(s: StateArray, rate: nat, n: nat): (z: Bits)
    requires 0 < rate <= 200
    ensures |z| == 8 * n
    decreases n
  {
    if n < rate then Trunc(s, 8 * n) else Trunc(s, 8 * rate) + Emitted(KeccakF(s), rate, n - rate)
  }

  lemma {:induction false} SqueezeRefines(s: StateArray, rate: nat, out: Bits, n: nat)
    requires 0 < rate <= 200
    ensures Squeeze(s, 8 * rate, out, |out| + 8 * n) == out + Emitted(s, rate, n)
    decreases n
  {
    if n <= rate {
      SqueezeLast(s, rate, out, n);
    } else {
      SqueezeRefines(KeccakF(s), rate, out + Trunc(s, 8 * rate), n - rate);
      SqueezeMore(s, rate, out, n);
    }
  }

  lemma SqueezeLast(s: StateArray, rate: nat, out: Bits, n: nat)
    requires 0 < rate <= 200 && n <= rate
    ensures Squeeze(s, 8 * rate, out, |out| + 8 * n) == out + Emitted(s, rate, n)
  {
    TruncOfTrunc(s, 8 * rate, 8 * n);
    assert (out + Trunc(s, 8 * rate))[..|out| + 8 * n] == out + Trunc(s, 8 * n);
    if n == rate {
      assert Emitted(KeccakF(s), rate, 0) == [];
      assert Trunc(s, 8 * rate) + [] == Trunc(s, 8 * rate);
    }
  }

  lemma TruncOfTrunc(s: StateArray, m: nat, n: nat)
    requires n <= m <= 1600
    ensures Trunc(s, m)[..n] == Trunc(s, n)
  {
  }

  lemma SqueezeMore(s: StateArray, rate: nat, out: Bits, n: nat)
    requires 0 < rate <= 200 && n > rate
    requires
      var (t, out') := (KeccakF(s), out + Trunc(s, 8 * rate));
      Squeeze(t, 8 * rate, out', |out'| + 8 * (n - rate)) == out' + Emitted(t, rate, n - rate)
    ensures Squeeze(s, 8 * rate, out, |out| + 8 * n) == out + Emitted(s, rate, n)
  {
    Associative(out, Trunc(s, 8 * rate), Emitted(KeccakF(s), rate, n - rate));
  }

  lemma Associative(a: Bits, b: Bits, c: Bits)
    ensures (a + b) + c == a + (b + c)
  {
  }

  /** Asking for more output only appends to it. */
  lemma {:induction false} SqueezeExtends(s: StateArray, rate: nat, out: Bits, d: nat, e: nat)
    requires 0 < rate <= 1600 && |out| <= d <= e
    ensures |Squeeze(s, rate, out, d)| == d && Squeeze(s, rate, out, d) <= Squeeze(s, rate, out, e)
    ensures out <= Squeeze(s, rate, out, e) && |Squeeze(s, rate, out, e)| == e
    decreases e - |out|
  {
    var out' := out + Trunc(s, rate);
    if e > |out'| {
      SqueezeExtends(KeccakF(s), rate, out', if d > |out'| then d else |out'|, e);
    }
  }
}
