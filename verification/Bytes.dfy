/** Byte strings, fixed-width integers and the hash functions used as parameters. */
module Bytes {

  newtype Byte = x: int | 0 <= x < 256

  type Bytes = seq<Byte>

  /** A 32-byte string, the size of a SHA-256 hash and of a Merkle note. */
  type Digest = d: Bytes | |d| == 32 witness seq(32, _ => 0 as Byte)

  /** SHA-256 is a parameter: results hold for every function with 32-byte values. */
  type HashFn = Bytes -> Digest

  function Zeros(n: nat): (z: Bytes)
    ensures |z| == n
  {
    seq(n, _ => 0 as Byte)
  }

  /** A string of ASCII characters. */
  function Ascii(s: string): (b: Bytes)
    ensures |b| == |s|
  {
    seq(|s|, (i: nat) requires i < |s| => (s[i] as int % 128) as Byte)
  }

  /** The number of values that fit in `width` bytes. */
  function Limit(width: nat): (m: nat)
    ensures m >= 1
  {
    if width == 0 then 1 else 256 * Limit(width - 1)
  }

  // Big-endian integers, as Erlang's default <<N:Size>>: the value is truncated to the width.

  function BigEndian(n: nat, width: nat): (b: Bytes)
    ensures |b| == width
    decreases width, n
  {
    if width == 0 then [] else BigEndian(n / 256, width - 1) + [(n % 256) as Byte]
  }

  function FromBigEndian(b: Bytes): nat
  {
    if b == [] then 0 else FromBigEndian(b[..|b| - 1]) * 256 + b[|b| - 1] as nat
  }

  lemma {:induction false} BigEndianRoundTrip(n: nat, width: nat)
    requires n < Limit(width)
    ensures FromBigEndian(BigEndian(n, width)) == n
    decreases width
  {
    if width > 0 {
      BigEndianRoundTrip(n / 256, width - 1);
      var b := BigEndian(n, width);
      assert b[..|b| - 1] == BigEndian(n / 256, width - 1);
    }
  }

  lemma {:induction false} BigEndianOfDecoded(b: Bytes)
    ensures FromBigEndian(b) < Limit(|b|)
    ensures BigEndian(FromBigEndian(b), |b|) == b
  {
    if b != [] {
      var front := b[..|b| - 1];
      BigEndianOfDecoded(front);
      assert FromBigEndian(b) / 256 == FromBigEndian(front);
      assert b == front + [b[|b| - 1]];
    }
  }

  // Little-endian integers, as Erlang's <<N:Size/little-integer>>.

  function LittleEndian(n: nat, width: nat): (b: Bytes)
    ensures |b| == width
    decreases width, n
  {
    if width == 0 then [] else [(n % 256) as Byte] + LittleEndian(n / 256, width - 1)
  }

  function FromLittleEndian(b: Bytes): nat
  {
    if b == [] then 0 else b[0] as nat + 256 * FromLittleEndian(b[1..])
  }

  lemma {:induction false} LittleEndianRoundTrip(n: nat, width: nat)
    requires n < Limit(width)
    ensures FromLittleEndian(LittleEndian(n, width)) == n
    decreases width
  {
    if width > 0 {
      LittleEndianRoundTrip(n / 256, width - 1);
      assert LittleEndian(n, width)[1..] == LittleEndian(n / 256, width - 1);
    }
  }

  // Collisions. A hash with more inputs than outputs always collides somewhere, so every
  // statement here is about a finite set of strings that the program really hashes.

  ghost predicate NoCollision(h: HashFn, strings: set<Bytes>) {
    forall x, y | x in strings && y in strings && h(x) == h(y) :: x == y
  }

  /** Two equal concatenations of equally long parts have equal parts. */
  lemma SplitEqual<T>(a: seq<T>, b: seq<T>, c: seq<T>, d: seq<T>)
    requires a + b == c + d
    requires |a| == |c|
    ensures a == c && b == d
  {
    assert a == (a + b)[..|a|] && c == (c + d)[..|c|];
    assert b == (a + b)[|a|..] && d == (c + d)[|c|..];
  }
}
