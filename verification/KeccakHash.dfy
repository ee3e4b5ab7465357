/** The hash functions (native/hb_keccak/hb_keccak.c:83-174), in place. */
module KeccakHash {
  import opened Fips202
  import opened KeccakTables
  import opened Keccak
  import opened KeccakRefinement
  import opened Sponge

  /** `len` bytes of a buffer from `from` on, none if it is null. */
  ghost function Slice(buffer: array?<Octet>, from: nat, len: nat): (m: seq<Octet>)
    requires buffer != null ==> from + len <= buffer.Length
    reads buffer
    ensures buffer != null ==> |m| == len
  {
    if buffer == null then [] else buffer[from..from + len]
  }

  method XorIn(a: array<Lane>, inp: array?<Octet>, from: nat, len: nat)
    requires a.Length == 25 && len <= 200
    requires inp != null ==> from + len <= inp.Length
    requires inp == null ==> len == 0
    modifies a
    ensures a[..] == XorBits(old(a[..]), Flat(Slice(inp, from, len)))
  {
    ghost var states := AbsorbStates(a[..], Slice(inp, from, len));
    var i := 0;
    while i < len
      invariant i <= len
      invariant a[..] == states[i]
    {
      XorStateByte(a, i, inp[from + i]);
      i := i + 1;
    }
  }

  /** The states in which the bytes of a block are added one by one. */
  lemma AbsorbStates(s: StateArray, m: seq<Octet>) returns (states: seq<StateArray>)
    requires |m| <= 200
    ensures |states| == |m| + 1 && states[0] == s && states[|m|] == XorBits(s, Flat(m))
    ensures forall i | 0 <= i < |m| :: states[i + 1] == XorOctet(states[i], i, m[i])
  {
    states := seq(|m| + 1, (i: nat) requires i <= |m| => XorBits(s, Flat(m[..i])));
    XorNothing(s);
    assert Flat(m[..0]) == [] && m[..|m|] == m;
    forall i | 0 <= i < |m| ensures states[i + 1] == XorOctet(states[i], i, m[i]) {
      AbsorbNext(s, m, i);
    }
  }

  lemma AbsorbNext(s: StateArray, m: seq<Octet>, i: nat)
    requires i < |m| <= 200
    ensures XorOctet(XorBits(s, Flat(m[..i])), i, m[i]) == XorBits(s, Flat(m[..i + 1]))
  {
    XorNextOctet(s, Flat(m[..i]), i, m[i]);
    FlatAppend(m[..i], [m[i]]);
    assert m[..i + 1] == m[..i] + [m[i]];
    assert Flat([m[i]]) == m[i];
  }

  method XorStateByte(a: array<Lane>, i: nat, o: Octet)
    requires a.Length == 25 && i < 200
    modifies a
    ensures a[..] == XorOctet(old(a[..]), i, o)
  {
    a[i / 8] := Xors(a[i / 8], InWord(o, i % 8));
  }

  method SetOut(a: array<Lane>, out: array<Octet>, from: nat, len: nat)
    requires a.Length == 25 && len <= 200 && from + len <= out.Length
    modifies out
    ensures Flat(out[from..from + len]) == Trunc(a[..], 8 * len)
    ensures out[..from] == old(out[..from]) && out[from + len..] == old(out[from + len..])
  {
    ghost var s: StateArray := a[..];
    var i := 0;
    while i < len
      invariant i <= len
      invariant forall j | 0 <= j < i :: out[from + j] == StateOctet(s, j)
      invariant out[..from] == old(out[..from]) && out[from + len..] == old(out[from + len..])
    {
      out[from + i] := a[i / 8][8 * (i % 8)..8 * (i % 8) + 8];
      i := i + 1;
    }
    OctetsAreTrunc(s, out[from..from + len]);
  }

  lemma OctetsAreTrunc(s: StateArray, m: seq<Octet>)
    requires |m| <= 200 && forall j | 0 <= j < |m| :: m[j] == StateOctet(s, j)
    ensures Flat(m) == Trunc(s, 8 * |m|)
  {
    forall k | 0 <= k < 8 * |m| ensures Flat(m)[k] == s[k / 64][k % 64] {
      var j := k / 8;
      assert m[j] == StateOctet(s, j);
      assert k / 64 == j / 8 && k % 64 == 8 * (j % 8) + k % 8;
    }
  }

  //////////////////////////////////////////////////////////////////////////////
  // The sponge
  //////////////////////////////////////////////////////////////////////////////

  /** Absorbing `rest` from the state `s` ends in the state `end` with `last` left over. */
  ghost predicate Absorbing(rest: seq<Octet>, s: seq<Lane>, rate: nat, end: StateArray, last: seq<Octet>)
    requires |s| == 25 && rate > 0
  {
    FullBlocks(s, rest, rate) == end && LastBlock(rest, rate) == last
  }

  /** Folds the permutation over the full blocks of the input; `pos` bytes are consumed. */
  method FoldIn(a: array<Lane>, inp: array?<Octet>, inlen: nat, rate: nat, ghost end: StateArray, ghost last: seq<Octet>)
    returns (pos: nat)
    requires a.Length == 25 && 0 < rate <= 200
    requires inp != null ==> inlen <= inp.Length
    requires inp == null ==> inlen == 0
    requires Absorbing(Slice(inp, 0, inlen), a[..], rate, end, last)
    modifies a
    ensures pos <= inlen && inlen - pos < rate && Slice(inp, pos, inlen - pos) == last && a[..] == end
  {
    pos := 0;
    var left: nat := inlen;
    while left >= rate
      invariant pos + left == inlen
      invariant Absorbing(Slice(inp, pos, left), a[..], rate, end, last)
    {
      AbsorbBlock(a, inp, pos, left, rate, end, last);
      pos := pos + rate;
      left := left - rate;
    }
    AbsorbingEnds(Slice(inp, pos, left), a[..], rate, end, last);
  }

  lemma AbsorbingEnds(rest: seq<Octet>, s: seq<Lane>, rate: nat, end: StateArray, last: seq<Octet>)
    requires |s| == 25 && |rest| < rate && Absorbing(rest, s, rate, end, last)
    ensures s == end && rest == last
  {
  }

  method AbsorbBlock(
    a: array<Lane>, inp: array?<Octet>, pos: nat, ghost left: nat, rate: nat, ghost end: StateArray, ghost last: seq<Octet>
  )
    requires a.Length == 25 && 0 < rate <= 200 && left >= rate
    requires inp != null && pos + left <= inp.Length
    requires Absorbing(Slice(inp, pos, left), a[..], rate, end, last)
    modifies a
    ensures Absorbing(Slice(inp, pos + rate, left - rate), a[..], rate, end, last)
  {
    ghost var rest := Slice(inp, pos, left);
    assert rest[..rate] == Slice(inp, pos, rate);
    assert rest[rate..] == Slice(inp, pos + rate, left - rate);
    XorIn(a, inp, pos, rate);
    KeccakInPlace(a);
  }

  /** `pos` bytes are written, with `left` more the output is `z`, and `tail` follows it. */
  ghost predicate Emitting(out: seq<Octet>, s: seq<Lane>, rate: nat, pos: nat, left: nat, z: Bits, tail: seq<Octet>)
    requires |s| == 25 && 0 < rate <= 200
  {
    pos + left <= |out| && out[pos + left..] == tail && Output(out, s, rate, pos, left) == z
  }

  /** What is written, and what is still to come. */
  ghost function Output(out: seq<Octet>, s: seq<Lane>, rate: nat, pos: nat, left: nat): Bits
    requires |s| == 25 && 0 < rate <= 200 && pos <= |out|
  {
    Flat(out[..pos]) + Emitted(s, rate, left)
  }

  /** Folds the permutation over the full blocks of the output; `pos` bytes are written. */
  method FoldOut(a: array<Lane>, out: array<Octet>, outlen: nat, rate: nat, ghost z: Bits, ghost tail: seq<Octet>)
    returns (pos: nat)
    requires a.Length == 25 && 0 < rate <= 200 && Emitting(out[..], a[..], rate, 0, outlen, z, tail)
    modifies a, out
    ensures pos <= outlen < pos + rate
    ensures Emitting(out[..], a[..], rate, pos, outlen - pos, z, tail)
  {
    pos := 0;
    var left: nat := outlen;
    while left >= rate
      invariant pos + left == outlen
      invariant Emitting(out[..], a[..], rate, pos, left, z, tail)
    {
      EmitBlock(a, out, pos, rate, left, z, tail);
      pos := pos + rate;
      left := left - rate;
    }
  }

  method EmitBlock(
    a: array<Lane>, out: array<Octet>, pos: nat, rate: nat, ghost left: nat, ghost z: Bits, ghost tail: seq<Octet>
  )
    requires a.Length == 25 && 0 < rate <= 200 && left >= rate
    requires Emitting(out[..], a[..], rate, pos, left, z, tail)
    modifies a, out
    ensures Emitting(out[..], a[..], rate, pos + rate, left - rate, z, tail)
  {
    ghost var (s: StateArray, done) := (a[..], out[..pos]);
    SetOut(a, out, pos, rate);
    OutputGrows(out[..], done, pos, rate, s);
    KeccakInPlace(a);
    EmitNext(Flat(done), s, rate, left);
    assert out[pos + left..] == out[pos + rate..][left - rate..];
  }

  lemma OutputGrows(out: seq<Octet>, done: seq<Octet>, pos: nat, n: nat, s: StateArray)
    requires n <= 200 && pos + n <= |out| && done == out[..pos] && Flat(out[pos..pos + n]) == Trunc(s, 8 * n)
    ensures Flat(out[..pos + n]) == Flat(done) + Trunc(s, 8 * n)
  {
    FlatAppend(done, out[pos..pos + n]);
    assert out[..pos + n] == done + out[pos..pos + n];
  }

  lemma EmitNext(done: Bits, s: StateArray, rate: nat, left: nat)
    requires 0 < rate <= 200 && left >= rate
    ensures (done + Trunc(s, 8 * rate)) + Emitted(KeccakF(s), rate, left - rate) == done + Emitted(s, rate, left)
  {
    Associative(done, Trunc(s, 8 * rate), Emitted(KeccakF(s), rate, left - rate));
  }

  method AddLastBlock(a: array<Lane>, inp: array?<Octet>, from: nat, left: nat, rate: nat, delim: Octet)
    requires a.Length == 25 && left < rate <= 200
    requires inp != null ==> from + left <= inp.Length
    requires inp == null ==> left == 0
    modifies a
    ensures a[..] == AddLast(old(a[..]), Slice(inp, from, left), rate, delim)
  {
    XorStateByte(a, left, delim);
    XorStateByte(a, rate - 1, TopBit());
    XorIn(a, inp, from, left);
  }

  /** What the sponge of FIPS 202 returns for `m`, for each string that the delimiter encodes. */
  ghost predicate IsSponge(z: Bits, m: seq<Octet>, rate: nat, delim: Octet)
    requires 0 < rate < 200
  {
    forall suffix | IsDelimiter(delim, suffix) :: z == Fips202.Sponge(8 * rate, Flat(m) + suffix, |z|)
  }

  /** The state from which the code squeezes. */
  ghost function Absorbed(m: seq<Octet>, rate: nat, delim: Octet): StateArray
    requires 0 < rate < 200
  {
    KeccakF(AddLast(FullBlocks(ZeroState(), m, rate), LastBlock(m, rate), rate, delim))
  }

  lemma SpongeOf(n: Bits, rate: nat, s: StateArray, outlen: nat)
    requires 0 < rate < 200 && s == AbsorbAll(8 * rate, n)
    ensures Emitted(s, rate, outlen) == Fips202.Sponge(8 * rate, n, 8 * outlen)
  {
    SqueezeRefines(s, rate, [], outlen);
    NothingBefore(Emitted(s, rate, outlen));
  }

  lemma NothingBefore(z: Bits)
    ensures [] + z == z
  {
  }

  lemma EmittedIsSponge(m: seq<Octet>, rate: nat, delim: Octet, n: nat)
    requires 0 < rate < 200
    ensures IsSponge(Emitted(Absorbed(m, rate, delim), rate, n), m, rate, delim)
  {
    forall suffix | IsDelimiter(delim, suffix)
      ensures Emitted(Absorbed(m, rate, delim), rate, n) == Fips202.Sponge(8 * rate, Flat(m) + suffix, 8 * n)
    {
      AbsorbRefines(ZeroState(), m, rate, delim, suffix);
      SpongeOf(Flat(m) + suffix, rate, Absorbed(m, rate, delim), n);
    }
  }

  /** Input and output may be the same buffer: nothing is written before all input is read. */
  method Hash(out: array?<Octet>, outlen: nat, inp: array?<Octet>, inlen: nat, rate: nat, delim: Octet)
    returns (code: int)
    requires out != null ==> outlen <= out.Length
    requires inp != null ==> inlen <= inp.Length
    requires rate > 0
    modifies out
    ensures code == if out == null || (inp == null && inlen != 0) || rate >= 200 then -1 else 0
    ensures out != null && code == -1 ==> out[..] == old(out[..])
    ensures code == 0 ==> out[outlen..] == old(out[outlen..])
    ensures code == 0 ==> IsSponge(Flat(out[..outlen]), old(Slice(inp, 0, inlen)), rate, delim)
  {
    if out == null || (inp == null && inlen != 0) || rate >= 200 {
      return -1;
    }
    ghost var m := Slice(inp, 0, inlen);
    var a := new Lane[25](_ => Zero());
    assert a[..] == ZeroState();
    AbsorbInput(a, inp, inlen, rate, delim, FullBlocks(ZeroState(), m, rate), LastBlock(m, rate));
    EmittedIsSponge(m, rate, delim, outlen);
    Emit(a, out, outlen, rate);
    code := 0;
  }

  method AbsorbInput(
    a: array<Lane>, inp: array?<Octet>, inlen: nat, rate: nat, delim: Octet, ghost end: StateArray, ghost last: seq<Octet>
  )
    requires a.Length == 25 && |last| < rate < 200
    requires inp != null ==> inlen <= inp.Length
    requires inp == null ==> inlen == 0
    requires Absorbing(Slice(inp, 0, inlen), a[..], rate, end, last)
    modifies a
    ensures a[..] == KeccakF(AddLast(end, last, rate, delim))
  {
    var pos := FoldIn(a, inp, inlen, rate, end, last);
    AddLastBlock(a, inp, pos, inlen - pos, rate, delim);
    assert a[..] == AddLast(end, last, rate, delim);
    KeccakInPlace(a);
  }

  /** The last block completes the output. */
  lemma OutputEnds(before: seq<Octet>, out: seq<Octet>, s: StateArray, rate: nat, pos: nat, left: nat)
    requires left < rate <= 200 && pos + left <= |out| == |before| && before[..pos] == out[..pos]
    requires Flat(out[pos..pos + left]) == Trunc(s, 8 * left)
    ensures Flat(out[..pos + left]) == Output(before, s, rate, pos, left)
  {
    OutputGrows(out, out[..pos], pos, left, s);
  }

  lemma NothingWritten(out: seq<Octet>, s: StateArray, rate: nat, left: nat)
    requires 0 < rate <= 200
    ensures Output(out, s, rate, 0, left) == Emitted(s, rate, left)
  {
    assert out[..0] == [];
    NothingBefore(Emitted(s, rate, left));
  }

  /** The last block, which may be empty. */
  method EmitLast(
    a: array<Lane>, out: array<Octet>, pos: nat, left: nat, rate: nat, ghost z: Bits, ghost tail: seq<Octet>
  )
    requires a.Length == 25 && left < rate <= 200
    requires Emitting(out[..], a[..], rate, pos, left, z, tail)
    modifies out
    ensures Flat(out[..pos + left]) == z && out[pos + left..] == tail
  {
    ghost var before := out[..];
    SetOut(a, out, pos, left);
    OutputEnds(before, out[..], a[..], rate, pos, left);
  }

  method Emit(a: array<Lane>, out: array<Octet>, outlen: nat, rate: nat)
    requires a.Length == 25 && 0 < rate < 200 && outlen <= out.Length
    modifies a, out
    ensures forall i | 0 <= i < 25 :: a[i] == Zero()
    ensures Flat(out[..outlen]) == Emitted(old(a[..]), rate, outlen)
    ensures out[outlen..] == old(out[outlen..])
  {
    ghost var z := Emitted(a[..], rate, outlen);
    NothingWritten(out[..], a[..], rate, outlen);
    var pos := FoldOut(a, out, outlen, rate, z, out[outlen..]);
    EmitLast(a, out, pos, outlen - pos, rate, z, old(out[outlen..]));
    Clear(a);
  }

  method Clear(a: array<Lane>)
    requires a.Length == 25
    modifies a
    ensures forall i | 0 <= i < 25 :: a[i] == Zero()
  {
    forall i | 0 <= i < 25 {
      a[i] := Zero();
    }
  }

  //////////////////////////////////////////////////////////////////////////////
  // The instances
  //////////////////////////////////////////////////////////////////////////////

  const KECCAK_PAD: Octet := [true, false, false, false, false, false, false, false]
  const SHA3_PAD: Octet := [false, true, true, false, false, false, false, false]
  const SHAKE_PAD: Octet := [true, true, true, true, true, false, false, false]

  lemma WordStep(n: nat, width: nat, b: bool)
    ensures WordBits(2 * n + (if b then 1 else 0), width + 1) == [b] + WordBits(n, width)
  {
    HalfOf(n, b);
  }

  lemma HalfOf(n: nat, b: bool)
    ensures
      var m := 2 * n + (if b then 1 else 0);
      m / 2 == n && (m % 2 == 1 <==> b)
  {
  }

  lemma {:induction false} WordZero(width: nat)
    ensures WordBits(0, width) == ZeroBits(width)
  {
    if width > 0 {
      WordZero(width - 1);
      assert ZeroBits(width) == [false] + ZeroBits(width - 1);
    }
  }

  /** The pads are the bytes 0x01, 0x06 and 0x1f, and stand for the suffixes of section 6. */
  lemma KeccakPad()
    ensures WordBits(0x01, 8) == KECCAK_PAD && IsDelimiter(KECCAK_PAD, [])
  {
    WordZero(7);
    WordStep(0, 7, true);
  }

  lemma Sha3Pad()
    ensures WordBits(0x06, 8) == SHA3_PAD && IsDelimiter(SHA3_PAD, [false, true])
  {
    WordStep(0, 5, true);
    WordStep(1, 6, true);
    WordStep(3, 7, false);
    FiveZeros();
  }

  lemma FiveZeros()
    ensures WordBits(0, 5) == ZeroBits(5) == [false, false, false, false, false]
  {
    WordZero(5);
  }

  lemma ShakePad()
    ensures WordBits(0x1f, 8) == SHAKE_PAD && IsDelimiter(SHAKE_PAD, [true, true, true, true])
  {
    ShakeByte();
    ThreeZeros();
  }

  lemma ThreeZeros()
    ensures WordBits(0, 3) == ZeroBits(3) == [false, false, false]
  {
    WordZero(3);
  }

  lemma ShakeByte()
    ensures WordBits(0x1f, 8) == SHAKE_PAD
  {
    ThreeZeros();
    WordStep(0, 3, true);
    WordStep(1, 4, true);
    WordStep(3, 5, true);
    WordStep(7, 6, true);
    WordStep(15, 7, true);
  }

  predicate DigestSize(bits: nat) { bits == 224 || bits == 256 || bits == 384 || bits == 512 }

  lemma ShakeOf(bits: nat, m: seq<Octet>, z: Bits, rate: nat)
    requires (bits == 128 && rate == 168) || (bits == 256 && rate == 136)
    requires IsSponge(z, m, rate, SHAKE_PAD)
    ensures z == Fips202.Shake(bits, Flat(m), |z|)
  {
    ShakePad();
    assert 8 * rate == 1600 - 2 * bits;
  }

  lemma KeccakOf(bits: nat, m: seq<Octet>, suffix: Bits, z: Bits, rate: nat, delim: Octet)
    requires DigestSize(bits) && rate == 200 - bits / 4
    requires IsDelimiter(delim, suffix) && IsSponge(z, m, rate, delim)
    ensures z == Fips202.Keccak(2 * bits, Flat(m) + suffix, |z|)
  {
    assert 8 * rate == 1600 - 2 * bits;
  }

  /** The first bits of a longer output, so a short buffer gets the front of the digest. */
  lemma OutputExtends(c: nat, n: Bits, d: nat, e: nat)
    requires c < 1600 && d <= e
    ensures |Fips202.Keccak(c, n, e)| == e && Fips202.Keccak(c, n, d) == Fips202.Keccak(c, n, e)[..d]
  {
    SqueezeExtends(AbsorbAll(1600 - c, n), 1600 - c, [], d, e);
  }

  /** shake128 and shake256. */
  method Shake(bits: nat, out: array?<Octet>, outlen: nat, inp: array?<Octet>, inlen: nat) returns (code: int)
    requires bits == 128 || bits == 256
    requires out != null ==> outlen <= out.Length
    requires inp != null ==> inlen <= inp.Length
    modifies out
    ensures code == if out == null || (inp == null && inlen != 0) then -1 else 0
    ensures code == 0 ==> Flat(out[..outlen]) == Fips202.Shake(bits, Flat(old(Slice(inp, 0, inlen))), 8 * outlen)
  {
    ghost var m := Slice(inp, 0, inlen);
    code := Hash(out, outlen, inp, inlen, 200 - bits / 4, SHAKE_PAD);
    if code == 0 {
      ghost var z := Flat(out[..outlen]);
      ShakeOf(bits, m, z, 200 - bits / 4);
    }
  }

  /** The fixed-length functions: sha3_* with pad 0x06 and keccak_* with pad 0x01. A shorter output
      than the digest is allowed, a longer one is not. */
  method FixedLength(
    bits: nat, pad: Octet, ghost suffix: Bits, out: array?<Octet>, outlen: nat, inp: array?<Octet>, inlen: nat
  ) returns (code: int)
    requires DigestSize(bits) && IsDelimiter(pad, suffix)
    requires out != null ==> outlen <= out.Length
    requires inp != null ==> inlen <= inp.Length
    modifies out
    ensures code == if outlen > bits / 8 || out == null || (inp == null && inlen != 0) then -1 else 0
    ensures out != null && code == -1 ==> out[..] == old(out[..])
    ensures code == 0 ==> out[outlen..] == old(out[outlen..])
    ensures
      code == 0 ==>
        Flat(out[..outlen]) == Fips202.Keccak(2 * bits, Flat(old(Slice(inp, 0, inlen))) + suffix, 8 * outlen)
  {
    if outlen > bits / 8 {
      return -1;
    }
    code := HashAtRate(bits, 200 - bits / 4, pad, suffix, out, outlen, inp, inlen);
  }

  method HashAtRate(
    ghost bits: nat, rate: nat, pad: Octet, ghost suffix: Bits,
    out: array?<Octet>, outlen: nat, inp: array?<Octet>, inlen: nat
  ) returns (code: int)
    requires DigestSize(bits) && rate == 200 - bits / 4 && IsDelimiter(pad, suffix)
    requires out != null ==> outlen <= out.Length
    requires inp != null ==> inlen <= inp.Length
    modifies out
    ensures code == if out == null || (inp == null && inlen != 0) then -1 else 0
    ensures out != null && code == -1 ==> out[..] == old(out[..])
    ensures code == 0 ==> out[outlen..] == old(out[outlen..])
    ensures
      code == 0 ==>
        Flat(out[..outlen]) == Fips202.Keccak(2 * bits, Flat(old(Slice(inp, 0, inlen))) + suffix, 8 * outlen)
  {
    ghost var m := Slice(inp, 0, inlen);
    code := Hash(out, outlen, inp, inlen, rate, pad);
    if code == 0 {
      ghost var z := Flat(out[..outlen]);
      KeccakOf(bits, m, suffix, z, rate, pad);
    }
  }

  /** sha3_*: a buffer gets the front of SHA3-bits of the input. */
  method Sha3(bits: nat, out: array<Octet>, inp: array<Octet>) returns (code: int)
    requires DigestSize(bits)
    modifies out
    ensures code == if out.Length > bits / 8 then -1 else 0
    ensures |Fips202.Sha3(bits, Flat(old(inp[..])))| == bits
    ensures code == 0 ==> Flat(out[..]) == Fips202.Sha3(bits, Flat(old(inp[..])))[..8 * out.Length]
  {
    ghost var m := inp[..];
    Sha3Pad();
    assert Slice(inp, 0, inp.Length) == m;
    code := FixedLength(bits, SHA3_PAD, [false, true], out, out.Length, inp, inp.Length);
    assert out[..out.Length] == out[..];
    OutputExtends(2 * bits, Flat(m) + [false, true], if code == 0 then 8 * out.Length else 0, bits);
  }

  /** keccak_*: the same without a suffix. */
  method OriginalKeccak(bits: nat, out: array<Octet>, inp: array<Octet>) returns (code: int)
    requires DigestSize(bits)
    modifies out
    ensures code == if out.Length > bits / 8 then -1 else 0
    ensures |Fips202.Keccak(2 * bits, Flat(old(inp[..])), bits)| == bits
    ensures code == 0 ==> Flat(out[..]) == Fips202.Keccak(2 * bits, Flat(old(inp[..])), bits)[..8 * out.Length]
  {
    ghost var m := inp[..];
    KeccakPad();
    assert Slice(inp, 0, inp.Length) == m && Flat(m) + [] == Flat(m);
    code := FixedLength(bits, KECCAK_PAD, [], out, out.Length, inp, inp.Length);
    assert out[..out.Length] == out[..];
    OutputExtends(2 * bits, Flat(m), if code == 0 then 8 * out.Length else 0, bits);
  }
}
