/** Where the parts of a data item and of a bundle lie, in bytes (src/ar_bundles.erl:236-629). */
module ItemLayout {
  import opened Options
  import opened Bytes
  import opened AvroTags
  import opened DataItems
  import opened Bundles

  //////////////////////////////////////////////////////////////////////////////
  // Signature and owner
  //////////////////////////////////////////////////////////////////////////////

  /** The first byte says how long signature and owner are. */
  predicate Signed(b: Bytes, i: Item)
    requires b != []
  {
    || (b[0] == 1 && |b| >= 1026 && i.signatureType == Rsa4096 && i.signature == b[2..514] && i.owner == b[514..1026])
    || (b[0] == 2 && |b| >= 98 && i.signatureType == Ed25519 && i.signature == b[2..66] && i.owner == b[66..98])
    || (b[0] == 3 && |b| >= 132 && i.signatureType == Ethereum && i.signature == b[2..67] && i.owner == b[67..132])
    || (b[0] == 4 && |b| >= 98 && i.signatureType == Solana && i.signature == b[2..66] && i.owner == b[66..98])
    || (b[0] == 7 && |b| >= 109 && i.signatureType == TypedEthereum && i.signature == b[2..67] && i.owner == b[67..109])
  }

  /** Any header that is read starts with a type and a zero byte, then signature and owner. */
  lemma SignatureLayout(b: Bytes)
    requires DecodeHeader(b).Parsed?
    ensures |b| >= 98 && b[1] == 0 && Signed(b, DecodeHeader(b).value)
  {
  }

  /** Other first bytes, and too few bytes for signature and owner, are refused. */
  lemma UnknownTypeCrashes(b: Bytes)
    requires
      || |b| < 98 || b[1] != 0 || b[0] !in {1, 2, 3, 4, 7}
      || (b[0] == 1 && |b| < 1026) || (b[0] == 3 && |b| < 132) || (b[0] == 7 && |b| < 109)
    ensures DecodeHeader(b) == Crash
  {
  }

  /** Nothing else in them is looked at: what follows the owner decides. */
  lemma RestDecides(b: Bytes, t: SignatureType, n: nat)
    requires |b| >= n > 2 && b[1] == 0
    requires
      || (b[0] == 1 && n == 1026 && t == Rsa4096) || (b[0] == 2 && n == 98 && t == Ed25519)
      || (b[0] == 3 && n == 132 && t == Ethereum) || (b[0] == 4 && n == 98 && t == Solana)
      || (b[0] == 7 && n == 109 && t == TypedEthereum)
    ensures exists signature, owner :: DecodeHeader(b) == DecodeFields(t, signature, owner, b[n..])
  {
    var m := if b[0] == 1 then 514 else if b[0] == 2 || b[0] == 4 then 66 else 67;
    assert DecodeHeader(b) == DecodeFields(t, b[2..m], b[m..n], b[n..]);
  }

  //////////////////////////////////////////////////////////////////////////////
  // Target, anchor and tags
  //////////////////////////////////////////////////////////////////////////////

  /** A field is a zero byte, or a one and 32 bytes. */
  predicate FieldAt(b: Bytes, at: nat, field: Bytes, next: nat) {
    && at < |b|
    && (if b[at] == 0 then field == [] && next == at + 1
        else b[at] == 1 && at + 33 <= |b| && field == b[at + 1..at + 33] && next == at + 33)
  }

  /** After the owner come target, anchor and tags, and then the data. */
  lemma FieldsLayout(t: SignatureType, signature: Bytes, owner: Bytes, b: Bytes) returns (anchor: nat, tags: nat)
    requires DecodeFields(t, signature, owner, b).Parsed?
    ensures
      var i := DecodeFields(t, signature, owner, b).value;
      && i.signatureType == t && i.signature == signature && i.owner == owner
      && FieldAt(b, 0, i.target, anchor) && FieldAt(b, anchor, i.anchor, tags) && tags <= |b|
      && DecodeTags(b[tags..]) == Parsed(i.tags, i.data.bytes)
  {
    anchor := if b[0] == 0 then 1 else 33;
    var rest := b[anchor..];
    FieldIs(b);
    FieldIs(rest);
    tags := anchor + if rest[0] == 0 then 1 else 33;
    assert b[tags..] == rest[tags - anchor..];
    assert rest[0] != 0 ==> rest[1..33] == b[anchor + 1..anchor + 33];
  }

  lemma FieldIs(b: Bytes)
    ensures
      DecodeOptionalField(b)
      == if b == [] || b[0] > 1 || (b[0] == 1 && |b| < 33) then Crash
         else if b[0] == 0 then Parsed([], b[1..]) else Parsed(b[1..33], b[33..])
  {
    if |b| >= 33 {
      assert b[1..][..32] == b[1..33] && b[1..][32..] == b[33..];
    }
  }

  //////////////////////////////////////////////////////////////////////////////
  // Numbers
  //////////////////////////////////////////////////////////////////////////////

  /** A little-endian number is the sum of its bytes, each times a power of 256 (`Limit`). */
  function Weighted(b: Bytes, n: nat): nat
    requires n <= |b|
  {
    if n == 0 then 0 else Weighted(b, n - 1) + b[n - 1] as nat * Limit(n - 1)
  }

  lemma {:induction false} WeightedTail(b: Bytes, n: nat)
    requires 0 < n <= |b|
    ensures Weighted(b, n) == b[0] as nat + 256 * Weighted(b[1..], n - 1)
    decreases n
  {
    if n == 1 {
      assert Weighted(b, 0) == 0 && Weighted(b[1..], 0) == 0 && Limit(0) == 1;
    } else {
      WeightedTail(b, n - 1);
      assert b[1..][n - 2] == b[n - 1];
      Distribute(Weighted(b[1..], n - 2), b[n - 1] as nat, Limit(n - 2));
    }
  }

  lemma Distribute(a: nat, d: nat, p: nat)
    ensures 256 * (a + d * p) == 256 * a + d * (256 * p)
  {
  }

  lemma {:induction false} LittleEndianIsWeighted(b: Bytes)
    ensures FromLittleEndian(b) == Weighted(b, |b|)
  {
    if b != [] {
      LittleEndianIsWeighted(b[1..]);
      WeightedTail(b, |b|);
    }
  }

  //////////////////////////////////////////////////////////////////////////////
  // The index of a bundle
  //////////////////////////////////////////////////////////////////////////////

  lemma Deeper(b: Bytes, n: nat, from: nat, to: nat)
    requires n + from <= n + to <= |b|
    ensures b[n..][from..to] == b[n + from..n + to]
  {
  }

  lemma {:induction false} IndexLayout(count: nat, b: Bytes, k: nat)
    requires k < count
    ensures
      var p := DecodeIndex(count, b);
      p.Parsed? ==>
        && 64 * count <= |b| && |p.value| == count && p.rest == b[64 * count..]
        && p.value[k] == Slot(b[64 * k + 32..64 * k + 64], FromLittleEndian(b[64 * k..64 * k + 32]))
    decreases count
  {
    if DecodeIndex(count, b).Parsed? {
      var more := b[64..];
      if count == 1 {
        assert DecodeIndex(0, more) == Parsed([], more);
      } else {
        IndexLayout(count - 1, more, if k == 0 then 0 else k - 1);
        assert more[64 * (count - 1)..] == b[64 * count..];
        if k > 0 {
          Deeper(b, 64, 64 * (k - 1) + 32, 64 * (k - 1) + 64);
          Deeper(b, 64, 64 * (k - 1), 64 * (k - 1) + 32);
        }
      }
    }
  }

  lemma {:induction false} IndexReads(count: nat, b: Bytes)
    ensures DecodeIndex(count, b).Parsed? <==> 64 * count <= |b|
    decreases count
  {
    if count > 0 && |b| >= 64 {
      IndexReads(count - 1, b[64..]);
    }
  }

  /** The first 32 bytes of a bundle are the number of its items, and then come a size and an ID of 32
      bytes each for every item; the items follow. It is refused exactly if it is shorter than that. */
  lemma BundleLayout(b: Bytes, k: nat)
    ensures
      DecodeBundleHeader(b).Parsed? <==> |b| >= 32 && 32 + 64 * FromLittleEndian(b[..32]) <= |b|
    ensures
      DecodeBundleHeader(b).Parsed? ==>
        var (slots, n) := (DecodeBundleHeader(b).value, FromLittleEndian(b[..32]));
        && |slots| == n && DecodeBundleHeader(b).rest == b[32 + 64 * n..]
        && (k < n ==> slots[k] == Slot(b[64 * k + 64..64 * k + 96], FromLittleEndian(b[64 * k + 32..64 * k + 64])))
  {
    if |b| >= 32 {
      var (n, rest) := (FromLittleEndian(b[..32]), b[32..]);
      IndexReads(n, rest);
      if 64 * n <= |rest| {
        assert rest[64 * n..] == b[32 + 64 * n..];
        if k < n {
          IndexLayout(n, rest, k);
          Deeper(b, 32, 64 * k + 32, 64 * k + 64);
          Deeper(b, 32, 64 * k, 64 * k + 32);
        } else if n > 0 {
          IndexLayout(n, rest, 0);
        }
      }
    }
  }

  //////////////////////////////////////////////////////////////////////////////
  // Tags
  //////////////////////////////////////////////////////////////////////////////

  /** Twice the length, low seven bits first, with the high bit set in all bytes but the last. */
  lemma SizeBytes(n: nat)
    ensures 0 < n < 64 ==> EncodeZigzag(n) == [(2 * n) as Byte]
    ensures 64 <= n < 8192 ==> EncodeZigzag(n) == [(2 * n % 128 + 128) as Byte, (2 * n / 128) as Byte]
    ensures
      8192 <= n < 1048576 ==>
        EncodeZigzag(n) == [(2 * n % 128 + 128) as Byte, (2 * n / 128 % 128 + 128) as Byte, (2 * n / 16384) as Byte]
  {
    if 64 <= n < 1048576 {
      assert EncodeVint(2 * n) == [(2 * n % 128 + 128) as Byte] + EncodeVint(2 * n / 128);
      if n >= 8192 {
        var m := 2 * n / 128;
        assert m / 128 == 2 * n / 16384;
        assert EncodeVint(m) == [(m % 128 + 128) as Byte] + EncodeVint(m / 128);
      }
    }
  }

  function EightByteNumber(n: nat): Bytes
    requires n < 256
  {
    [n as Byte, 0, 0, 0, 0, 0, 0, 0]
  }

  /** In front of the tags stand their number and the size of their block. */
  lemma TagSectionOf(tags: seq<Tag>)
    requires |tags| < 256 && |EncodeTags(tags)| < 256
    ensures TagSection(tags) == EightByteNumber(|tags|) + EightByteNumber(|EncodeTags(tags)|) + EncodeTags(tags)
  {
    EightBytes(|tags|);
    EightBytes(|EncodeTags(tags)|);
  }

  /** The tag block of one short tag, byte by byte. */
  lemma OneTag(name: Bytes, value: Bytes)
    requires 0 < |name| < 50 && 0 < |value| < 50
    ensures
      EncodeTags([Tag(name, value)]) == [2, (2 * |name|) as Byte] + name + [(2 * |value|) as Byte] + value + [0]
  {
    var tags := [Tag(name, value)];
    var (n: Bytes, v: Bytes) := ([(2 * |name|) as Byte], [(2 * |value|) as Byte]);
    SizeBytes(1);
    SizeBytes(|name|);
    SizeBytes(|value|);
    assert tags[1..] == [] && EncodeTagList(tags[1..]) == [];
    assert EncodeTagList(tags) == (n + name) + (v + value) + [];
    assert EncodeTags(tags) == [2] + ((n + name) + (v + value) + []) + [0];
    OneBlock(n, name, v, value);
    assert [2] + n == [2, (2 * |name|) as Byte];
  }

  lemma OneBlock(n: Bytes, name: Bytes, v: Bytes, value: Bytes)
    ensures [2] + ((n + name) + (v + value) + []) + [0] == [2] + n + name + v + value + [0]
  {
  }

  lemma EightBytes(n: nat)
    requires n < 256
    ensures LittleEndian(n, 8) == EightByteNumber(n)
  {
    assert LittleEndian(n, 8) == [n as Byte] + LittleEndian(0, 7);
    SevenZeros();
  }

  lemma SevenZeros()
    ensures LittleEndian(0, 7) == [0, 0, 0, 0, 0, 0, 0]
  {
    assert LittleEndian(0, 1) == [0] + [];
    assert LittleEndian(0, 2) == [0] + LittleEndian(0, 1);
    assert LittleEndian(0, 3) == [0] + LittleEndian(0, 2);
    assert LittleEndian(0, 4) == [0] + LittleEndian(0, 3);
    assert LittleEndian(0, 5) == [0] + LittleEndian(0, 4);
    assert LittleEndian(0, 6) == [0] + LittleEndian(0, 5);
  }

  lemma NoTags()
    ensures TagSection([]) == Zeros(16)
  {
    EightBytes(0);
    assert TagSection([]) == LittleEndian(0, 8) + LittleEndian(0, 8) + [];
  }

  /** Numbers read back: the lowest bit is the sign, and a byte of 128 or more is followed by another. */
  lemma ReadNumber(a: Byte, b: Byte, rest: Bytes)
    ensures
      a < 128 ==>
        DecodeZigzag([a] + rest) == (if a % 2 == 0 then a as int / 2 else -(a as int / 2) - 1, rest)
    ensures
      a >= 128 && b < 128 ==>
        var z := a as int - 128 + 128 * b as int;
        DecodeZigzag([a] + ([b] + rest)) == (if z % 2 == 0 then z / 2 else -(z / 2) - 1, rest)
  {
    assert ([a] + rest)[1..] == rest;
    if a >= 128 && b < 128 {
      assert ([a] + ([b] + rest))[1..] == [b] + rest && ([b] + rest)[1..] == rest;
      assert DecodeVint([a] + ([b] + rest), 0, 1) == DecodeVint([b] + rest, a as int - 128, 128);
    }
  }

  /** The number of tags and the size of their block are read for one thing only: whether both are zero. */
  lemma CountsAreIgnored(b: Bytes, c: Bytes)
    requires |b| == |c| >= 16 && b[16..] == c[16..]
    requires FromLittleEndian(b[..8]) != 0 || FromLittleEndian(b[8..16]) != 0
    requires FromLittleEndian(c[..8]) != 0 || FromLittleEndian(c[8..16]) != 0
    ensures DecodeTags(b) == DecodeTags(c)
    ensures DecodeTags(Zeros(16) + b[16..]) == Parsed([], b[16..])
  {
    var z := Zeros(16) + b[16..];
    assert z[..8] == Zeros(8) && z[8..16] == Zeros(8) && z[16..] == b[16..];
    ZeroIsZero(8);
  }

  lemma {:induction false} ZeroIsZero(n: nat)
    ensures FromLittleEndian(Zeros(n)) == 0
  {
    if n > 0 {
      assert Zeros(n)[1..] == Zeros(n - 1);
      ZeroIsZero(n - 1);
    }
  }

  //////////////////////////////////////////////////////////////////////////////
  // What is written at all
  //////////////////////////////////////////////////////////////////////////////

  /** An item is written exactly if its fields have admissible sizes, its tags are not too long and its
      signature has a code of its own. */
  lemma WrittenExactly(i: Item)
    requires i.data.Binary?
    ensures
      SerializeFlat(i).Some?
      <==>
        && (|i.target| == 0 || |i.target| == 32) && (|i.anchor| == 0 || |i.anchor| == 32)
        && (|i.owner| == 0 || |i.owner| == 32 || |i.owner| == 33 || |i.owner| == 42 || |i.owner| == 65 || |i.owner| == 512)
        && (|i.signature| == 0 || |i.signature| == 64 || |i.signature| == 65 || |i.signature| == 512)
        && (forall k | 0 <= k < |i.tags| :: |i.tags[k].name| <= 1024 && |i.tags[k].value| <= 3072)
        && i.signatureType in {Rsa4096, Ed25519, Ethereum, Solana}
  {
  }

  /** An item is a list bundle if its first tags with these names, in any case, have these values, in any
      case, and it names no map. */
  lemma ListsAreTagged(env: Env, tags: seq<Tag>)
    ensures
      var (format, version) := (FindTag(env, Ascii("bundle-format"), tags), FindTag(env, Ascii("bundle-version"), tags));
      var map' := FindTag(env, Ascii("bundle-map"), tags);
      TypeOf(env, tags)
      == if env.lower(format) != Ascii("binary") || env.lower(version) != Ascii("2.0.0") then BinaryType
         else if map' == [] then ListType else MapType
  {
  }

  /** The value of the first tag with the name. */
  lemma {:induction false} FindFirst(env: Env, key: Bytes, tags: seq<Tag>, k: nat)
    requires k < |tags| && env.lower(tags[k].name) == env.lower(key)
    requires forall j | 0 <= j < k :: env.lower(tags[j].name) != env.lower(key)
    ensures FindTag(env, key, tags) == tags[k].value
    decreases tags
  {
    if k > 0 {
      FindFirst(env, key, tags[1..], k - 1);
    }
  }

  /** A list gets the two tags in front that it lacks. */
  lemma TagsInFront(env: Env, tags: seq<Tag>)
    requires !HasTag(env, Ascii("bundle-format"), tags) && !HasTag(env, Ascii("bundle-version"), tags)
    ensures
      WithBundleTags(env, tags)
      == [Tag(Ascii("bundle-format"), Ascii("binary")), Tag(Ascii("bundle-version"), Ascii("2.0.0"))] + tags
  {
  }
}
