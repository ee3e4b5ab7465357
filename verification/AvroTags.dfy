/** The Avro encoding of data-item tags (src/ar_bundles.erl:348-413 and 581-627). */
module AvroTags {
  import opened Bytes

  /** What a decoder returns: a value and the bytes after it, or an Erlang exception. */
  datatype Parsed<+T> = Parsed(value: T, rest: Bytes) | Crash

  datatype Tag = Tag(name: Bytes, value: Bytes)

  //////////////////////////////////////////////////////////////////////////////
  // Variable-length integers
  //////////////////////////////////////////////////////////////////////////////

  /** Seven bits a byte, low bits first; zero is no byte at all. */
  function EncodeVint(n: nat): Bytes {
    if n == 0 then []
    else if n < 128 then [n as Byte]
    else [(n % 128 + 128) as Byte] + EncodeVint(n / 128)
  }

  /** `scale` is 128 to the number of bytes read, and more than `result`. */
  function DecodeVint(b: Bytes, result: nat, scale: nat): (p: (nat, Bytes))
    ensures |p.1| <= |b| && (b != [] ==> |p.1| < |b|)
    decreases |b|
  {
    if b == [] then (result, [])
    else
      var byte := b[0] as nat;
      var result' := result + (byte % 128) * scale;
      if byte < 128 then (result', b[1..]) else DecodeVint(b[1..], result', scale * 128)
  }

  lemma {:induction false} VintRoundTrip(n: nat, suffix: Bytes, result: nat, scale: nat)
    requires n > 0
    ensures DecodeVint(EncodeVint(n) + suffix, result, scale) == (result + n * scale, suffix)
    decreases n
  {
    if n < 128 {
      VintLast(n, suffix, result, scale);
    } else {
      var (q, r) := (n / 128, n % 128);
      VintRoundTrip(q, suffix, result + r * scale, scale * 128);
      VintMore(q, r, EncodeVint(q) + suffix, result, scale);
      assert EncodeVint(n) + suffix == [(r + 128) as Byte] + (EncodeVint(q) + suffix);
      ScaleSplit(q, r, scale);
    }
  }

  lemma VintLast(n: nat, suffix: Bytes, result: nat, scale: nat)
    requires 0 < n < 128
    ensures DecodeVint(EncodeVint(n) + suffix, result, scale) == (result + n * scale, suffix)
  {
    assert (EncodeVint(n) + suffix)[1..] == suffix;
  }

  lemma VintMore(q: nat, r: nat, rest: Bytes, result: nat, scale: nat)
    requires r < 128
    ensures DecodeVint([(r + 128) as Byte] + rest, result, scale) == DecodeVint(rest, result + r * scale, scale * 128)
  {
    assert ([(r + 128) as Byte] + rest)[1..] == rest;
  }

  lemma ScaleSplit(q: nat, r: nat, scale: nat)
    ensures r * scale + q * (scale * 128) == (q * 128 + r) * scale
  {
    assert q * (scale * 128) == (q * 128) * scale;
  }

  function EncodeZigzag(n: nat): Bytes { EncodeVint(2 * n) }

  function DecodeZigzag(b: Bytes): (p: (int, Bytes))
    ensures |p.1| <= |b| && (b != [] ==> |p.1| < |b|)
  {
    var (z, rest) := DecodeVint(b, 0, 1);
    (if z % 2 == 1 then -(z / 2) - 1 else z / 2, rest)
  }

  lemma ZigzagRoundTrip(n: nat, suffix: Bytes)
    requires n > 0
    ensures DecodeZigzag(EncodeZigzag(n) + suffix) == (n, suffix)
  {
    VintRoundTrip(2 * n, suffix, 0, 1);
  }

  //////////////////////////////////////////////////////////////////////////////
  // Tags
  //////////////////////////////////////////////////////////////////////////////

  /** A name or a value; an empty one is a zero byte. */
  function EncodeSized(s: Bytes): Bytes {
    if s == [] then [0] else EncodeZigzag(|s|) + s
  }

  function EncodeTagList(tags: seq<Tag>): Bytes {
    if tags == [] then [] else EncodeSized(tags[0].name) + EncodeSized(tags[0].value) + EncodeTagList(tags[1..])
  }

  function EncodeTags(tags: seq<Tag>): Bytes {
    if tags == [] then [] else EncodeZigzag(|tags|) + EncodeTagList(tags) + [0]
  }

  /** The tags of an item with their two sizes in front. */
  function TagSection(tags: seq<Tag>): Bytes {
    LittleEndian(|tags|, 8) + LittleEndian(|EncodeTags(tags)|, 8) + EncodeTags(tags)
  }

  /** `<<S:Size/binary, Rest/binary>>`, which no negative or too large size matches. */
  function Take(b: Bytes, size: int): Parsed<Bytes> {
    if 0 <= size <= |b| then Parsed(b[..size], b[size..]) else Crash
  }

  /** A name of size zero ends the list, whatever the count says. */
  function DecodeTagList(b: Bytes, count: int): (p: Parsed<seq<Tag>>)
    ensures p.Parsed? ==> |p.rest| <= |b|
    decreases |b|
  {
    if b == [] then Parsed([], [])
    else if count == 0 then Parsed([], b)
    else
      var (nameSize, afterSize) := DecodeZigzag(b);
      if nameSize == 0 then Parsed([], afterSize)
      else
        match Take(afterSize, nameSize)
        case Crash => Crash
        case Parsed(name, afterName) =>
          var (valueSize, afterValueSize) := DecodeZigzag(afterName);
          match Take(afterValueSize, valueSize)
          case Crash => Crash
          case Parsed(value, afterValue) =>
            match DecodeTagList(afterValue, count - 1)
            case Crash => Crash
            case Parsed(tags, rest) => Parsed([Tag(name, value)] + tags, rest)
  }

  /** Apart from the case that both are zero, the two sizes in front are not looked at. */
  function DecodeTags(b: Bytes): (p: Parsed<seq<Tag>>)
    ensures p.Parsed? ==> |p.rest| <= |b|
  {
    if |b| < 16 then Crash
    else if FromLittleEndian(b[..8]) == 0 && FromLittleEndian(b[8..16]) == 0 then Parsed([], b[16..])
    else
      var (count, blocks) := DecodeZigzag(b[16..]);
      match DecodeTagList(blocks, count)
      case Crash => Crash
      case Parsed(tags, rest) =>
        var (end, after) := DecodeZigzag(rest);
        if end == 0 then Parsed(tags, after) else Crash
  }

  predicate Named(tags: seq<Tag>) {
    forall i | 0 <= i < |tags| :: tags[i].name != []
  }

  lemma SizedRoundTrip(s: Bytes, suffix: Bytes)
    ensures
      var (size, after) := DecodeZigzag(EncodeSized(s) + suffix);
      size == |s| && Take(after, size) == Parsed(s, suffix)
  {
    if s == [] {
      assert ([0] + suffix)[1..] == suffix;
    } else {
      assert EncodeSized(s) + suffix == EncodeZigzag(|s|) + (s + suffix);
      ZigzagRoundTrip(|s|, s + suffix);
    }
  }

  lemma SizedNonEmpty(s: Bytes, suffix: Bytes)
    ensures EncodeSized(s) + suffix != []
  {
  }

  function Before(t: Tag, decoded: Parsed<seq<Tag>>): Parsed<seq<Tag>> {
    if decoded.Crash? then Crash else Parsed([t] + decoded.value, decoded.rest)
  }

  /** Decoding takes one tag off the front. */
  lemma TagStep(t: Tag, more: Bytes, count: int)
    requires t.name != [] && count != 0
    ensures
      DecodeTagList(EncodeSized(t.name) + (EncodeSized(t.value) + more), count) == Before(t, DecodeTagList(more, count - 1))
  {
    SizedRoundTrip(t.name, EncodeSized(t.value) + more);
    SizedRoundTrip(t.value, more);
    SizedNonEmpty(t.name, EncodeSized(t.value) + more);
  }

  lemma TagListSplit(tags: seq<Tag>, suffix: Bytes)
    requires tags != []
    ensures
      EncodeTagList(tags) + suffix
      == EncodeSized(tags[0].name) + (EncodeSized(tags[0].value) + (EncodeTagList(tags[1..]) + suffix))
  {
  }

  /** Decoding an encoded list takes its first tag off the front. */
  lemma TagFront(tags: seq<Tag>, suffix: Bytes, q: Parsed<seq<Tag>>) returns (p: Parsed<seq<Tag>>)
    requires tags != [] && tags[0].name != []
    requires q == DecodeTagList(EncodeTagList(tags[1..]) + suffix, |tags[1..]|)
    ensures p == DecodeTagList(EncodeTagList(tags) + suffix, |tags|) && p == Before(tags[0], q)
  {
    TagListSplit(tags, suffix);
    TagStep(tags[0], EncodeTagList(tags[1..]) + suffix, |tags|);
    p := Before(tags[0], q);
  }

  predicate Yields(p: Parsed<seq<Tag>>, tags: seq<Tag>, rest: Bytes) {
    p == Parsed(tags, rest)
  }

  lemma YieldsBefore(tags: seq<Tag>, p: Parsed<seq<Tag>>, rest: Bytes)
    requires tags != [] && Yields(p, tags[1..], rest)
    ensures Yields(Before(tags[0], p), tags, rest)
  {
    assert [tags[0]] + tags[1..] == tags;
  }

  lemma NoMoreTags(suffix: Bytes)
    ensures Yields(DecodeTagList(EncodeTagList([]) + suffix, 0), [], suffix)
  {
    assert [] + suffix == suffix;
  }

  /** Induction over the list, on what the decoder returned for the rest of it. */
  lemma {:induction false} TagListRoundTrip(tags: seq<Tag>, suffix: Bytes) returns (p: Parsed<seq<Tag>>)
    requires Named(tags)
    ensures p == DecodeTagList(EncodeTagList(tags) + suffix, |tags|) && Yields(p, tags, suffix)
    decreases tags
  {
    if tags == [] {
      NoMoreTags(suffix);
      p := DecodeTagList(EncodeTagList(tags) + suffix, |tags|);
    } else {
      var q := TagListRoundTrip(tags[1..], suffix);
      p := TagFront(tags, suffix, q);
      YieldsBefore(tags, q, suffix);
    }
  }

  lemma UnnamedStops(more: Bytes, count: int)
    requires count != 0
    ensures DecodeTagList(EncodeSized([]) + more, count) == Parsed([], more)
  {
    var b := [0] + more;
    assert b[1..] == more;
    assert DecodeZigzag(b) == (0, more);
  }

  predicate Shorter(p: Parsed<seq<Tag>>, n: int) {
    p.Parsed? && |p.value| < n
  }

  lemma StopsHere(tags: seq<Tag>, suffix: Bytes)
    requires tags != [] && tags[0].name == []
    ensures Shorter(DecodeTagList(EncodeTagList(tags) + suffix, |tags|), |tags|)
  {
    TagListSplit(tags, suffix);
    UnnamedStops(EncodeSized(tags[0].value) + (EncodeTagList(tags[1..]) + suffix), |tags|);
  }

  lemma StopsLater(t: Tag, p: Parsed<seq<Tag>>, n: int)
    requires Shorter(p, n - 1)
    ensures Shorter(Before(t, p), n)
  {
  }

  /** An empty name ends the decoded list at its tag. */
  lemma {:induction false} TagListStops(tags: seq<Tag>, suffix: Bytes)
    requires !Named(tags)
    ensures Shorter(DecodeTagList(EncodeTagList(tags) + suffix, |tags|), |tags|)
    decreases tags
  {
    if tags[0].name == [] {
      StopsHere(tags, suffix);
    } else {
      TagListStops(tags[1..], suffix);
      var q := DecodeTagList(EncodeTagList(tags[1..]) + suffix, |tags[1..]|);
      var p := TagFront(tags, suffix, q);
      StopsLater(tags[0], q, |tags|);
    }
  }

  lemma NonZeroCount(n: nat)
    requires 0 < n < Limit(8)
    ensures FromLittleEndian(LittleEndian(n, 8)) != 0
  {
    LittleEndianRoundTrip(n, 8);
  }

  lemma {:induction false} ZeroCount(width: nat)
    ensures FromLittleEndian(LittleEndian(0, width)) == 0
    decreases width
  {
    if width > 0 {
      ZeroCount(width - 1);
    }
  }

  lemma Regroup(a: Bytes, b: Bytes, c: Bytes, d: Bytes, e: Bytes, suffix: Bytes)
    requires |a| == 8 && |b| == 8
    ensures
      var all := a + b + (c + d + e) + suffix;
      all[..8] == a && all[8..16] == b && all[16..] == c + (d + (e + suffix))
  {
  }

  lemma BlockSplit(tags: seq<Tag>, suffix: Bytes)
    requires tags != []
    ensures
      var b := TagSection(tags) + suffix;
      && |b| >= 16 && b[..8] == LittleEndian(|tags|, 8)
      && b[16..] == EncodeZigzag(|tags|) + (EncodeTagList(tags) + ([0] + suffix))
  {
    Regroup(LittleEndian(|tags|, 8), LittleEndian(|EncodeTags(tags)|, 8), EncodeZigzag(|tags|), EncodeTagList(tags), [0], suffix);
  }

  /** What the decoder makes of a block with `count` in front. */
  lemma DecodeBlock(b: Bytes, count: nat, blocks: Bytes)
    requires |b| >= 16 && FromLittleEndian(b[..8]) != 0 && count > 0 && b[16..] == EncodeZigzag(count) + blocks
    ensures
      DecodeTags(b)
      == match DecodeTagList(blocks, count)
         case Crash => Crash
         case Parsed(tags, rest) =>
           var (end, after) := DecodeZigzag(rest);
           if end == 0 then Parsed(tags, after) else Crash
  {
    ZigzagRoundTrip(count, blocks);
  }

  /** The tag block of an item is read back, with whatever follows it, exactly when every tag has a
      name. */
  lemma TagsRoundTrip(tags: seq<Tag>, suffix: Bytes)
    requires |tags| < Limit(8)
    ensures DecodeTags(TagSection(tags) + suffix) == Parsed(tags, suffix) <==> Named(tags)
  {
    if tags == [] {
      NoTags(suffix);
    } else {
      NonZeroCount(|tags|);
      BlockSplit(tags, suffix);
      DecodeBlock(TagSection(tags) + suffix, |tags|, EncodeTagList(tags) + ([0] + suffix));
      if Named(tags) {
        var p := TagListRoundTrip(tags, [0] + suffix);
        assert ([0] + suffix)[1..] == suffix;
      } else {
        TagListStops(tags, [0] + suffix);
      }
    }
  }

  lemma NoTags(suffix: Bytes)
    ensures DecodeTags(TagSection([]) + suffix) == Parsed([], suffix)
  {
    ZeroCount(8);
    Regroup(LittleEndian(0, 8), LittleEndian(0, 8), [], [], [], suffix);
    assert [] + ([] + ([] + suffix)) == suffix;
    assert TagSection([]) == LittleEndian(0, 8) + LittleEndian(0, 8) + ([] + [] + []);
  }
}
