/** What is decoded from the front of a header that is cut off (src/ar_bundles.erl:438-462 and
    575-629): nothing, the whole header, or one with fewer tags. */
module HeaderCuts {
  import opened Options
  import opened Bytes
  import opened AvroTags
  import opened DataItems
  import opened Remainders

  //////////////////////////////////////////////////////////////////////////////
  // What follows does not matter if something is left over
  //////////////////////////////////////////////////////////////////////////////

  /** With more bytes behind, the same is decoded and more is left over. */
  predicate Longer<T(==)>(p: Parsed<T>, q: Parsed<T>, more: Bytes) {
    p.Parsed? && p.rest != [] ==> q == Parsed(p.value, p.rest + more)
  }

  lemma {:induction false} LongerVint(b: Bytes, more: Bytes, result: nat, scale: nat)
    ensures
      var (n, rest) := DecodeVint(b, result, scale);
      rest != [] ==> DecodeVint(b + more, result, scale) == (n, rest + more)
    decreases |b|
  {
    if b != [] {
      assert (b + more)[1..] == b[1..] + more;
      var byte := b[0] as nat;
      LongerVint(b[1..], more, result + (byte % 128) * scale, scale * 128);
    }
  }

  lemma LongerZigzag(b: Bytes, more: Bytes)
    ensures var (n, rest) := DecodeZigzag(b); rest != [] ==> DecodeZigzag(b + more) == (n, rest + more)
  {
    LongerVint(b, more, 0, 1);
  }

  lemma LongerTake(b: Bytes, more: Bytes, size: int)
    ensures Take(b, size).Parsed? ==> Take(b + more, size) == Parsed(Take(b, size).value, Take(b, size).rest + more)
  {
    if 0 <= size <= |b| {
      assert (b + more)[..size] == b[..size] && (b + more)[size..] == b[size..] + more;
    }
  }

  lemma {:induction false} LongerTagList(b: Bytes, more: Bytes, count: int)
    ensures Longer(DecodeTagList(b, count), DecodeTagList(b + more, count), more)
    decreases |b|
  {
    if b != [] && count != 0 && DecodeTagList(b, count).Parsed? && DecodeTagList(b, count).rest != [] {
      var (nameSize, afterSize) := DecodeZigzag(b);
      LongerZigzag(b, more);
      if nameSize != 0 {
        LongerTake(afterSize, more, nameSize);
        var afterName := Take(afterSize, nameSize).rest;
        var (valueSize, afterValueSize) := DecodeZigzag(afterName);
        LongerZigzag(afterName, more);
        LongerTake(afterValueSize, more, valueSize);
        LongerTagList(Take(afterValueSize, valueSize).rest, more, count - 1);
      }
    }
  }

  lemma LongerTags(b: Bytes, more: Bytes)
    ensures Longer(DecodeTags(b), DecodeTags(b + more), more)
  {
    if |b| >= 16 {
      assert (b + more)[..8] == b[..8] && (b + more)[8..16] == b[8..16] && (b + more)[16..] == b[16..] + more;
      if FromLittleEndian(b[..8]) != 0 || FromLittleEndian(b[8..16]) != 0 {
        var (count, blocks) := DecodeZigzag(b[16..]);
        LongerZigzag(b[16..], more);
        LongerTagList(blocks, more, count);
        if DecodeTagList(blocks, count).Parsed? {
          LongerZigzag(DecodeTagList(blocks, count).rest, more);
        }
      }
    }
  }

  lemma LongerField(b: Bytes, more: Bytes)
    ensures
      var p := DecodeOptionalField(b);
      p.Parsed? ==> DecodeOptionalField(b + more) == Parsed(p.value, p.rest + more)
  {
    if b != [] {
      assert (b + more)[1..] == b[1..] + more;
      LongerTake(b[1..], more, 32);
    }
  }

  /** Apart from the data, which are all that is left over. */
  predicate LongerItem(p: Parsed<Item>, q: Parsed<Item>, more: Bytes) {
    p.Parsed? && p.rest != [] ==> q == Parsed(p.value.(data := Binary(p.rest + more)), p.rest + more)
  }

  lemma LongerFields(t: SignatureType, signature: Bytes, owner: Bytes, b: Bytes, more: Bytes)
    ensures LongerItem(DecodeFields(t, signature, owner, b), DecodeFields(t, signature, owner, b + more), more)
  {
    LongerField(b, more);
    if DecodeOptionalField(b).Parsed? {
      var afterTarget := DecodeOptionalField(b).rest;
      LongerField(afterTarget, more);
      if DecodeOptionalField(afterTarget).Parsed? {
        LongerTags(DecodeOptionalField(afterTarget).rest, more);
      }
    }
  }

  lemma LongerHeader(b: Bytes, more: Bytes)
    ensures LongerItem(DecodeHeader(b), DecodeHeader(b + more), more)
  {
    if DecodeHeader(b).Parsed? {
      var t := TypeOfCode(b[0]).value;
      var (m, n) := (2 + SignatureSize(t), 2 + SignatureSize(t) + OwnerSize(t));
      assert (b + more)[2..m] == b[2..m] && (b + more)[m..n] == b[m..n] && (b + more)[n..] == b[n..] + more;
      LongerFields(t, b[2..m], b[m..n], b[n..], more);
    }
  }

  /** Of a header that is cut off nothing is left over. */
  lemma CutLeavesNothing(b: Bytes, more: Bytes)
    requires DecodeHeader(b + more).Parsed? && DecodeHeader(b + more).rest == []
    ensures DecodeHeader(b).Parsed? ==> DecodeHeader(b).rest == []
  {
    LongerHeader(b, more);
  }

  //////////////////////////////////////////////////////////////////////////////
  // Where the cut falls
  //////////////////////////////////////////////////////////////////////////////

  function Power128(m: nat): (p: nat)
    ensures p >= 1
  {
    if m == 0 then 1 else 128 * Power128(m - 1)
  }

  lemma RemainderSplit(q: nat, r: nat, d: nat)
    requires r < 128 && d > 0
    ensures (128 * q + r) % (128 * d) == r + 128 * (q % d)
  {
    var (k, x) := (q / d, q % d);
    assert q == d * k + x;
    assert 128 * (d * k) == k * (128 * d);
    DivModUnique(128 * q + r, 128 * d, k, r + 128 * x);
  }

  lemma CutScale(q: nat, r: nat, p: nat, result: nat, scale: nat)
    requires r < 128 && p > 0
    ensures
      result + r * scale + (q % p) * (scale * 128)
      == result + ((128 * q + r) % (128 * p)) * scale
  {
    RemainderSplit(q, r, p);
    ScaleSplit(q % p, r, scale);
  }

  /** Of a number that is cut off the low bits are read. */
  lemma {:induction false} CutVint(n: nat, m: nat, result: nat, scale: nat)
    requires m <= |EncodeVint(n)|
    ensures DecodeVint(EncodeVint(n)[..m], result, scale) == (result + (n % Power128(m)) * scale, [])
    decreases m
  {
    if m == 0 {
      assert n % 1 == 0 && 0 * scale == 0;
    } else if n < 128 {
      CutLast(n, result, scale);
    } else {
      var (q, r) := (n / 128, n % 128);
      var rest := EncodeVint(q)[..m - 1];
      assert EncodeVint(n)[..m] == [(r + 128) as Byte] + rest;
      VintMore(q, r, rest, result, scale);
      CutVint(q, m - 1, result + r * scale, scale * 128);
      CutScale(q, r, Power128(m - 1), result, scale);
    }
  }

  lemma CutLast(n: nat, result: nat, scale: nat)
    requires 0 < n < 128
    ensures DecodeVint(EncodeVint(n)[..1], result, scale) == (result + (n % Power128(1)) * scale, [])
  {
    assert EncodeVint(n)[..1] == [n as Byte] && [n as Byte][1..] == [];
    assert Power128(1) == 128;
  }

  /** A size of which `m` bytes are there reads as zero. */
  predicate ReadsZero(size: nat, m: nat) { (2 * size) % Power128(m) == 0 }

  lemma {:induction false} VintFits(n: nat)
    ensures n < Power128(|EncodeVint(n)|)
    decreases n
  {
    if n >= 128 {
      VintFits(n / 128);
    } else if n > 0 {
      assert Power128(1) == 128;
    }
  }

  lemma {:induction false} PowerGrows(m: nat, n: nat)
    requires m <= n
    ensures Power128(m) <= Power128(n)
    decreases n - m
  {
    if m < n {
      PowerGrows(m, n - 1);
    }
  }

  lemma EvenRemainder(n: nat, p: nat)
    requires p > 0
    ensures ((2 * n) % (128 * p)) % 2 == 0
  {
    var k := (2 * n) / (128 * p);
    assert 2 * n == (128 * p) * k + (2 * n) % (128 * p);
    assert (128 * p) * k == 2 * (64 * (p * k));
  }

  /** All of a size is read, and part of what it is the size of. */
  lemma WholeSize(s: Bytes, m: nat)
    requires s != [] && |EncodeZigzag(|s|)| <= m < |EncodeSized(s)|
    ensures !ReadsZero(|s|, m)
    ensures var (size, after) := DecodeZigzag(EncodeSized(s)[..m]); size == |s| && |after| < size
  {
    var z := |EncodeZigzag(|s|)|;
    assert EncodeSized(s)[..m] == EncodeZigzag(|s|) + s[..m - z];
    ZigzagRoundTrip(|s|, s[..m - z]);
    VintFits(2 * |s|);
    PowerGrows(z, m);
    DivModUnique(2 * |s|, Power128(m), 0, 2 * |s|);
  }

  lemma PartOfSize(s: Bytes, m: nat)
    requires s != [] && m < |EncodeZigzag(|s|)|
    ensures
      var (size, after) := DecodeZigzag(EncodeSized(s)[..m]);
      after == [] && size >= 0 && (size == 0 <==> ReadsZero(|s|, m))
  {
    assert EncodeSized(s)[..m] == EncodeVint(2 * |s|)[..m];
    CutVint(2 * |s|, m, 0, 1);
    if m > 0 {
      EvenRemainder(|s|, Power128(m - 1));
    } else {
      assert (2 * |s|) % 1 == 0;
    }
  }

  /** What is read of a non-empty name or value from its first `m` bytes: a size of zero, or a size
      that is too large for what is there. */
  lemma CutSized(s: Bytes, m: nat)
    requires s != [] && m < |EncodeSized(s)|
    ensures
      var (size, after) := DecodeZigzag(EncodeSized(s)[..m]);
      if ReadsZero(|s|, m) then size == 0 && after == [] else size != 0 && Take(after, size).Crash?
  {
    if m < |EncodeZigzag(|s|)| {
      PartOfSize(s, m);
    } else {
      WholeSize(s, m);
    }
  }

  /** The tags that are read from the first `m` bytes of a list; nothing if it cannot be read. */
  function CutList(tags: seq<Tag>, m: nat): (cut: Option<seq<Tag>>)
    requires m <= |EncodeTagList(tags)|
    decreases tags
  {
    if m == 0 then Some([])
    else
      var t := tags[0];
      var (name, value) := (|EncodeSized(t.name)|, |EncodeSized(t.value)|);
      if m < name then if ReadsZero(|t.name|, m) then Some([]) else None
      else if m == name then Some([Tag(t.name, [])])
      else if m < name + value then if ReadsZero(|t.value|, m - name) then Some([Tag(t.name, [])]) else None
      else
        match CutList(tags[1..], m - name - value)
        case None => None
        case Some(rest) => Some([t] + rest)
  }

  /** What decoding yields: these tags and no bytes, or an exception. */
  predicate Reads(p: Parsed<seq<Tag>>, cut: Option<seq<Tag>>) {
    p == match cut case None => Crash case Some(tags) => Parsed(tags, [])
  }

  lemma CutInName(t: Tag, more: Bytes, m: nat, count: int)
    requires t.name != [] && count != 0 && 0 < m < |EncodeSized(t.name)|
    ensures Reads(DecodeTagList((EncodeSized(t.name) + more)[..m], count), if ReadsZero(|t.name|, m) then Some([]) else None)
  {
    assert (EncodeSized(t.name) + more)[..m] == EncodeSized(t.name)[..m];
    CutSized(t.name, m);
  }

  lemma CutInValue(t: Tag, more: Bytes, m: nat, count: int)
    requires t.name != [] && count != 0 && m < |EncodeSized(t.value)|
    ensures
      Reads(DecodeTagList(EncodeSized(t.name) + (EncodeSized(t.value) + more)[..m], count),
            if m == 0 || ReadsZero(|t.value|, m) then Some([Tag(t.name, [])]) else None)
  {
    var rest := (EncodeSized(t.value) + more)[..m];
    SizedRoundTrip(t.name, rest);
    assert [Tag(t.name, [])] + [] == [Tag(t.name, [])];
    if m == 0 {
      assert rest == [] && Take(rest, 0) == Parsed([], []);
    } else {
      assert rest == EncodeSized(t.value)[..m];
      CutSized(t.value, m);
    }
  }

  lemma CutOfThree(a: Bytes, b: Bytes, c: Bytes, n: nat)
    requires n <= |a| + |b| + |c|
    ensures
      (a + b + c)[..n]
      == if n < |a| then (a + (b + c))[..n]
         else if n < |a| + |b| then a + (b + c)[..n - |a|]
         else a + (b + c[..n - |a| - |b|])
  {
    assert a + b + c == a + (b + c);
  }

  lemma CutLater(t: Tag, more: Bytes, count: int, cut: Option<seq<Tag>>)
    requires t.name != [] && count != 0 && Reads(DecodeTagList(more, count - 1), cut)
    ensures
      Reads(DecodeTagList(EncodeSized(t.name) + (EncodeSized(t.value) + more), count),
            if cut.None? then None else Some([t] + cut.value))
  {
    TagStep(t, more, count);
  }

  lemma {:induction false} CutTagList(tags: seq<Tag>, m: nat)
    requires Named(tags) && m <= |EncodeTagList(tags)|
    ensures Reads(DecodeTagList(EncodeTagList(tags)[..m], |tags|), CutList(tags, m))
    decreases tags
  {
    if m > 0 {
      var t := tags[0];
      var (name, value, more) := (EncodeSized(t.name), EncodeSized(t.value), EncodeTagList(tags[1..]));
      CutOfThree(name, value, more, m);
      if m < |name| {
        CutInName(t, value + more, m, |tags|);
      } else if m < |name| + |value| {
        CutInValue(t, more, m - |name|, |tags|);
      } else {
        var n := m - |name| - |value|;
        CutTagList(tags[1..], n);
        CutLater(t, more[..n], |tags|, CutList(tags[1..], n));
      }
    }
  }

  /** The tags that are read if `m` bytes of the block are there, which follows the two sizes. */
  function CutBlock(tags: seq<Tag>, m: nat): Option<seq<Tag>>
    requires m < |EncodeTags(tags)|
  {
    var count := |EncodeZigzag(|tags|)|;
    if m <= count then Some([]) else CutList(tags, m - count)
  }

  lemma CutInCount(tags: seq<Tag>, m: nat, b: Bytes)
    requires tags != [] && m <= |EncodeZigzag(|tags|)| && b == EncodeZigzag(|tags|)[..m]
    ensures DecodeZigzag(b).1 == []
  {
    CutVint(2 * |tags|, m, 0, 1);
  }

  lemma CutOfTwo(a: Bytes, b: Bytes, c: Bytes, n: nat)
    requires n <= |a| + |b|
    ensures (a + (b + c))[..n] == if n <= |a| then a[..n] else a + b[..n - |a|]
  {
  }

  lemma CutSlices(all: Bytes, m: nat)
    requires |all| >= 16 + m
    ensures all[..16 + m][..8] == all[..8] && all[..16 + m][16..] == all[16..][..m]
  {
  }

  /** The front of the tags with their sizes. */
  lemma CutSection(tags: seq<Tag>, m: nat)
    requires tags != [] && m < |EncodeTags(tags)|
    ensures
      var (b, count) := (TagSection(tags)[..16 + m], EncodeZigzag(|tags|));
      && |b| == 16 + m && b[..8] == LittleEndian(|tags|, 8)
      && b[16..] == if m <= |count| then count[..m] else count + EncodeTagList(tags)[..m - |count|]
  {
    BlockSplit(tags, []);
    assert TagSection(tags) + [] == TagSection(tags);
    CutSlices(TagSection(tags), m);
    CutOfTwo(EncodeZigzag(|tags|), EncodeTagList(tags), [0] + [], m);
  }

  lemma AfterCount(count: nat, blocks: Bytes, b: Bytes, cut: Option<seq<Tag>>)
    requires count > 0 && Reads(DecodeTagList(blocks, count), cut)
    requires |b| >= 16 && FromLittleEndian(b[..8]) != 0 && b[16..] == EncodeZigzag(count) + blocks
    ensures Reads(DecodeTags(b), cut)
  {
    DecodeBlock(b, count, blocks);
  }

  lemma CutAfterCount(tags: seq<Tag>, n: nat, b: Bytes)
    requires Named(tags) && tags != [] && n <= |EncodeTagList(tags)|
    requires |b| >= 16 && FromLittleEndian(b[..8]) != 0 && b[16..] == EncodeZigzag(|tags|) + EncodeTagList(tags)[..n]
    ensures Reads(DecodeTags(b), CutList(tags, n))
  {
    CutTagList(tags, n);
    AfterCount(|tags|, EncodeTagList(tags)[..n], b, CutList(tags, n));
  }

  lemma CutBeforeCount(tags: seq<Tag>, m: nat, b: Bytes)
    requires tags != [] && m <= |EncodeZigzag(|tags|)|
    requires |b| >= 16 && FromLittleEndian(b[..8]) != 0 && b[16..] == EncodeZigzag(|tags|)[..m]
    ensures DecodeTags(b) == Parsed([], [])
  {
    CutInCount(tags, m, b[16..]);
  }

  lemma CutTags(tags: seq<Tag>, m: nat)
    requires Named(tags) && |tags| < Limit(8) && m < |EncodeTags(tags)|
    ensures Reads(DecodeTags(TagSection(tags)[..16 + m]), CutBlock(tags, m))
  {
    var b := TagSection(tags)[..16 + m];
    CutSection(tags, m);
    NonZeroCount(|tags|);
    if m <= |EncodeZigzag(|tags|)| {
      CutBeforeCount(tags, m, b);
    } else {
      CutAfterCount(tags, m - |EncodeZigzag(|tags|)|, b);
    }
  }

  /** The bytes in front of the tags and their two sizes. */
  function FieldsOf(i: Item): Bytes {
    OptionalField(i.target) + OptionalField(i.anchor)
  }

  lemma CutField(f: Bytes, more: Bytes, n: nat)
    requires |f| in {0, 32} && n < |OptionalField(f)|
    ensures DecodeOptionalField((OptionalField(f) + more)[..n]).Crash?
  {
    assert (OptionalField(f) + more)[..n] == OptionalField(f)[..n];
  }

  /** What decoding the fields after the owner yields if the tags yield `cut`. */
  predicate ReadsItem(p: Parsed<Item>, i: Item, cut: Option<seq<Tag>>) {
    p == match cut case None => Crash case Some(tags) => Parsed(i.(tags := tags, data := Binary([])), [])
  }

  lemma CutAtTags(i: Item, b: Bytes, cut: Option<seq<Tag>>)
    requires |i.target| in {0, 32} && |i.anchor| in {0, 32} && Reads(DecodeTags(b), cut)
    ensures
      ReadsItem(DecodeFields(i.signatureType, i.signature, i.owner, OptionalField(i.target) + (OptionalField(i.anchor) + b)),
                i, cut)
  {
    OptionalFieldRoundTrip(i.target, OptionalField(i.anchor) + b);
    OptionalFieldRoundTrip(i.anchor, b);
  }

  lemma CutAtAnchor(i: Item, more: Bytes, n: nat)
    requires |i.target| in {0, 32} && |i.anchor| in {0, 32} && n < |OptionalField(i.anchor)|
    ensures
      DecodeFields(i.signatureType, i.signature, i.owner, OptionalField(i.target) + (OptionalField(i.anchor) + more)[..n]).Crash?
  {
    OptionalFieldRoundTrip(i.target, (OptionalField(i.anchor) + more)[..n]);
    CutField(i.anchor, more, n);
  }

  /** The tags that are read if `n` bytes of the fields after the owner are there. */
  function CutBack(i: Item, n: nat): Option<seq<Tag>>
    requires n < |FieldsOf(i)| + |TagSection(i.tags)|
  {
    if n < |FieldsOf(i)| + 16 then None else CutBlock(i.tags, n - |FieldsOf(i)| - 16)
  }

  lemma CutAtTarget(i: Item, more: Bytes, n: nat)
    requires |i.target| in {0, 32} && n < |OptionalField(i.target)|
    ensures DecodeFields(i.signatureType, i.signature, i.owner, (OptionalField(i.target) + more)[..n]).Crash?
  {
    CutField(i.target, more, n);
  }

  lemma CutFields(i: Item, n: nat)
    requires |i.target| in {0, 32} && |i.anchor| in {0, 32} && Named(i.tags) && |i.tags| < Limit(8)
    requires n < |FieldsOf(i)| + |TagSection(i.tags)|
    ensures
      ReadsItem(DecodeFields(i.signatureType, i.signature, i.owner, (FieldsOf(i) + TagSection(i.tags))[..n]), i, CutBack(i, n))
  {
    var (target, anchor, tags) := (OptionalField(i.target), OptionalField(i.anchor), TagSection(i.tags));
    CutOfThree(target, anchor, tags, n);
    if n < |target| {
      CutAtTarget(i, anchor + tags, n);
    } else if n < |target| + |anchor| {
      CutAtAnchor(i, tags, n - |target|);
    } else {
      var j := n - |FieldsOf(i)|;
      CutTagsAnywhere(i.tags, j);
      CutAtTags(i, tags[..j], CutBack(i, n));
    }
  }

  lemma CutTagsAnywhere(tags: seq<Tag>, j: nat)
    requires Named(tags) && |tags| < Limit(8) && j < |TagSection(tags)|
    ensures Reads(DecodeTags(TagSection(tags)[..j]), if j < 16 then None else CutBlock(tags, j - 16))
  {
    if j >= 16 {
      CutTags(tags, j - 16);
    }
  }

  /** The tags of a header of which `n` bytes are there. Without the two sizes of the tags there are none. */
  function CutHeader(i: Item, n: nat): Option<seq<Tag>>
    requires n < |EncodeHeader(i)|
  {
    var m := n - (|EncodeHeader(i)| - |EncodeTags(i.tags)|);
    if m < 0 then None else CutBlock(i.tags, m)
  }

  lemma HeaderSplit(i: Item)
    ensures
      EncodeHeader(i)
      == [TypeCode(i.signatureType), 0] + (i.signature + (i.owner + (FieldsOf(i) + TagSection(i.tags))))
  {
    Regroup(OptionalField(i.target), OptionalField(i.anchor), TagSection(i.tags));
  }

  lemma Regroup(a: Bytes, b: Bytes, c: Bytes)
    ensures (a + b) + c == a + (b + c)
  {
  }

  lemma CutFront(t: SignatureType, signature: Bytes, owner: Bytes, back: Bytes, n: nat)
    requires |signature| == SignatureSize(t) && |owner| == OwnerSize(t) && n < 2 + |signature| + |owner|
    ensures DecodeHeader(([TypeCode(t), 0] + (signature + (owner + back)))[..n]).Crash?
  {
    var all := [TypeCode(t), 0] + (signature + (owner + back));
    if n >= 2 {
      assert all[..n][0] == TypeCode(t) && TypeOfCode(TypeCode(t)) == Some(t);
    }
  }

  lemma CutBehind(t: SignatureType, signature: Bytes, owner: Bytes, back: Bytes, n: nat)
    requires |signature| == SignatureSize(t) && |owner| == OwnerSize(t) && n <= |back|
    ensures
      DecodeHeader(([TypeCode(t), 0] + (signature + (owner + back)))[..2 + |signature| + |owner| + n])
      == DecodeFields(t, signature, owner, back[..n])
  {
    var front := [TypeCode(t), 0];
    assert (front + (signature + (owner + back)))[..2 + |signature| + |owner| + n] == front + (signature + (owner + back[..n]));
    SignatureRoundTrip(t, signature, owner, back[..n]);
  }

  lemma CutInBack(i: Item, back: Bytes, n: nat, cut: Option<seq<Tag>>)
    requires Fitting(i) && n <= |back|
    requires ReadsItem(DecodeFields(i.signatureType, i.signature, i.owner, back[..n]), i, cut)
    ensures
      var all := [TypeCode(i.signatureType), 0] + (i.signature + (i.owner + back));
      ReadsItem(DecodeHeader(all[..2 + |i.signature| + |i.owner| + n]), i, cut)
  {
    CutBehind(i.signatureType, i.signature, i.owner, back, n);
  }

  lemma CutHeaderIs(i: Item, n: nat)
    requires n < |EncodeHeader(i)|
    ensures var m := 2 + |i.signature| + |i.owner|; CutHeader(i, n) == if n < m then None else CutBack(i, n - m)
  {
  }

  lemma HeaderLength(i: Item)
    ensures |EncodeHeader(i)| == 2 + |i.signature| + |i.owner| + |FieldsOf(i)| + |TagSection(i.tags)|
  {
  }

  lemma CutInFront(i: Item, n: nat)
    requires Fitting(i) && n < 2 + |i.signature| + |i.owner|
    ensures n < |EncodeHeader(i)| && DecodeHeader(EncodeHeader(i)[..n]) == Crash
  {
    HeaderSplit(i);
    CutFront(i.signatureType, i.signature, i.owner, FieldsOf(i) + TagSection(i.tags), n);
  }

  lemma CutInFields(i: Item, n: nat, all: nat) returns (p: Parsed<Item>)
    requires Fitting(i) && Named(i.tags) && |i.tags| < Limit(8) && n < |FieldsOf(i)| + |TagSection(i.tags)|
    requires all == 2 + |i.signature| + |i.owner| + n
    ensures all < |EncodeHeader(i)| && p == DecodeHeader(EncodeHeader(i)[..all]) && ReadsItem(p, i, CutBack(i, n))
  {
    var back := FieldsOf(i) + TagSection(i.tags);
    var header := [TypeCode(i.signatureType), 0] + (i.signature + (i.owner + back));
    CutFields(i, n);
    CutInBack(i, back, n, CutBack(i, n));
    p := DecodeHeader(header[..all]);
    HeaderSplit(i);
  }

  lemma CutDecodesTo(i: Item, n: nat, length: nat) returns (p: Parsed<Item>, cut: Option<seq<Tag>>)
    requires Fitting(i) && Named(i.tags) && |i.tags| < Limit(8) && n < length
    requires length == 2 + |i.signature| + |i.owner| + |FieldsOf(i)| + |TagSection(i.tags)|
    ensures n < |EncodeHeader(i)| && p == DecodeHeader(EncodeHeader(i)[..n]) && ReadsItem(p, i, cut)
    ensures var m := 2 + |i.signature| + |i.owner|; cut == if n < m then None else CutBack(i, n - m)
  {
    var m := 2 + |i.signature| + |i.owner|;
    if n < m {
      CutInFront(i, n);
      p, cut := Crash, None;
    } else {
      p := CutInFields(i, n - m, n);
      cut := CutBack(i, n - m);
    }
  }

  /** What a header that is cut off decodes to depends on where in its tags the cut is. */
  lemma CutDecodes(i: Item, n: nat)
    requires Fitting(i) && Named(i.tags) && |i.tags| < Limit(8) && n < |EncodeHeader(i)|
    ensures ReadsItem(DecodeHeader(EncodeHeader(i)[..n]), i, CutHeader(i, n))
  {
    HeaderLength(i);
    var p, cut := CutDecodesTo(i, n, |EncodeHeader(i)|);
    CutHeaderIs(i, n);
  }
}
