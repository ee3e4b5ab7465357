/** ANS-104 data items and list bundles (src/ar_bundles.erl, src/dev_arweave_common.erl). */
module DataItems {
  import opened Options
  import opened Bytes
  import opened AvroTags

  //////////////////////////////////////////////////////////////////////////////
  // Items
  //////////////////////////////////////////////////////////////////////////////

  datatype SignatureType = Rsa4096 | Ed25519 | Ethereum | Solana | TypedEthereum

  /** `Numbered` is the message with the keys 1 to n that replaces a list when it is read. */
  datatype Data = Binary(bytes: Bytes) | List(items: seq<Item>) | Numbered(children: seq<Item>)

  datatype Item = Item(
    signatureType: SignatureType,
    signature: Bytes,
    owner: Bytes,
    target: Bytes,
    anchor: Bytes,
    tags: seq<Tag>,
    data: Data
  )

  /** The case folding of tag names and the ID of a serialized item are parameters. */
  datatype Env = Env(lower: Bytes -> Bytes, id: Bytes -> Digest)

  function SignatureSize(t: SignatureType): nat {
    match t
    case Rsa4096 => 512
    case Ed25519 => 64
    case Ethereum => 65
    case Solana => 64
    case TypedEthereum => 65
  }

  function OwnerSize(t: SignatureType): nat {
    match t
    case Rsa4096 => 512
    case Ed25519 => 32
    case Ethereum => 65
    case Solana => 32
    case TypedEthereum => 42
  }

  function TypeCode(t: SignatureType): Byte {
    match t
    case Rsa4096 => 1
    case Ed25519 => 2
    case Ethereum => 3
    case Solana => 4
    case TypedEthereum => 7
  }

  function TypeOfCode(code: Byte): Option<SignatureType> {
    if code == 1 then Some(Rsa4096)
    else if code == 2 then Some(Ed25519)
    else if code == 3 then Some(Ethereum)
    else if code == 4 then Some(Solana)
    else if code == 7 then Some(TypedEthereum)
    else None
  }

  /** The size checks before serialization. */
  predicate Valid(i: Item) {
    && |i.anchor| in {0, 32} && |i.target| in {0, 32}
    && |i.owner| in {0, 32, 33, 42, 65, 512} && |i.signature| in {0, 64, 65, 512}
    && forall k | 0 <= k < |i.tags| :: |i.tags[k].name| <= 1024 && |i.tags[k].value| <= 3072
  }

  //////////////////////////////////////////////////////////////////////////////
  // Headers
  //////////////////////////////////////////////////////////////////////////////

  function OptionalField(f: Bytes): Bytes { if f == [] then [0] else [1] + f }

  function DecodeOptionalField(b: Bytes): Parsed<Bytes> {
    if b == [] then Crash
    else if b[0] == 0 then Parsed([], b[1..])
    else if b[0] == 1 then Take(b[1..], 32)
    else Crash
  }

  function EncodeHeader(i: Item): Bytes {
    [TypeCode(i.signatureType), 0] + (i.signature + (i.owner
    + (OptionalField(i.target) + (OptionalField(i.anchor) + TagSection(i.tags)))))
  }

  /** The fields after signature and owner. */
  function DecodeFields(t: SignatureType, signature: Bytes, owner: Bytes, b: Bytes): (p: Parsed<Item>)
    ensures p.Parsed? ==> |p.rest| <= |b| && p.value.data == Binary(p.rest)
  {
    match DecodeOptionalField(b)
    case Crash => Crash
    case Parsed(target, afterTarget) =>
      match DecodeOptionalField(afterTarget)
      case Crash => Crash
      case Parsed(anchor, afterAnchor) =>
        match DecodeTags(afterAnchor)
        case Crash => Crash
        case Parsed(tags, rest) => Parsed(Item(t, signature, owner, target, anchor, tags, Binary(rest)), rest)
  }

  /** The header of an item; the rest of the bytes are its data. */
  function DecodeHeader(b: Bytes): (p: Parsed<Item>)
    ensures p.Parsed? ==> |p.rest| < |b| && p.value.data == Binary(p.rest)
  {
    if |b| < 2 || b[1] != 0 || TypeOfCode(b[0]).None? then Crash
    else
      var t := TypeOfCode(b[0]).value;
      var (m, n) := (2 + SignatureSize(t), 2 + SignatureSize(t) + OwnerSize(t));
      if |b| < n then Crash else DecodeFields(t, b[2..m], b[m..n], b[n..])
  }

  /** Fields of the sizes that the signature type has. */
  predicate Fitting(i: Item) {
    && !i.signatureType.TypedEthereum?
    && |i.signature| == SignatureSize(i.signatureType) && |i.owner| == OwnerSize(i.signatureType)
    && |i.target| in {0, 32} && |i.anchor| in {0, 32}
  }

  lemma OptionalFieldRoundTrip(f: Bytes, rest: Bytes)
    requires |f| in {0, 32}
    ensures DecodeOptionalField(OptionalField(f) + rest) == Parsed(f, rest)
  {
    var b := OptionalField(f) + rest;
    assert b[1..] == f + rest;
  }

  lemma FieldsRoundTrip(i: Item, rest: Bytes)
    requires |i.target| in {0, 32} && |i.anchor| in {0, 32} && Named(i.tags) && |i.tags| < Limit(8)
    ensures
      DecodeFields(i.signatureType, i.signature, i.owner,
        OptionalField(i.target) + (OptionalField(i.anchor) + (TagSection(i.tags) + rest)))
      == Parsed(i.(data := Binary(rest)), rest)
  {
    var tags := TagSection(i.tags) + rest;
    OptionalFieldRoundTrip(i.target, OptionalField(i.anchor) + tags);
    OptionalFieldRoundTrip(i.anchor, tags);
    TagsRoundTrip(i.tags, rest);
  }

  lemma SignatureRoundTrip(t: SignatureType, signature: Bytes, owner: Bytes, rest: Bytes)
    requires |signature| == SignatureSize(t) && |owner| == OwnerSize(t)
    ensures
      DecodeHeader([TypeCode(t), 0] + (signature + (owner + rest))) == DecodeFields(t, signature, owner, rest)
  {
    var b := [TypeCode(t), 0] + (signature + (owner + rest));
    SliceParts([TypeCode(t), 0], signature, owner, rest, b);
    assert b[0] == TypeCode(t) && TypeOfCode(b[0]) == Some(t);
  }

  lemma SliceParts(a: Bytes, b: Bytes, c: Bytes, rest: Bytes, all: Bytes)
    requires all == a + (b + (c + rest))
    ensures all[|a|..|a| + |b|] == b && all[|a| + |b|..|a| + |b| + |c|] == c && all[|a| + |b| + |c|..] == rest
  {
    var bc := b + (c + rest);
    assert all[|a|..] == bc && bc[..|b|] == b && bc[|b|..] == c + rest;
    assert all[|a| + |b|..] == c + rest;
  }

  /** Decoding a header takes it off the front of any data. */
  lemma HeaderRoundTrip(i: Item, rest: Bytes)
    requires Fitting(i) && Named(i.tags) && |i.tags| < Limit(8)
    ensures DecodeHeader(EncodeHeader(i) + rest) == Parsed(i.(data := Binary(rest)), rest)
  {
    var fields := OptionalField(i.target) + (OptionalField(i.anchor) + (TagSection(i.tags) + rest));
    Regroup6([TypeCode(i.signatureType), 0], i.signature, i.owner, OptionalField(i.target), OptionalField(i.anchor), TagSection(i.tags), rest);
    SignatureRoundTrip(i.signatureType, i.signature, i.owner, fields);
    FieldsRoundTrip(i, rest);
  }

  lemma Regroup6(a: Bytes, b: Bytes, c: Bytes, d: Bytes, e: Bytes, f: Bytes, rest: Bytes)
    ensures (a + (b + (c + (d + (e + f))))) + rest == a + (b + (c + (d + (e + (f + rest)))))
  {
  }
}
