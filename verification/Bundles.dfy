/** List bundles of data items, serialized and read back (src/ar_bundles.erl:237-329 and 415-545,
    src/dev_arweave_common.erl:22-60 and 119-205). */
module Bundles {
  import opened Options
  import opened Bytes
  import opened AvroTags
  import opened DataItems

  //////////////////////////////////////////////////////////////////////////////
  // The bundle format
  //////////////////////////////////////////////////////////////////////////////

  datatype Entry = Entry(id: Digest, bytes: Bytes)

  datatype Slot = Slot(id: Digest, size: nat)

  function Index(es: seq<Entry>): (b: Bytes)
    ensures |b| == 64 * |es|
  {
    if es == [] then [] else LittleEndian(|es[0].bytes|, 32) + es[0].id + Index(es[1..])
  }

  function Payload(es: seq<Entry>): Bytes {
    if es == [] then [] else es[0].bytes + Payload(es[1..])
  }

  /** What stands before the items: their number, and the size and ID of each. */
  function BundleIndex(es: seq<Entry>): (b: Bytes)
    ensures |b| == 32 + 64 * |es| && b[..32] == LittleEndian(|es|, 32)
  {
    LittleEndian(|es|, 32) + Index(es)
  }

  function Finalize(es: seq<Entry>): Bytes {
    BundleIndex(es) + Payload(es)
  }

  function Slots(es: seq<Entry>): (s: seq<Slot>)
    ensures |s| == |es|
  {
    if es == [] then [] else [Slot(es[0].id, |es[0].bytes|)] + Slots(es[1..])
  }

  function DecodeIndex(count: nat, b: Bytes): (p: Parsed<seq<Slot>>)
    ensures p.Parsed? ==> |p.rest| <= |b|
    decreases count
  {
    if count == 0 then Parsed([], b)
    else if |b| < 64 then Crash
    else
      match DecodeIndex(count - 1, b[64..])
      case Crash => Crash
      case Parsed(slots, rest) => Parsed([Slot(b[32..64], FromLittleEndian(b[..32]))] + slots, rest)
  }

  /** The index of a bundle; the rest of the bytes are its items. */
  function DecodeBundleHeader(b: Bytes): (p: Parsed<seq<Slot>>)
    ensures p.Parsed? ==> |p.rest| < |b|
  {
    if |b| < 32 then Crash else DecodeIndex(FromLittleEndian(b[..32]), b[32..])
  }

  ghost predicate Sized(es: seq<Entry>) {
    |es| < Limit(32) && forall k | 0 <= k < |es| :: |es[k].bytes| < Limit(32)
  }

  lemma Cut(a: Bytes, b: Bytes, c: Bytes)
    ensures
      var all := a + (b + c);
      all[..|a|] == a && all[|a|..|a| + |b|] == b && all[|a| + |b|..] == c && all[|a|..] == b + c
  {
  }

  lemma SlotStep(size: nat, id: Digest, more: Bytes, count: nat)
    requires size < Limit(32) && count > 0
    ensures
      DecodeIndex(count, LittleEndian(size, 32) + (id + more))
      == match DecodeIndex(count - 1, more)
         case Crash => Crash
         case Parsed(slots, rest) => Parsed([Slot(id, size)] + slots, rest)
  {
    LittleEndianRoundTrip(size, 32);
    Cut(LittleEndian(size, 32), id, more);
  }

  lemma {:induction false} IndexRoundTrip(es: seq<Entry>, suffix: Bytes)
    requires Sized(es)
    ensures DecodeIndex(|es|, Index(es) + suffix) == Parsed(Slots(es), suffix)
    decreases es
  {
    if es == [] {
      assert Index(es) + suffix == suffix;
    } else {
      assert Index(es) + suffix == LittleEndian(|es[0].bytes|, 32) + (es[0].id + (Index(es[1..]) + suffix));
      SlotStep(|es[0].bytes|, es[0].id, Index(es[1..]) + suffix, |es|);
      IndexRoundTrip(es[1..], suffix);
    }
  }

  /** The header of a bundle is read back, and the items are what follows it. */
  lemma BundleHeaderRoundTrip(es: seq<Entry>, suffix: Bytes)
    requires Sized(es)
    ensures DecodeBundleHeader(BundleIndex(es) + suffix) == Parsed(Slots(es), suffix)
  {
    LittleEndianRoundTrip(|es|, 32);
    IndexRoundTrip(es, suffix);
    CountSplit(LittleEndian(|es|, 32), Index(es), suffix);
  }

  lemma CountSplit(count: Bytes, index: Bytes, suffix: Bytes)
    requires |count| == 32
    ensures (count + index + suffix)[..32] == count && (count + index + suffix)[32..] == index + suffix
  {
  }

  //////////////////////////////////////////////////////////////////////////////
  // The type of an item
  //////////////////////////////////////////////////////////////////////////////

  datatype BundleType = BinaryType | ListType | MapType

  const FORMAT := Ascii("bundle-format")
  const VERSION := Ascii("bundle-version")
  const MAP := Ascii("bundle-map")
  const BINARY := Ascii("binary")
  const TWO := Ascii("2.0.0")

  /** The first tag with a name, whatever its case; `[]` if there is none. */
  function FindTag(env: Env, key: Bytes, tags: seq<Tag>): Bytes {
    if tags == [] then []
    else if env.lower(tags[0].name) == env.lower(key) then tags[0].value
    else FindTag(env, key, tags[1..])
  }

  function TypeOf(env: Env, tags: seq<Tag>): BundleType {
    if env.lower(FindTag(env, FORMAT, tags)) == BINARY && env.lower(FindTag(env, VERSION, tags)) == TWO then
      if FindTag(env, MAP, tags) == [] then ListType else MapType
    else BinaryType
  }

  predicate HasTag(env: Env, key: Bytes, tags: seq<Tag>) {
    exists k :: 0 <= k < |tags| && env.lower(tags[k].name) == env.lower(key)
  }

  /** The bundle tags that are not there yet, and then the tags of the item. */
  function WithBundleTags(env: Env, tags: seq<Tag>): seq<Tag> {
    (if HasTag(env, FORMAT, tags) then [] else [Tag(FORMAT, BINARY)])
    + (if HasTag(env, VERSION, tags) then [] else [Tag(VERSION, TWO)])
    + tags
  }

  //////////////////////////////////////////////////////////////////////////////
  // Serialization
  //////////////////////////////////////////////////////////////////////////////

  function SerializeFlat(i: Item): Option<Bytes>
    requires i.data.Binary?
  {
    if Valid(i) && !i.signatureType.TypedEthereum? then Some(EncodeHeader(i) + i.data.bytes) else None
  }

  /** The children of an item that is to be a list bundle. Map bundles are not modelled. */
  function Members(env: Env, i: Item): Option<seq<Item>> {
    match i.data
    case Binary(_) => None
    case List(items) => if TypeOf(env, i.tags).MapType? then None else Some(items)
    case Numbered(items) => if TypeOf(env, i.tags).ListType? then Some(items) else None
  }

  /** The item with its data turned into bytes; `normalize` also adds the bundle tags. */
  function Flatten(env: Env, i: Item, normalize: bool): (flat: Option<Item>)
    ensures flat.Some? ==> flat.value.data.Binary?
    decreases i, 1, 0
  {
    if i.data.Binary? then Some(i)
    else if Members(env, i).None? then None
    else
      match Entries(env, i, 0, normalize)
      case None => None
      case Some(es) =>
        Some(i.(tags := if normalize then WithBundleTags(env, i.tags) else i.tags, data := Binary(Finalize(es))))
  }

  /** The entries of the children from the k-th on. */
  function Entries(env: Env, i: Item, k: nat, normalize: bool): Option<seq<Entry>>
    requires Members(env, i).Some? && k <= |Members(env, i).value|
    decreases i, 0, |Members(env, i).value| - k
  {
    var children := Members(env, i).value;
    if k == |children| then Some([])
    else Prepend(env, Flatten(env, children[k], normalize), Entries(env, i, k + 1, normalize))
  }

  /** Each child is read back for its ID; an exception anywhere is an exception of the whole. */
  function Prepend(env: Env, flat: Option<Item>, rest: Option<seq<Entry>>): Option<seq<Entry>>
    requires flat.Some? ==> flat.value.data.Binary?
  {
    if flat.None? || SerializeFlat(flat.value).None? || rest.None? then None
    else
      var bytes := SerializeFlat(flat.value).value;
      if Deserialize(env, bytes).None? then None else Some([Entry(env.id(bytes), bytes)] + rest.value)
  }

  function Serialize(env: Env, i: Item): Option<Bytes> {
    match Flatten(env, i, false)
    case None => None
    case Some(flat) => SerializeFlat(flat)
  }

  //////////////////////////////////////////////////////////////////////////////
  // Deserialization
  //////////////////////////////////////////////////////////////////////////////

  /** Decodes an item and, if its tags say that it is a list bundle, the items in it. */
  function Deserialize(env: Env, b: Bytes): Option<Item>
    decreases |b|, 0
  {
    match DecodeHeader(b)
    case Crash => None
    case Parsed(item, rest) =>
      match TypeOf(env, item.tags)
      case BinaryType => Some(item)
      case MapType => None
      case ListType =>
        if rest == [] then Some(item)
        else
          match DecodeBundleHeader(rest)
          case Crash => None
          case Parsed(slots, payload) =>
            match DeserializeAll(env, slots, payload)
            case None => None
            case Some(children) => Some(item.(data := Numbered(children)))
  }

  /** Cuts the items out of the payload, which they must fill exactly. */
  function DeserializeAll(env: Env, slots: seq<Slot>, b: Bytes): Option<seq<Item>>
    decreases |b|, 1 + |slots|
  {
    if slots == [] then (if b == [] then Some([]) else None)
    else if slots[0].size > |b| then None
    else
      match Deserialize(env, b[..slots[0].size])
      case None => None
      case Some(item) =>
        match DeserializeAll(env, slots[1..], b[slots[0].size..])
        case None => None
        case Some(items) => Some([item] + items)
  }
}
