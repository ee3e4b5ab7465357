/** Reading back a normalized tree of list bundles (src/ar_bundles.erl:236-629,
    src/dev_arweave_common.erl:119-205). */
module BundleRoundTrip {
  import opened Options
  import opened Bytes
  import opened AvroTags
  import opened DataItems
  import opened Bundles

  /** The tags that a normalized item is serialized with. */
  function FinalTags(env: Env, i: Item): seq<Tag> {
    if i.data.Binary? then i.tags else WithBundleTags(env, i.tags)
  }

  /** The item that should be read back: bundle tags added, lists numbered in order. */
  function Expected(env: Env, i: Item): Item
    decreases i, 1, 0
  {
    if i.data.List? then i.(tags := WithBundleTags(env, i.tags), data := Numbered(ExpectedFrom(env, i, 0))) else i
  }

  function ExpectedFrom(env: Env, i: Item, k: nat): (children: seq<Item>)
    requires i.data.List? && k <= |i.data.items|
    ensures |children| == |i.data.items| - k
    decreases i, 0, |i.data.items| - k
  {
    if k == |i.data.items| then [] else [Expected(env, i.data.items[k])] + ExpectedFrom(env, i, k + 1)
  }

  lemma {:induction false} ExpectedAt(env: Env, i: Item, k: nat, n: nat)
    requires i.data.List? && k <= n < |i.data.items|
    ensures ExpectedFrom(env, i, k)[n - k] == Expected(env, i.data.items[n])
    decreases n - k
  {
    if k < n {
      ExpectedAt(env, i, k + 1, n);
    }
  }

  /** The tags say what the data are. Data that say they are a bundle may only be empty. */
  predicate Typed(env: Env, i: Item) {
    var t := TypeOf(env, FinalTags(env, i));
    match i.data
    case Binary(b) => t.BinaryType? || (t.ListType? && b == [])
    case _ => t.ListType?
  }

  predicate GoodTags(tags: seq<Tag>) {
    Named(tags) && |tags| < Limit(8) && forall k | 0 <= k < |tags| :: |tags[k].name| <= 1024 && |tags[k].value| <= 3072
  }

  /** What serialization asks of an item. */
  ghost predicate SoundNode(env: Env, i: Item) {
    && Fitting(i) && GoodTags(FinalTags(env, i)) && !i.data.Numbered?
    && (i.data.List? ==>
         Members(env, i).Some? && (Entries(env, i, 0, true).Some? ==> Sized(Entries(env, i, 0, true).value)))
  }

  /** It holds of every item in the tree. */
  ghost predicate Sound(env: Env, i: Item)
    decreases i
  {
    SoundNode(env, i) && (i.data.List? ==> forall k | 0 <= k < |i.data.items| :: Sound(env, i.data.items[k]))
  }

  /** Every item in the tree has tags that say what its data are. */
  predicate AllTyped(env: Env, i: Item)
    decreases i
  {
    Typed(env, i) && (i.data.List? ==> forall k | 0 <= k < |i.data.items| :: AllTyped(env, i.data.items[k]))
  }

  ghost predicate WellFormed(env: Env, i: Item) {
    Sound(env, i) && AllTyped(env, i)
  }

  ghost predicate GoodChildren(env: Env, i: Item)
    requires i.data.List?
  {
    forall k | 0 <= k < |i.data.items| :: WellFormed(env, i.data.items[k])
  }

  //////////////////////////////////////////////////////////////////////////////
  // One item
  //////////////////////////////////////////////////////////////////////////////

  lemma FlatIsSerialized(i: Item)
    requires i.data.Binary? && Fitting(i) && GoodTags(i.tags)
    ensures SerializeFlat(i) == Some(EncodeHeader(i) + i.data.bytes)
    ensures DecodeHeader(EncodeHeader(i) + i.data.bytes) == Parsed(i, i.data.bytes)
  {
    HeaderRoundTrip(i, i.data.bytes);
  }

  /** An item that is not a bundle. */
  lemma LeafRoundTrip(env: Env, i: Item)
    requires i.data.Binary? && SoundNode(env, i)
    ensures SerializeFlat(i).Some?
    ensures Deserialize(env, SerializeFlat(i).value) == Some(i) <==> Typed(env, i)
  {
    FlatIsSerialized(i);
  }

  /** A flat item that holds the entries `es`. */
  lemma BundleDecodes(env: Env, flat: Item, es: seq<Entry>) returns (bytes: Bytes)
    requires flat.data == Binary(Finalize(es)) && Sized(es) && Fitting(flat) && GoodTags(flat.tags)
    ensures SerializeFlat(flat) == Some(bytes)
    ensures
      Deserialize(env, bytes)
      == match TypeOf(env, flat.tags)
         case BinaryType => Some(flat)
         case MapType => None
         case ListType =>
           match DeserializeAll(env, Slots(es), Payload(es))
           case None => None
           case Some(children) => Some(flat.(data := Numbered(children)))
  {
    FlatIsSerialized(flat);
    BundleHeaderRoundTrip(es, Payload(es));
    bytes := SerializeFlat(flat).value;
  }

  lemma PayloadStep(env: Env, first: Entry, rest: seq<Entry>, item: Item, items: seq<Item>)
    requires Deserialize(env, first.bytes) == Some(item)
    requires DeserializeAll(env, Slots(rest), Payload(rest)) == Some(items)
    ensures DeserializeAll(env, Slots([first] + rest), Payload([first] + rest)) == Some([item] + items)
  {
    assert ([first] + rest)[1..] == rest;
  }

  //////////////////////////////////////////////////////////////////////////////
  // Trees
  //////////////////////////////////////////////////////////////////////////////

  /** Normalizing and serializing an item succeeds. */
  predicate Serializable(env: Env, i: Item) {
    Flatten(env, i, true).Some? && SerializeFlat(Flatten(env, i, true).value).Some?
  }

  function Serialized(env: Env, i: Item): Bytes
    requires Serializable(env, i)
  {
    SerializeFlat(Flatten(env, i, true).value).value
  }

  /** What is read after writing. */
  function Reread(env: Env, i: Item): Option<Item> {
    if Serializable(env, i) then Deserialize(env, Serialized(env, i)) else None
  }

  ghost predicate ReadsBack(env: Env, i: Item) { Reread(env, i) == Some(Expected(env, i)) }

  /** What is read from the entries of the children from the k-th on. */
  function ReadEntries(env: Env, i: Item, k: nat): Option<seq<Item>>
    requires i.data.List? && Members(env, i).Some? && k <= |i.data.items|
  {
    match Entries(env, i, k, true)
    case None => None
    case Some(es) => DeserializeAll(env, Slots(es), Payload(es))
  }

  /** The children from the k-th on are read back from their entries. */
  ghost predicate EntriesReadBack(env: Env, i: Item, k: nat)
    requires i.data.List? && Members(env, i).Some? && k <= |i.data.items|
  {
    ReadEntries(env, i, k) == Some(ExpectedFrom(env, i, k))
  }

  lemma EntryInFront(env: Env, i: Item, k: nat, es: seq<Entry>, e: Entry)
    requires i.data.List? && Members(env, i).Some? && k < |i.data.items|
    requires Reread(env, i.data.items[k]).Some? && Entries(env, i, k + 1, true) == Some(es)
    requires e == Entry(env.id(Serialized(env, i.data.items[k])), Serialized(env, i.data.items[k]))
    ensures Entries(env, i, k, true) == Some([e] + es)
  {
  }

  lemma EntryStep(env: Env, i: Item, k: nat)
    requires i.data.List? && Members(env, i).Some? && k < |i.data.items|
    requires ReadsBack(env, i.data.items[k]) && EntriesReadBack(env, i, k + 1)
    ensures EntriesReadBack(env, i, k)
  {
    var bytes := Serialized(env, i.data.items[k]);
    var (e, es) := (Entry(env.id(bytes), bytes), Entries(env, i, k + 1, true).value);
    EntryInFront(env, i, k, es, e);
    PayloadStep(env, e, es, Expected(env, i.data.items[k]), ExpectedFrom(env, i, k + 1));
  }

  lemma NodeRoundTrip(env: Env, i: Item)
    requires i.data.List? && SoundNode(env, i) && Typed(env, i) && EntriesReadBack(env, i, 0)
    ensures ReadsBack(env, i)
  {
    var es := Entries(env, i, 0, true).value;
    var flat := i.(tags := WithBundleTags(env, i.tags), data := Binary(Finalize(es)));
    var bytes := BundleDecodes(env, flat, es);
    RereadIs(env, i, flat, bytes);
  }

  lemma RereadIs(env: Env, i: Item, flat: Item, bytes: Bytes)
    requires Flatten(env, i, true) == Some(flat) && SerializeFlat(flat) == Some(bytes)
    ensures Serializable(env, i) && Reread(env, i) == Deserialize(env, bytes)
  {
  }

  lemma NoEntries(env: Env, i: Item)
    requires i.data.List? && Members(env, i).Some?
    ensures EntriesReadBack(env, i, |i.data.items|)
  {
  }

  lemma EntriesRoundTrip(env: Env, i: Item)
    requires i.data.List? && Members(env, i).Some?
    requires forall j: nat | j < |i.data.items| :: ReadsBack(env, i.data.items[j])
    ensures EntriesReadBack(env, i, 0)
  {
    var k: nat := |i.data.items|;
    NoEntries(env, i);
    while k > 0
      invariant k <= |i.data.items| && EntriesReadBack(env, i, k)
    {
      k := k - 1;
      EntryStep(env, i, k);
    }
  }

  lemma GoodChild(env: Env, i: Item, k: nat)
    requires i.data.List? && GoodChildren(env, i) && k < |i.data.items|
    ensures i.data.items[k] < i && WellFormed(env, i.data.items[k])
  {
  }

  /** A well-formed tree is serialized and read back. */
  lemma {:induction false} TreeReadsBack(env: Env, i: Item)
    requires WellFormed(env, i)
    ensures ReadsBack(env, i)
    decreases i, 1, 0
  {
    if i.data.Binary? {
      LeafRoundTrip(env, i);
    } else {
      forall k: nat | k < |i.data.items| ensures ReadsBack(env, i.data.items[k]) {
        ChildRoundTrip(env, i, k);
      }
      EntriesRoundTrip(env, i);
      NodeRoundTrip(env, i);
    }
  }

  lemma {:induction false} ChildRoundTrip(env: Env, i: Item, k: nat)
    requires i.data.List? && GoodChildren(env, i) && k < |i.data.items|
    ensures ReadsBack(env, i.data.items[k])
    decreases i, 0, 0
  {
    GoodChild(env, i, k);
    TreeReadsBack(env, i.data.items[k]);
  }

  /** A list that is read back was read as a bundle of its entries. */
  lemma NodeReadBack(env: Env, i: Item)
    requires i.data.List? && SoundNode(env, i) && ReadsBack(env, i)
    ensures Typed(env, i) && EntriesReadBack(env, i, 0)
  {
    var es := Entries(env, i, 0, true).value;
    var flat := i.(tags := WithBundleTags(env, i.tags), data := Binary(Finalize(es)));
    var bytes := BundleDecodes(env, flat, es);
  }

  /** Cutting a payload reads back its first item, and the rest. */
  lemma FirstReadBack(env: Env, first: Entry, rest: seq<Entry>, item: Item, items: seq<Item>)
    requires DeserializeAll(env, Slots([first] + rest), Payload([first] + rest)) == Some([item] + items)
    ensures Deserialize(env, first.bytes) == Some(item)
    ensures DeserializeAll(env, Slots(rest), Payload(rest)) == Some(items)
  {
    var slot := Slot(first.id, |first.bytes|);
    var (slots, b) := (Slots([first] + rest), Payload([first] + rest));
    assert ([first] + rest)[1..] == rest;
    assert slots == [slot] + Slots(rest) && slots[1..] == Slots(rest);
    assert b[..|first.bytes|] == first.bytes && b[|first.bytes|..] == Payload(rest);
    var all := DeserializeAll(env, slots, b);
    var head := Deserialize(env, first.bytes);
    var tail := DeserializeAll(env, Slots(rest), Payload(rest));
    assert all == if head.None? || tail.None? then None else Some([head.value] + tail.value);
    assert all.value[0] == item && all.value[1..] == items;
  }

  ghost predicate ReadBackFrom(env: Env, i: Item, k: nat) {
    i.data.List? && Members(env, i).Some? && k <= |i.data.items| && EntriesReadBack(env, i, k)
  }

  lemma EntryReadBack(env: Env, i: Item, k: nat)
    requires ReadBackFrom(env, i, k) && k < |i.data.items|
    ensures ReadsBack(env, i.data.items[k]) && ReadBackFrom(env, i, k + 1)
  {
    var child := i.data.items[k];
    var bytes := Serialized(env, child);
    var rest := Entries(env, i, k + 1, true).value;
    FirstReadBack(env, Entry(env.id(bytes), bytes), rest, Expected(env, child), ExpectedFrom(env, i, k + 1));
  }

  /** What holds at the start and carries over holds everywhere. */
  lemma {:induction false} Chain(p: nat -> bool, n: nat, k: nat)
    requires p(0) && (forall j: nat | j < n && p(j) :: p(j + 1)) && k <= n
    ensures p(k)
  {
    if k > 0 {
      Chain(p, n, k - 1);
      assert p(k - 1 + 1);
    }
  }

  lemma ReadBackUpTo(env: Env, i: Item, k: nat)
    requires ReadBackFrom(env, i, 0) && k <= |i.data.items|
    ensures ReadBackFrom(env, i, k)
  {
    forall j: nat | j < |i.data.items| && ReadBackFrom(env, i, j) ensures ReadBackFrom(env, i, j + 1) {
      EntryReadBack(env, i, j);
    }
    Chain((j: nat) => ReadBackFrom(env, i, j), |i.data.items|, k);
  }

  lemma {:induction false} ReadBackIsTyped(env: Env, i: Item)
    requires Sound(env, i) && ReadsBack(env, i)
    ensures AllTyped(env, i)
    decreases i
  {
    if i.data.Binary? {
      LeafRoundTrip(env, i);
    } else {
      NodeReadBack(env, i);
      forall k | 0 <= k < |i.data.items|
        ensures AllTyped(env, i.data.items[k])
      {
        ReadBackUpTo(env, i, k);
        EntryReadBack(env, i, k);
        assert Sound(env, i.data.items[k]);
        ReadBackIsTyped(env, i.data.items[k]);
      }
    }
  }

  /** A sound tree is serialized and read back exactly if every item in it has tags that say what its
      data are. */
  lemma TreeRoundTrip(env: Env, i: Item)
    requires Sound(env, i)
    ensures ReadsBack(env, i) <==> AllTyped(env, i)
  {
    if AllTyped(env, i) {
      TreeReadsBack(env, i);
    } else if ReadsBack(env, i) {
      ReadBackIsTyped(env, i);
    }
  }

  //////////////////////////////////////////////////////////////////////////////
  // Serializing again
  //////////////////////////////////////////////////////////////////////////////

  ghost predicate SameFlat(env: Env, i: Item) {
    Flatten(env, Expected(env, i), false) == Flatten(env, i, true)
  }

  ghost predicate SameEntries(env: Env, i: Item, k: nat)
    requires i.data.List? && Members(env, i).Some? && Typed(env, i) && k <= |i.data.items|
  {
    Entries(env, Expected(env, i), k, false) == Entries(env, i, k, true)
  }

  lemma SameEntriesStep(env: Env, i: Item, k: nat)
    requires i.data.List? && Members(env, i).Some? && Typed(env, i) && k < |i.data.items|
    requires SameFlat(env, i.data.items[k]) && SameEntries(env, i, k + 1)
    ensures SameEntries(env, i, k)
  {
    var child := i.data.items[k];
    ExpectedAt(env, i, 0, k);
  }

  /** The item that was read back, a numbered message, is flattened to the same bytes. */
  lemma {:induction false} FlattenAgain(env: Env, i: Item)
    requires WellFormed(env, i)
    ensures SameFlat(env, i)
    decreases i
  {
    if i.data.List? {
      forall k | 0 <= k < |i.data.items|
        ensures SameFlat(env, i.data.items[k])
      {
        FlattenAgain(env, i.data.items[k]);
      }
      FlattenChildren(env, i);
    }
  }

  lemma FlattenChildren(env: Env, i: Item)
    requires i.data.List? && Members(env, i).Some? && Typed(env, i)
    requires forall n | 0 <= n < |i.data.items| :: SameFlat(env, i.data.items[n])
    ensures SameEntries(env, i, 0)
  {
    var k: nat := |i.data.items|;
    while k > 0
      invariant k <= |i.data.items| && SameEntries(env, i, k)
    {
      k := k - 1;
      SameEntriesStep(env, i, k);
    }
  }

  /** Writing, reading and writing again gives the same bytes. */
  lemma SerializeAgain(env: Env, i: Item)
    requires WellFormed(env, i)
    ensures ReadsBack(env, i) && Serialize(env, Expected(env, i)) == Some(Serialized(env, i))
  {
    TreeReadsBack(env, i);
    FlattenAgain(env, i);
  }

  //////////////////////////////////////////////////////////////////////////////
  // Tags that users may choose
  //////////////////////////////////////////////////////////////////////////////

  /** Lower-casing leaves the fixed strings alone, which are lower case. */
  ghost predicate Folds(env: Env) {
    && env.lower(FORMAT) == FORMAT && env.lower(VERSION) == VERSION && env.lower(MAP) == MAP
    && env.lower(BINARY) == BINARY && env.lower(TWO) == TWO && env.lower([]) == []
  }

  predicate NoBundleTags(env: Env, tags: seq<Tag>) {
    !HasTag(env, FORMAT, tags) && !HasTag(env, VERSION, tags) && !HasTag(env, MAP, tags)
  }

  lemma {:induction false} NotFound(env: Env, key: Bytes, tags: seq<Tag>)
    requires !HasTag(env, key, tags)
    ensures FindTag(env, key, tags) == []
    decreases tags
  {
    if tags != [] {
      assert env.lower(tags[0].name) != env.lower(key);
      assert forall k | 0 <= k < |tags| - 1 :: tags[1..][k] == tags[k + 1];
      NotFound(env, key, tags[1..]);
    }
  }

  lemma FoundFirst(env: Env, key: Bytes, t: Tag, tags: seq<Tag>)
    ensures
      FindTag(env, key, [t] + tags) == if env.lower(t.name) == env.lower(key) then t.value else FindTag(env, key, tags)
  {
    assert ([t] + tags)[1..] == tags;
  }

  /** Without bundle-* tags of its own, an item of bytes is no bundle and a list is one. */
  lemma PlainTags(env: Env, tags: seq<Tag>)
    requires Folds(env) && NoBundleTags(env, tags)
    ensures TypeOf(env, tags) == BinaryType && TypeOf(env, WithBundleTags(env, tags)) == ListType
  {
    NotFound(env, FORMAT, tags);
    NotFound(env, VERSION, tags);
    NotFound(env, MAP, tags);
    var (f, v) := (Tag(FORMAT, BINARY), Tag(VERSION, TWO));
    assert |FORMAT| == 13 && |VERSION| == 14 && |MAP| == 10;
    assert WithBundleTags(env, tags) == [f] + ([v] + tags);
    FoundFirst(env, FORMAT, f, [v] + tags);
    FoundFirst(env, VERSION, f, [v] + tags);
    FoundFirst(env, VERSION, v, tags);
    FoundFirst(env, MAP, f, [v] + tags);
    FoundFirst(env, MAP, v, tags);
  }

  /** A tree in which no item has bundle-* tags of its own. */
  predicate Plain(env: Env, i: Item)
    decreases i
  {
    && NoBundleTags(env, i.tags) && !i.data.Numbered?
    && (i.data.List? ==> forall k | 0 <= k < |i.data.items| :: Plain(env, i.data.items[k]))
  }

  lemma {:induction false} PlainIsTyped(env: Env, i: Item)
    requires Folds(env) && Plain(env, i)
    ensures AllTyped(env, i)
    decreases i
  {
    PlainTags(env, i.tags);
    if i.data.List? {
      forall k | 0 <= k < |i.data.items|
        ensures AllTyped(env, i.data.items[k])
      {
        assert Plain(env, i.data.items[k]);
        PlainIsTyped(env, i.data.items[k]);
      }
    }
  }

  /** Fields and tags of admissible sizes in every item; two bundle tags may be added. */
  ghost predicate Fields(env: Env, i: Item)
    decreases i
  {
    && Fitting(i) && GoodTags(i.tags) && |i.tags| + 2 < Limit(8)
    && (i.data.List? ==>
         && (Members(env, i).Some? && Entries(env, i, 0, true).Some? ==> Sized(Entries(env, i, 0, true).value))
         && forall k | 0 <= k < |i.data.items| :: Fields(env, i.data.items[k]))
  }

  lemma FinalTagsAreGood(env: Env, i: Item)
    requires GoodTags(i.tags) && |i.tags| + 2 < Limit(8)
    ensures GoodTags(FinalTags(env, i))
  {
    assert |FORMAT| == 13 && |VERSION| == 14 && |BINARY| == 6 && |TWO| == 5;
  }

  lemma {:induction false} PlainIsSound(env: Env, i: Item)
    requires Folds(env) && Plain(env, i) && Fields(env, i)
    ensures Sound(env, i)
    decreases i
  {
    PlainTags(env, i.tags);
    FinalTagsAreGood(env, i);
    if i.data.List? {
      forall k | 0 <= k < |i.data.items|
        ensures Sound(env, i.data.items[k])
      {
        assert Plain(env, i.data.items[k]) && Fields(env, i.data.items[k]);
        PlainIsSound(env, i.data.items[k]);
      }
    }
  }

  /** Every tree of list bundles without bundle-* tags of its own is serialized, read back with its
      children numbered in order, and serialized to the same bytes again. */
  lemma PlainRoundTrip(env: Env, i: Item)
    requires Folds(env) && Plain(env, i) && Fields(env, i)
    ensures ReadsBack(env, i) && Serialize(env, Expected(env, i)) == Some(Serialized(env, i))
  {
    PlainIsSound(env, i);
    PlainIsTyped(env, i);
    SerializeAgain(env, i);
  }

  //////////////////////////////////////////////////////////////////////////////
  // Tags that contradict the data
  //////////////////////////////////////////////////////////////////////////////

  /** An item with one byte of data whose tags say that it is a list. */
  function Impostor(): Item {
    Item(Ed25519, Zeros(64), Zeros(32), [], [], [Tag(FORMAT, BINARY), Tag(VERSION, TWO)], Binary([1]))
  }

  function Around(i: Item): Item { Item(Ed25519, Zeros(64), Zeros(32), [], [], [], List([i])) }

  lemma ImpostorTags(env: Env)
    requires Folds(env)
    ensures TypeOf(env, Impostor().tags) == ListType && GoodTags(Impostor().tags)
  {
    var tags := Impostor().tags;
    assert |FORMAT| == 13 && |VERSION| == 14 && |MAP| == 10 && |BINARY| == 6 && |TWO| == 5;
    assert tags == [tags[0]] + ([tags[1]] + []);
    FoundFirst(env, FORMAT, tags[0], [tags[1]] + []);
    FoundFirst(env, VERSION, tags[0], [tags[1]] + []);
    FoundFirst(env, VERSION, tags[1], []);
    FoundFirst(env, MAP, tags[0], [tags[1]] + []);
    FoundFirst(env, MAP, tags[1], []);
  }

  /** It is written, but cannot be read. */
  lemma ImpostorIsUnreadable(env: Env)
    requires Folds(env)
    ensures
      var i := Impostor();
      Sound(env, i) && Serializable(env, i) && Deserialize(env, Serialized(env, i)).None? && !ReadsBack(env, i)
  {
    var i := Impostor();
    ImpostorTags(env);
    FlatIsSerialized(i);
    var bytes := SerializeFlat(i).value;
    assert Deserialize(env, bytes).None?;
    RereadIs(env, i, i, bytes);
  }

  /** A list that holds it cannot even be written. */
  lemma ImpostorSpoilsList(env: Env)
    requires Folds(env)
    ensures var i := Around(Impostor()); Sound(env, i) && Typed(env, i) && !Serializable(env, i) && !ReadsBack(env, i)
  {
    var i := Around(Impostor());
    ImpostorIsUnreadable(env);
    PlainTags(env, []);
    FinalTagsAreGood(env, i);
  }
}
