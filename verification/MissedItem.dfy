/** A nested bundle that the search by offset takes for a plain item, because a chunk ends in its
    header (src/dev_arweave_offset.erl:255-302, src/ar_bundles.erl:575-600). */
module MissedItem {
  import opened Options
  import opened Bytes
  import opened AvroTags
  import opened DataItems
  import opened Bundles
  import opened BundleRoundTrip
  import opened HeaderCuts
  import opened OffsetLookup
  import opened Layouts
  import opened OffsetSearch
  import opened DeepestItem
  import StoredTree

  /** The data of one transaction, in two chunks. */
  function TwoChunks(data: Bytes, cut: nat): World {
    World(data, (p: nat) => if p < cut then cut else |data|, (p: nat) => 0, (p: nat) => false)
  }

  /** How many bytes of a header come before its tags. */
  function BeforeTags(env: Env, i: Item): nat
    requires Serializable(env, i)
  {
    |EncodeHeader(FlatOf(env, i))| - |EncodeTags(FlatOf(env, i).tags)|
  }

  lemma BundleHasTags(env: Env, c: Item)
    requires Folds(env) && WellFormed(env, c) && Serializable(env, c) && c.data.List?
    ensures
      var header := TreeOf(env, c).header;
      0 < BeforeTags(env, c) < |header| && CutHeader(FlatOf(env, c), BeforeTags(env, c)) == Some([])
  {
    assert |BINARY| == 6;
    assert TypeOf(env, []).BinaryType?;
    assert FlatOf(env, c).tags != [];
  }

  /** `c` is a bundle with children, and the first member of the bundle `b`. */
  ghost predicate Nested(env: Env, b: StoredTree.Tree, c: StoredTree.Tree) {
    StoredTree.Built(env, b) && b.bundle && b.children != [] && c == b.children[0] && c.bundle && c.children != []
  }

  lemma FirstByte(env: Env, b: StoredTree.Tree, c: StoredTree.Tree)
    requires Nested(env, b, c)
    ensures StoredTree.Built(env, c) && c.header != []
    ensures |c.header| + IndexSize(|c.children|) < |StoredTree.Whole(c)| <= |b.data| - IndexSize(|b.children|)
  {
    var g := c.children[0];
    assert StoredTree.Built(env, c) && StoredTree.Built(env, g);
    assert DecodeHeader(c.header + []).Parsed? && DecodeHeader(g.header + []).Parsed?;
    assert c.entries[0].bytes == StoredTree.Whole(g) && b.entries[0].bytes == StoredTree.Whole(c);
  }

  /** The deepest item at the first byte of the first child of `c`. */
  lemma DeepestInNested(env: Env, b: StoredTree.Tree, c: StoredTree.Tree) returns (x: Option<Extent>)
    requires Nested(env, b, c)
    ensures
      var at := IndexSize(|b.children|);
      var t := at + |c.header| + IndexSize(|c.children|);
      Innermost(StoredTree.ItemsOf(b, 0), t, x) && x.Some? && x.value.start > at
  {
    var at := IndexSize(|b.children|);
    var t := at + |c.header| + IndexSize(|c.children|);
    var l := StoredTree.LayoutOf(b);
    FirstByte(env, b, c);
    StoredTree.LayoutSize(env, c);
    assert l.children[0] == StoredTree.LayoutOf(c);
    InnerStart(l.children[0], at, t);
    DeepestIsInnermost(l, 0, at, t);
    x := Deepest(l, 0, at, t);
  }

  lemma FirstSlot(env: Env, b: StoredTree.Tree, c: StoredTree.Tree)
    requires Nested(env, b, c)
    ensures Slots(b.entries) != [] && Slots(b.entries)[0].size == |StoredTree.Whole(c)|
  {
    StoredTree.SlotsAt(b.entries, 0);
    assert b.entries[0].bytes == StoredTree.Whole(c);
  }

  lemma FirstIsAt(env: Env, w: World, b: StoredTree.Tree, c: StoredTree.Tree)
    requires Nested(env, b, c) && StoredTree.BundleStored(env, w, b, 0)
    ensures StoredTree.IsHeader(env, c) && StoredTree.At(w, IndexSize(|b.children|), c.header)
  {
    StoredTree.AtFront(w, 0, BundleIndex(b.entries), Payload(b.entries));
    assert b.entries[0..] == b.entries;
    StoredTree.ChildIsAt(env, w, b, 0, IndexSize(|b.children|));
  }

  /** What the search makes of `c`. */
  lemma FirstIsCut(env: Env, w: World, r: Reader, b: StoredTree.Tree, c: StoredTree.Tree, t: nat)
    requires Nested(env, b, c) && StoredTree.IsReader(env, w, r) && StoredTree.Chunked(w)
    requires StoredTree.BundleStored(env, w, b, 0)
    requires IndexSize(|b.children|) < |w.weave| && !StoredTree.InChunk(w, IndexSize(|b.children|), |c.header|)
    ensures
      var at := IndexSize(|b.children|);
      r.member(t, at, |StoredTree.Whole(c)|) == StoredTree.AfterCut(env, w, c, at, t)
  {
    FirstIsAt(env, w, b, c);
    StoredTree.CutMember(env, w, r, c, IndexSize(|b.children|), t);
  }

  /** The search reads the index of `b`, and the front of the header of `c`. */
  lemma SearchStops(env: Env, w: World, r: Reader, b: StoredTree.Tree, c: StoredTree.Tree, t: nat)
    requires Nested(env, b, c) && StoredTree.IsReader(env, w, r) && StoredTree.Chunked(w)
    requires StoredTree.BundleStored(env, w, b, 0) && StoredTree.InChunk(w, 0, 32)
    requires
      var at := IndexSize(|b.children|);
      && at <= t < at + |StoredTree.Whole(c)| <= |w.weave| && !StoredTree.InChunk(w, at, |c.header|)
      && StoredTree.AfterCut(env, w, c, at, t) == Answer(Found(at, |StoredTree.Whole(c)|))
    ensures FromBundle(r, t, 0) == Found(IndexSize(|b.children|), |StoredTree.Whole(c)|)
  {
    var at := IndexSize(|b.children|);
    FirstSlot(env, b, c);
    FirstIsCut(env, w, r, b, c, t);
    StoredTree.IndexIsRead(env, w, r, b, 0);
  }

  lemma CutWorld(env: Env, b: StoredTree.Tree, c: StoredTree.Tree, n: nat) returns (w: World)
    requires Nested(env, b, c) && 0 < n < |c.header|
    ensures w == TwoChunks(b.data, IndexSize(|b.children|) + n)
    ensures StoredTree.Chunked(w) && StoredTree.BundleStored(env, w, b, 0) && StoredTree.InChunk(w, 0, 32)
    ensures
      var at := IndexSize(|b.children|);
      && at + |StoredTree.Whole(c)| <= |w.weave| && !StoredTree.InChunk(w, at, |c.header|)
      && StoredTree.Seen(w, at, |c.header|) == n
  {
    FirstByte(env, b, c);
    w := TwoChunks(b.data, IndexSize(|b.children|) + n);
    assert w.weave[0..|b.data|] == b.data;
  }

  /** Without tags, the front of a header is that of an item that is no bundle. */
  lemma TakenForItem(env: Env, w: World, i: Item, at: nat, t: nat)
    requires Folds(env) && WellFormed(env, i) && Serializable(env, i) && i.data.List?
    requires StoredTree.Seen(w, at, |TreeOf(env, i).header|) == BeforeTags(env, i)
    ensures
      StoredTree.AfterCut(env, w, TreeOf(env, i), at, t) == Answer(Found(at, |StoredTree.Whole(TreeOf(env, i))|))
  {
    BundleHasTags(env, i);
    AfterCutOf(env, w, i, at, t);
    assert |BINARY| == 6;
    assert TypeOf(env, []).BinaryType?;
  }

  /** A list of items of which the first is again a list of items. */
  ghost predicate Nesting(env: Env, i: Item) {
    && WellFormed(env, i) && i.data.List? && i.data.items != []
    && i.data.items[0].data.List? && i.data.items[0].data.items != []
  }

  lemma TreesNest(env: Env, i: Item)
    requires Nesting(env, i)
    ensures WellFormed(env, i.data.items[0]) && Serializable(env, i.data.items[0])
    ensures Nested(env, TreeOf(env, i), TreeOf(env, i.data.items[0]))
  {
    TreeIsBuilt(env, i);
    assert WellFormed(env, i.data.items[0]);
    TreeIsBuilt(env, i.data.items[0]);
    ChildAt(env, i, 0);
  }

  /** The first byte of the first item in `c`. */
  function FirstInside(b: StoredTree.Tree, c: StoredTree.Tree): nat {
    IndexSize(|b.children|) + |c.header| + IndexSize(|c.children|)
  }

  lemma TreeIsMissed(env: Env, b: StoredTree.Tree, c: StoredTree.Tree, n: nat, w: World) returns (x: Extent)
    requires Nested(env, b, c) && 0 < n < |c.header| && w == TwoChunks(b.data, IndexSize(|b.children|) + n)
    requires
      var at := IndexSize(|b.children|);
      StoredTree.AfterCut(env, w, c, at, FirstInside(b, c)) == Answer(Found(at, |StoredTree.Whole(c)|))
    ensures StoredTree.Chunked(w) && FirstInside(b, c) < |w.weave|
    ensures MessageFromOffset(env, w, FirstInside(b, c)) == Found(IndexSize(|b.children|), |StoredTree.Whole(c)|)
    ensures Innermost(StoredTree.ItemsOf(b, 0), FirstInside(b, c), Some(x)) && x.start > IndexSize(|b.children|)
  {
    var w' := CutWorld(env, b, c, n);
    FirstByte(env, b, c);
    var r := StoredTree.MessageIsSearched(env, w, FirstInside(b, c));
    SearchStops(env, w, r, b, c, FirstInside(b, c));
    x := InsideNested(env, b, c);
  }

  lemma InsideNested(env: Env, b: StoredTree.Tree, c: StoredTree.Tree) returns (x: Extent)
    requires Nested(env, b, c)
    ensures Innermost(StoredTree.ItemsOf(b, 0), FirstInside(b, c), Some(x)) && x.start > IndexSize(|b.children|)
  {
    var y := DeepestInNested(env, b, c);
    x := y.value;
  }

  /** Two chunks, of which the first ends in the header of that first item, where its tags begin. */
  lemma CutAtTags(env: Env, first: Item, b: StoredTree.Tree, c: StoredTree.Tree) returns (w: World, n: nat)
    requires Folds(env) && WellFormed(env, first) && Serializable(env, first) && first.data.List?
    requires c == TreeOf(env, first) && Nested(env, b, c)
    ensures
      var at := IndexSize(|b.children|);
      && 0 < n < |c.header| && w == TwoChunks(b.data, at + n)
      && StoredTree.AfterCut(env, w, c, at, FirstInside(b, c)) == Answer(Found(at, |StoredTree.Whole(c)|))
  {
    BundleHasTags(env, first);
    n := BeforeTags(env, first);
    w := CutWorld(env, b, c, n);
    TakenForItem(env, w, first, IndexSize(|b.children|), FirstInside(b, c));
  }

  /** The data of `w` are those of `b`; the lookup of `t` finds `found`, but there is an item in it. */
  ghost predicate Misses(env: Env, w: World, b: StoredTree.Tree, t: nat, found: Extent, innermost: Extent) {
    && StoredTree.Chunked(w) && w.weave == b.data && t < |w.weave| && w.dataStart(t) == 0 && b.bundle
    && MessageFromOffset(env, w, t) == Found(found.start, found.size)
    && Innermost(StoredTree.ItemsOf(b, 0), t, Some(innermost)) && innermost.start > found.start
  }

  lemma FirstIsMissed(env: Env, first: Item, b: StoredTree.Tree, c: StoredTree.Tree)
    returns (w: World, t: nat, found: Extent, innermost: Extent)
    requires Folds(env) && WellFormed(env, first) && Serializable(env, first) && first.data.List?
    requires c == TreeOf(env, first) && Nested(env, b, c)
    ensures Misses(env, w, b, t, found, innermost)
  {
    var n;
    w, n := CutAtTags(env, first, b, c);
    t := FirstInside(b, c);
    innermost := TreeIsMissed(env, b, c, n, w);
    found := Extent(IndexSize(|b.children|), |StoredTree.Whole(c)|);
  }

  /** Then the lookup of the first byte of the first item in it finds the item around it. */
  lemma NestedIsMissed(env: Env, i: Item) returns (w: World, t: nat, found: Extent, innermost: Extent)
    requires Folds(env) && Nesting(env, i)
    ensures Misses(env, w, TreeOf(env, i), t, found, innermost)
  {
    TreesNest(env, i);
    w, t, found, innermost := FirstIsMissed(env, i.data.items[0], TreeOf(env, i), TreeOf(env, i.data.items[0]));
  }

  //////////////////////////////////////////////////////////////////////////////
  // Such lists exist
  //////////////////////////////////////////////////////////////////////////////

  function EmptyItem(): Item { Item(Ed25519, Zeros(64), Zeros(32), [], [], [], Binary([])) }

  function Nest(): Item { Around(Around(EmptyItem())) }

  lemma {:induction false} LimitIsLarge(width: nat)
    requires width >= 2
    ensures Limit(width) >= 65536
    decreases width
  {
    if width == 2 {
      assert Limit(1) == 256 * Limit(0);
    } else {
      LimitIsLarge(width - 1);
    }
  }

  lemma BundleTagsSize(env: Env)
    requires Folds(env)
    ensures |EncodeTags(WithBundleTags(env, []))| == 44
  {
    var (f, v) := (Tag(FORMAT, BINARY), Tag(VERSION, TWO));
    assert |FORMAT| == 13 && |VERSION| == 14 && |BINARY| == 6 && |TWO| == 5;
    assert WithBundleTags(env, []) == [f, v] && [f, v][1..] == [v];
    assert EncodeTagList([v]) == EncodeSized(VERSION) + EncodeSized(TWO) + EncodeTagList([]);
    assert |EncodeZigzag(2)| == 1;
  }

  /** A list with one item in it. */
  lemma AroundEntries(env: Env, x: Item)
    requires Entries(env, Around(x), 0, true).Some?
    ensures
      var es := Entries(env, Around(x), 0, true).value;
      Serializable(env, x) && |es| == 1 && es[0].bytes == Serialized(env, x)
  {
    assert Entries(env, Around(x), 1, true) == Some([]);
  }

  lemma EmptySize(env: Env)
    requires Serializable(env, EmptyItem())
    ensures |Serialized(env, EmptyItem())| == 116
  {
  }

  lemma AroundSize(env: Env, x: Item)
    requires Folds(env) && Serializable(env, Around(x))
    ensures Serializable(env, x) && |Serialized(env, Around(x))| == 256 + |Serialized(env, x)|
  {
    AroundEntries(env, x);
    BundleTagsSize(env);
    var flat := Flatten(env, Around(x), true).value;
    var es := Entries(env, Around(x), 0, true).value;
    assert es == [es[0]] && Payload(es) == es[0].bytes + Payload([]);
  }

  /** A plain item with small fields that takes less than `size` bytes. */
  ghost predicate Small(env: Env, x: Item, size: nat) {
    Plain(env, x) && Fields(env, x) && (Serializable(env, x) ==> |Serialized(env, x)| < size)
  }

  lemma OneIsSized(es: seq<Entry>)
    requires |es| == 1 && |es[0].bytes| < 65536
    ensures Sized(es)
  {
    LimitIsLarge(32);
  }

  lemma SizedAround(env: Env, x: Item)
    requires Serializable(env, x) ==> |Serialized(env, x)| < 65536
    requires Entries(env, Around(x), 0, true).Some?
    ensures Sized(Entries(env, Around(x), 0, true).value)
  {
    AroundEntries(env, x);
    OneIsSized(Entries(env, Around(x), 0, true).value);
  }

  lemma SmallAround(env: Env, x: Item, size: nat)
    requires Folds(env) && Small(env, x, size) && size <= 65536
    ensures Small(env, Around(x), 257 + size)
  {
    var i := Around(x);
    LimitIsLarge(8);
    PlainTags(env, []);
    if Entries(env, i, 0, true).Some? {
      SizedAround(env, x);
    }
    assert Plain(env, i) && Fields(env, i);
    if Serializable(env, i) {
      AroundSize(env, x);
    }
  }

  lemma SmallEmpty(env: Env)
    ensures Small(env, EmptyItem(), 117)
  {
    LimitIsLarge(8);
    if Serializable(env, EmptyItem()) {
      EmptySize(env);
    }
  }

  lemma NestIsNesting(env: Env)
    requires Folds(env)
    ensures Nesting(env, Nest())
  {
    SmallEmpty(env);
    SmallAround(env, EmptyItem(), 117);
    SmallAround(env, Around(EmptyItem()), 374);
    PlainIsSound(env, Nest());
    PlainIsTyped(env, Nest());
  }
}
