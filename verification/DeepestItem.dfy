/** The search by offset in the bundle that a tree of items is serialized to
    (src/ar_bundles.erl:236-304, src/dev_arweave_offset.erl:165-337). */
module DeepestItem {
  import opened Options
  import opened Bytes
  import opened AvroTags
  import opened DataItems
  import opened Bundles
  import opened BundleRoundTrip
  import opened OffsetLookup
  import opened Layouts
  import opened OffsetSearch
  import opened HeaderCuts
  import StoredTree

  type Tree = StoredTree.Tree

  function FlatOf(env: Env, i: Item): Item
    requires Serializable(env, i)
  {
    Flatten(env, i, true).value
  }

  /** The parts of a serialized item; nothing if it cannot be serialized. */
  function TreeOf(env: Env, i: Item): Tree
    decreases i, 1, 0
  {
    if !Serializable(env, i) then StoredTree.Tree([], [], false, [], [])
    else PartsOf(FlatOf(env, i), i.data.List?, EntriesFrom(env, i, 0), if i.data.List? then ChildTrees(env, i, 0) else [])
  }

  function PartsOf(flat: Item, list: bool, entries: seq<Entry>, children: seq<Tree>): Tree
    requires flat.data.Binary?
  {
    StoredTree.Tree(EncodeHeader(flat), flat.data.bytes, list, entries, children)
  }

  function EntriesFrom(env: Env, i: Item, k: nat): seq<Entry> {
    if i.data.List? && Members(env, i).Some? && k <= |i.data.items| && Entries(env, i, k, true).Some? then
      Entries(env, i, k, true).value
    else []
  }

  function ChildTrees(env: Env, i: Item, k: nat): (ts: seq<Tree>)
    requires i.data.List? && k <= |i.data.items|
    ensures |ts| == |i.data.items| - k
    decreases i, 0, |i.data.items| - k
  {
    if k == |i.data.items| then [] else [TreeOf(env, i.data.items[k])] + ChildTrees(env, i, k + 1)
  }

  lemma EntryShape(env: Env, i: Item, k: nat)
    requires i.data.List? && Members(env, i).Some? && k < |i.data.items| && Entries(env, i, k, true).Some?
    ensures Entries(env, i, k + 1, true).Some? && Serializable(env, i.data.items[k])
    ensures
      var es := Entries(env, i, k, true).value;
      && es != [] && es[1..] == Entries(env, i, k + 1, true).value
      && es[0] == Entry(env.id(Serialized(env, i.data.items[k])), Serialized(env, i.data.items[k]))
  {
  }

  /** Sequences of which each is the next one with one element more in front. */
  ghost predicate Tails<T>(f: nat -> seq<T>, n: nat) {
    f(n) == [] && forall k: nat | k < n :: f(k) != [] && f(k)[1..] == f(k + 1)
  }

  lemma {:induction false} TailsAt<T>(f: nat -> seq<T>, n: nat, k: nat, j: nat)
    requires Tails(f, n) && k <= j <= n
    ensures |f(k)| == n - k && (j < n ==> f(k)[j - k] == f(j)[0])
    decreases n - k
  {
    if k < n {
      TailsAt(f, n, k + 1, if k < j then j else j + 1);
      assert f(k)[1..] == f(k + 1);
    }
  }

  lemma EntryNext(env: Env, i: Item, k: nat)
    requires i.data.List? && Members(env, i).Some? && k < |i.data.items| && Entries(env, i, k, true).Some?
    ensures Entries(env, i, k + 1, true).Some?
  {
    EntryShape(env, i, k);
  }

  predicate HasEntries(env: Env, i: Item, k: nat) {
    i.data.List? && Members(env, i).Some? && k <= |i.data.items| && Entries(env, i, k, true).Some?
  }

  lemma AllEntries(env: Env, i: Item, k: nat)
    requires HasEntries(env, i, 0) && k <= |i.data.items|
    ensures HasEntries(env, i, k)
  {
    forall j: nat | j < |i.data.items| && HasEntries(env, i, j) ensures HasEntries(env, i, j + 1) {
      EntryNext(env, i, j);
    }
    Chain((j: nat) => HasEntries(env, i, j), |i.data.items|, k);
  }

  lemma EntryTail(env: Env, i: Item, k: nat)
    requires HasEntries(env, i, 0) && k < |i.data.items|
    ensures EntriesFrom(env, i, k) != [] && EntriesFrom(env, i, k)[1..] == EntriesFrom(env, i, k + 1)
  {
    AllEntries(env, i, k);
    EntryShape(env, i, k);
  }

  lemma EntryTails(env: Env, i: Item, n: nat)
    requires i.data.List? && Members(env, i).Some? && n == |i.data.items| && Entries(env, i, 0, true).Some?
    ensures Tails((k: nat) => EntriesFrom(env, i, k), n)
  {
    forall k: nat | k < n
      ensures EntriesFrom(env, i, k) != [] && EntriesFrom(env, i, k)[1..] == EntriesFrom(env, i, k + 1)
    {
      EntryTail(env, i, k);
    }
    AllEntries(env, i, n);
  }

  /** There is one entry for each child, and it holds the bytes of the child and their ID. */
  lemma EntryAt(env: Env, i: Item, k: nat)
    requires i.data.List? && Members(env, i).Some? && Entries(env, i, 0, true).Some? && k < |i.data.items|
    ensures |EntriesFrom(env, i, 0)| == |i.data.items| && Serializable(env, i.data.items[k])
    ensures EntriesFrom(env, i, 0)[k] == Entry(env.id(Serialized(env, i.data.items[k])), Serialized(env, i.data.items[k]))
  {
    var f := (k: nat) => EntriesFrom(env, i, k);
    EntryTails(env, i, |i.data.items|);
    TailsAt(f, |i.data.items|, 0, k);
    AllEntries(env, i, k);
    EntryShape(env, i, k);
    assert f(0)[k] == f(k)[0];
  }

  function ChildTreesFrom(env: Env, i: Item, k: nat): seq<Tree> {
    if i.data.List? && k <= |i.data.items| then ChildTrees(env, i, k) else []
  }

  lemma ChildAt(env: Env, i: Item, k: nat)
    requires i.data.List? && k < |i.data.items|
    ensures ChildTrees(env, i, 0)[k] == TreeOf(env, i.data.items[k])
  {
    var f := (k: nat) => ChildTreesFrom(env, i, k);
    ChildTails(env, i, f);
    TailsAt(f, |i.data.items|, 0, k);
    assert f(0)[k] == f(k)[0];
  }

  lemma ChildTails(env: Env, i: Item, f: nat -> seq<Tree>)
    requires i.data.List? && forall k: nat :: f(k) == ChildTreesFrom(env, i, k)
    ensures Tails(f, |i.data.items|)
  {
    forall k: nat | k < |i.data.items| ensures f(k) != [] && f(k)[1..] == f(k + 1) {
      assert f(k) == [TreeOf(env, i.data.items[k])] + f(k + 1);
    }
  }

  lemma HeaderIsRead(env: Env, i: Item)
    requires SoundNode(env, i) && Typed(env, i) && Serializable(env, i)
    ensures StoredTree.IsHeader(env, TreeOf(env, i))
  {
    var flat := FlatOf(env, i);
    forall suffix: Bytes ensures DecodeHeader(EncodeHeader(flat) + suffix) == Parsed(flat.(data := Binary(suffix)), suffix) {
      HeaderRoundTrip(flat, suffix);
    }
  }

  lemma ListTree(env: Env, i: Item)
    requires i.data.List? && WellFormed(env, i) && Serializable(env, i)
    ensures Members(env, i).Some? && GoodChildren(env, i) && Entries(env, i, 0, true).Some?
    ensures Sized(EntriesFrom(env, i, 0)) && FlatOf(env, i).data == Binary(Finalize(EntriesFrom(env, i, 0)))
  {
  }

  /** A well-formed tree of items makes a tree of bytes that decodes. */
  lemma {:induction false} TreeIsBuilt(env: Env, i: Item)
    requires WellFormed(env, i)
    ensures Serializable(env, i) && StoredTree.Built(env, TreeOf(env, i))
    decreases i, 1, 0
  {
    TreeReadsBack(env, i);
    HeaderIsRead(env, i);
    if i.data.List? {
      ListTree(env, i);
      ListIsBuilt(env, i, TreeOf(env, i));
    }
  }

  lemma {:induction false} ListIsBuilt(env: Env, i: Item, t: Tree)
    requires i.data.List? && Members(env, i).Some? && GoodChildren(env, i) && Entries(env, i, 0, true).Some?
    requires StoredTree.IsHeader(env, t) && t.bundle
    requires t.entries == EntriesFrom(env, i, 0) && t.children == ChildTrees(env, i, 0)
    requires Sized(t.entries) && t.data == Finalize(t.entries)
    ensures StoredTree.Built(env, t)
    decreases i, 0, 0
  {
    if i.data.items == [] {
      AllEntries(env, i, 0);
    }
    forall k | 0 <= k < |i.data.items|
      ensures |t.entries| == |i.data.items|
      ensures StoredTree.Built(env, t.children[k]) && t.entries[k].bytes == StoredTree.Whole(t.children[k])
    {
      ChildAt(env, i, k);
      EntryAt(env, i, k);
      assert WellFormed(env, i.data.items[k]);
      TreeIsBuilt(env, i.data.items[k]);
    }
  }

  /** The data of a transaction are the bundle of a well-formed list. */
  ghost predicate HoldsList(env: Env, w: World, i: Item, at: nat) {
    WellFormed(env, i) && i.data.List? && StoredTree.Chunked(w) && StoredTree.At(w, at, TreeOf(env, i).data)
  }

  /** Looking up a byte of them finds the innermost item that holds the byte, and nothing if no item
      does, exactly if the search reaches the item. */
  lemma LookupFindsInnermost(env: Env, w: World, i: Item, t: nat) returns (x: Option<Extent>, r: Reader)
    requires HoldsList(env, w, i, w.dataStart(t)) && t < |w.weave|
    ensures r == ReaderOf(env, w) && TreeOf(env, i).bundle
    ensures Innermost(StoredTree.ItemsOf(TreeOf(env, i), w.dataStart(t)), t, x)
    ensures
      MessageFromOffset(env, w, t) == Answered(x)
      <==> StoredTree.Reached(w, StoredTree.HarmlessCuts(env, w, r, t), TreeOf(env, i), w.dataStart(t), t)
  {
    TreeIsBuilt(env, i);
    x, r := StoredTree.LookupExact(env, w, TreeOf(env, i), t);
  }

  /** It does if nothing that it reads on the way to the item is cut off by the end of a chunk. */
  lemma ReadableIsFound(env: Env, w: World, i: Item, t: nat) returns (x: Option<Extent>)
    requires HoldsList(env, w, i, w.dataStart(t)) && t < |w.weave|
    requires TreeOf(env, i).bundle && StoredTree.ReadableFor(w, TreeOf(env, i), w.dataStart(t), t)
    ensures MessageFromOffset(env, w, t) == Answered(x)
    ensures Innermost(StoredTree.ItemsOf(TreeOf(env, i), w.dataStart(t)), t, x)
  {
    var r;
    x, r := LookupFindsInnermost(env, w, i, t);
    StoredTree.ReadableIsReached(w, StoredTree.HarmlessCuts(env, w, r, t), TreeOf(env, i), w.dataStart(t), t);
  }

  //////////////////////////////////////////////////////////////////////////////
  // Headers that are cut off
  //////////////////////////////////////////////////////////////////////////////

  lemma HeaderIsEncoded(env: Env, i: Item)
    requires WellFormed(env, i) && Serializable(env, i)
    ensures
      var flat := FlatOf(env, i);
      && TreeOf(env, i).header == EncodeHeader(flat) && Fitting(flat) && Named(flat.tags) && |flat.tags| < Limit(8)
  {
  }

  /** What the search makes of an item whose header is cut off depends on which of its tags come before
      the cut. */
  lemma AfterCutOfFlat(env: Env, w: World, flat: Item, c: Tree, at: nat, t: nat)
    requires c.header == EncodeHeader(flat) && Fitting(flat) && Named(flat.tags) && |flat.tags| < Limit(8)
    requires StoredTree.Seen(w, at, |c.header|) < |c.header|
    ensures
      var n := StoredTree.Seen(w, at, |c.header|);
      StoredTree.AfterCut(env, w, c, at, t)
      == match CutHeader(flat, n)
         case None => Answer(Error)
         case Some(tags) =>
           if t < at + n || TypeOf(env, tags).BinaryType? then Answer(Found(at, |StoredTree.Whole(c)|)) else Into(at + n)
  {
    CutDecodes(flat, StoredTree.Seen(w, at, |c.header|));
  }

  lemma AfterCutOf(env: Env, w: World, i: Item, at: nat, t: nat)
    requires WellFormed(env, i) && Serializable(env, i)
    requires StoredTree.Seen(w, at, |TreeOf(env, i).header|) < |TreeOf(env, i).header|
    ensures |TreeOf(env, i).header| == |EncodeHeader(FlatOf(env, i))|
    ensures
      var c := TreeOf(env, i);
      var n := StoredTree.Seen(w, at, |c.header|);
      StoredTree.AfterCut(env, w, c, at, t)
      == match CutHeader(FlatOf(env, i), n)
         case None => Answer(Error)
         case Some(tags) =>
           if t < at + n || TypeOf(env, tags).BinaryType? then Answer(Found(at, |StoredTree.Whole(c)|)) else Into(at + n)
  {
    HeaderIsEncoded(env, i);
    AfterCutOfFlat(env, w, FlatOf(env, i), TreeOf(env, i), at, t);
  }
}
