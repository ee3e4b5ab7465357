/** A nested bundle as bytes in the weave, and what the search by offset finds in it
    (src/dev_arweave_offset.erl:165-337). */
module StoredTree {
  import opened Options
  import opened Bytes
  import opened AvroTags
  import opened DataItems
  import opened Bundles
  import opened OffsetLookup
  import opened Layouts
  import opened OffsetSearch
  import opened HeaderCuts

  /** An item: its header and its data, which a bundle makes up from its entries. */
  datatype Tree = Tree(header: Bytes, data: Bytes, bundle: bool, entries: seq<Entry>, children: seq<Tree>)

  function Whole(t: Tree): Bytes { t.header + t.data }

  /** A decoder takes the header off the front of any bytes, and its tags say if this is a bundle. An
      item without data may claim to be one. */
  ghost predicate IsHeader(env: Env, t: Tree) {
    forall suffix: Bytes {:trigger DecodeHeader(t.header + suffix)} ::
      var p := DecodeHeader(t.header + suffix);
      && p.Parsed? && p.rest == suffix
      && (TypeOf(env, p.value.tags).BinaryType? ==> !t.bundle)
      && (!TypeOf(env, p.value.tags).BinaryType? ==> t.bundle || t.data == [])
  }

  ghost predicate Built(env: Env, t: Tree)
    decreases t
  {
    && IsHeader(env, t)
    && (t.bundle ==>
         && t.data == Finalize(t.entries) && Sized(t.entries) && |t.children| == |t.entries|
         && forall k | 0 <= k < |t.children| :: Built(env, t.children[k]) && t.entries[k].bytes == Whole(t.children[k]))
  }

  function LayoutOf(t: Tree): (l: Layout)
    ensures l.Node? <==> t.bundle
    decreases t
  {
    if t.bundle then
      Node(|t.header|, seq(|t.children|, (k: nat) requires k < |t.children| => LayoutOf(t.children[k])))
    else Leaf(|Whole(t)|)
  }

  lemma {:induction false} LayoutSize(env: Env, t: Tree)
    requires Built(env, t)
    ensures Size(LayoutOf(t)) == |Whole(t)|
    decreases t, 0
  {
    if t.bundle {
      PayloadSize(env, t, 0);
      assert t.entries[0..] == t.entries;
    }
  }

  lemma {:induction false} PayloadSize(env: Env, t: Tree, k: nat)
    requires Built(env, t) && t.bundle && k <= |t.entries|
    ensures |Payload(t.entries[k..])| == Total(LayoutOf(t), k)
    decreases t, 0, |t.entries| - k
  {
    if k < |t.entries| {
      LayoutSize(env, t.children[k]);
      PayloadSize(env, t, k + 1);
      assert t.entries[k..][1..] == t.entries[k + 1..];
    }
  }

  //////////////////////////////////////////////////////////////////////////////
  // Reading one header
  //////////////////////////////////////////////////////////////////////////////

  ghost predicate At(w: World, p: nat, b: Bytes) {
    p + |b| <= |w.weave| && w.weave[p..p + |b|] == b
  }

  /** The chunk at `p` holds at least `n` bytes from `p` on. */
  predicate InChunk(w: World, p: nat, n: nat) {
    p < w.chunkEnd(p) <= |w.weave| && p + n <= w.chunkEnd(p)
  }

  lemma AtFront(w: World, p: nat, a: Bytes, b: Bytes)
    requires At(w, p, a + b)
    ensures At(w, p, a) && At(w, p + |a|, b)
  {
    var all := w.weave[p..p + |a + b|];
    assert all[..|a|] == a && all[|a|..] == b;
    assert w.weave[p..p + |a|] == all[..|a|];
    assert w.weave[p + |a|..p + |a| + |b|] == all[|a|..];
  }

  lemma CountIs(w: World, at: nat, header: Bytes)
    requires 32 <= |header| && At(w, at, header) && InChunk(w, at, 32)
    ensures
      var chunk := ChunkFrom(w, at);
      chunk.Some? && |chunk.value| >= 32 && chunk.value[..32] == header[..32]
  {
    var chunk := w.weave[at..w.chunkEnd(at)];
    forall j | 0 <= j < 32 ensures chunk[j] == header[j] {
      assert chunk[j] == w.weave[at + j] == w.weave[at..at + |header|][j];
    }
  }

  lemma HeaderIs(w: World, at: nat, header: Bytes, slots: seq<Slot>)
    requires 32 <= |header| == 32 + 64 * FromLittleEndian(header[..32])
    requires At(w, at, header) && InChunk(w, at, 32) && DecodeBundleHeader(header) == Parsed(slots, [])
    ensures BundleHeader(w, at) == Header(|header|, slots)
  {
    CountIs(w, at, header);
  }

  lemma IndexAlone(es: seq<Entry>)
    requires Sized(es)
    ensures DecodeBundleHeader(BundleIndex(es)) == Parsed(Slots(es), [])
    ensures FromLittleEndian(BundleIndex(es)[..32]) == |es|
  {
    LittleEndianRoundTrip(|es|, 32);
    BundleHeaderRoundTrip(es, []);
    assert BundleIndex(es) + [] == BundleIndex(es);
  }

  /** A bundle's index is read, and its items follow. */
  lemma HeaderFound(w: World, at: nat, es: seq<Entry>, header: Bytes)
    requires Sized(es) && header == BundleIndex(es)
    requires At(w, at, header + Payload(es)) && InChunk(w, at, 32)
    ensures BundleHeader(w, at) == Header(|header|, Slots(es))
    ensures At(w, at + |header|, Payload(es))
  {
    AtFront(w, at, header, Payload(es));
    IndexAlone(es);
    HeaderIs(w, at, header, Slots(es));
  }

  /** The index of a stored bundle is read exactly if the number of its items is in one chunk. */
  lemma IndexReadIff(w: World, at: nat, es: seq<Entry>)
    requires Sized(es) && At(w, at, Finalize(es)) && at < w.chunkEnd(at) <= |w.weave|
    ensures BundleHeader(w, at).Header? <==> InChunk(w, at, 32)
  {
    if InChunk(w, at, 32) {
      HeaderFound(w, at, es, BundleIndex(es));
    }
  }

  //////////////////////////////////////////////////////////////////////////////
  // What the search reads
  //////////////////////////////////////////////////////////////////////////////

  ghost predicate Chunked(w: World) {
    forall p: nat | p < |w.weave| :: p < w.chunkEnd(p) <= |w.weave|
  }

  /** How many of `size` bytes at `at` are in the chunk that holds the first. */
  function Seen(w: World, at: nat, size: nat): (n: nat)
    ensures n <= size
  {
    if w.chunkEnd(at) <= at then 0 else if w.chunkEnd(at) - at < size then w.chunkEnd(at) - at else size
  }

  /** Whether something holds of an item at a place. */
  type Judgement = (Tree, nat) -> bool

  /** The search for `t` is right about the bundle at `at`: the number of its items is read, and the
      search is right about the member that holds `t`. Nothing is asked of other members. `cut` says
      which members that are cut off do no harm. */
  predicate Reached(w: World, cut: Judgement, b: Tree, at: nat, t: nat)
    requires b.bundle
    decreases b, 2, 0
  {
    InChunk(w, at, 32) && ReachedFrom(w, cut, b, 0, at + IndexSize(|b.children|), t)
  }

  predicate ReachedFrom(w: World, cut: Judgement, b: Tree, k: nat, at: nat, t: nat)
    requires b.bundle && k <= |b.children|
    decreases b, 1, |b.children| - k
  {
    k < |b.children| && at <= t ==>
      var c := b.children[k];
      if t < at + |Whole(c)| then MemberReached(w, cut, c, at, t)
      else ReachedFrom(w, cut, b, k + 1, at + |Whole(c)|, t)
  }

  /** A header that is in one chunk is read, and a bundle is looked into if `t` is behind its header. */
  predicate MemberReached(w: World, cut: Judgement, c: Tree, at: nat, t: nat)
    decreases c, 3, 0
  {
    if InChunk(w, at, |c.header|) then
      c.bundle && at + |c.header| <= t ==> Reached(w, cut, c, at + |c.header|, t)
    else cut(c, at)
  }

  /** What the search makes of a member whose header is cut off by the end of its chunk. What is there
      must decode. Then the member is the answer if `t` comes before the cut, or if the tags that are
      there do not say that it is a bundle. Otherwise its index is read at the cut, which is too early. */
  function AfterCut(env: Env, w: World, c: Tree, at: nat, t: nat): Next {
    var n := Seen(w, at, |c.header|);
    var p := DecodeHeader(c.header[..n]);
    if p.Crash? then Answer(Error)
    else if t < at + n || TypeOf(env, p.value.tags).BinaryType? then Answer(Found(at, |Whole(c)|))
    else Into(at + n)
  }

  /** That is right if the member is the answer and `t` comes before its first child. */
  ghost predicate CutIsHarmless(env: Env, w: World, r: Reader, c: Tree, at: nat, t: nat)
    requires r.Ok()
  {
    NextRight(r, LayoutOf(c), at, t, AfterCut(env, w, c, at, t))
  }

  /** `r` reads the weave `w`. */
  ghost predicate IsReader(env: Env, w: World, r: Reader) {
    && r.Ok()
    && (forall at: nat {:trigger r.index(at), BundleHeader(w, at)} :: r.index(at) == BundleHeader(w, at))
    && (forall t: nat, start: nat, size: nat {:trigger r.member(t, start, size), NextStep(env, w, t, start, size)} ::
          r.member(t, start, size) == NextStep(env, w, t, start, size))
  }

  /** An item is looked into exactly if it is a bundle whose header ends before the target. */
  lemma NextOf(env: Env, w: World, c: Tree, at: nat, t: nat)
    requires IsHeader(env, c) && At(w, at, Whole(c)) && InChunk(w, at, |c.header|) && at <= t < at + |Whole(c)|
    ensures
      NextStep(env, w, t, at, |Whole(c)|)
      == if c.bundle && at + |c.header| <= t then Into(at + |c.header|) else Answer(Found(at, |Whole(c)|))
  {
    AtFront(w, at, c.header, c.data);
    assert ChunkFrom(w, at).Some? && ChunkFrom(w, at).value == c.header + ChunkFrom(w, at).value[|c.header|..];
    var chunk := ChunkFrom(w, at).value;
    assert DecodeHeader(c.header + chunk[|c.header|..]).Parsed?;
  }

  lemma FrontOf(b: Bytes, from: nat, to: nat, n: nat)
    requires from + n <= to <= |b|
    ensures b[from..from + n] == b[from..to][..n]
  {
  }

  /** The chunk ends in the header. */
  lemma ChunkIsCut(w: World, at: nat, header: Bytes)
    requires At(w, at, header) && at < w.chunkEnd(at) <= |w.weave| && !InChunk(w, at, |header|)
    ensures
      var n := Seen(w, at, |header|);
      ChunkFrom(w, at) == Some(header[..n]) && at + n == w.chunkEnd(at) && 0 < n < |header|
  {
    var n := Seen(w, at, |header|);
    assert at + n == w.chunkEnd(at) < at + |header|;
    FrontOf(w.weave, at, at + |header|, n);
  }

  lemma FrontAndBack(b: Bytes, n: nat)
    requires n <= |b|
    ensures b[..n] + b[n..] == b
  {
  }

  lemma CutRest(env: Env, c: Tree, n: nat)
    requires IsHeader(env, c) && n <= |c.header|
    ensures DecodeHeader(c.header[..n]).Parsed? ==> DecodeHeader(c.header[..n]).rest == []
  {
    assert c.header + [] == c.header;
    assert DecodeHeader(c.header + []).Parsed?;
    FrontAndBack(c.header, n);
    CutLeavesNothing(c.header[..n], c.header[n..]);
  }

  //////////////////////////////////////////////////////////////////////////////
  // When the search is right
  //////////////////////////////////////////////////////////////////////////////

  /** The children from the k-th on are in the weave. */
  ghost predicate Stored(env: Env, w: World, b: Tree, k: nat, at: nat) {
    Built(env, b) && b.bundle && k <= |b.children| && At(w, at, Payload(b.entries[k..]))
  }

  /** A whole bundle is in the weave. */
  ghost predicate BundleStored(env: Env, w: World, b: Tree, at: nat) {
    Built(env, b) && b.bundle && At(w, at, b.data)
  }

  lemma ChildIsAt(env: Env, w: World, b: Tree, k: nat, at: nat)
    requires Stored(env, w, b, k, at) && k < |b.children|
    ensures
      var c := b.children[k];
      && Built(env, c) && At(w, at, Whole(c)) && At(w, at, c.header) && At(w, at + |c.header|, c.data)
      && At(w, at + |Whole(c)|, Payload(b.entries[k + 1..]))
  {
    var c := b.children[k];
    assert b.entries[k..][1..] == b.entries[k + 1..];
    AtFront(w, at, Whole(c), Payload(b.entries[k + 1..]));
    AtFront(w, at, c.header, c.data);
  }

  lemma {:induction false} SlotsAt(es: seq<Entry>, k: nat)
    requires k < |es|
    ensures Slots(es)[k].size == |es[k].bytes|
    decreases k
  {
    if k > 0 {
      SlotsAt(es[1..], k - 1);
    }
  }

  lemma SlotsFitTree(env: Env, b: Tree)
    requires Built(env, b) && b.bundle
    ensures SlotsFit(Slots(b.entries), LayoutOf(b))
  {
    forall k | 0 <= k < |b.entries| ensures Slots(b.entries)[k].size == Size(LayoutOf(b).children[k]) {
      SlotsAt(b.entries, k);
      LayoutSize(env, b.children[k]);
    }
  }

  lemma IndexIsRead(env: Env, w: World, r: Reader, b: Tree, at: nat)
    requires IsReader(env, w, r) && BundleStored(env, w, b, at) && InChunk(w, at, 32)
    ensures r.index(at) == Header(IndexSize(|b.children|), Slots(b.entries))
    ensures Stored(env, w, b, 0, at + IndexSize(|b.children|))
  {
    HeaderFound(w, at, b.entries, BundleIndex(b.entries));
    assert b.entries[0..] == b.entries;
  }

  /** A member whose header is in one chunk. */
  lemma WholeMember(env: Env, w: World, r: Reader, c: Tree, at: nat, t: nat) returns (next: Next)
    requires IsReader(env, w, r) && Built(env, c) && At(w, at, Whole(c)) && InChunk(w, at, |c.header|)
    requires at <= t < at + |Whole(c)|
    ensures next == if c.bundle && at + |c.header| <= t then Into(at + |c.header|) else Answer(Found(at, |Whole(c)|))
    ensures c.header != [] && r.member(t, at, |Whole(c)|) == next
  {
    NextOf(env, w, c, at, t);
    next := r.member(t, at, |Whole(c)|);
    assert DecodeHeader(c.header + []).Parsed?;
  }

  lemma WholeIsRight(r: Reader, c: Tree, at: nat, t: nat, next: Next)
    requires r.Ok() && c.header != [] && |Whole(c)| == Size(LayoutOf(c)) && at <= t < at + |Whole(c)|
    requires next == if c.bundle && at + |c.header| <= t then Into(at + |c.header|) else Answer(Found(at, |Whole(c)|))
    requires r.member(t, at, |Whole(c)|) == next
    ensures
      MemberRight(r, LayoutOf(c), at, t)
      <==> (c.bundle && at + |c.header| <= t ==> SearchesRight(r, LayoutOf(c), at + |c.header|, t))
  {
    RightAfter(r, LayoutOf(c), at, t, next);
  }

  /** A member whose header is cut off. */
  lemma CutMember(env: Env, w: World, r: Reader, c: Tree, at: nat, t: nat)
    requires IsReader(env, w, r) && IsHeader(env, c) && At(w, at, c.header) && !InChunk(w, at, |c.header|)
    requires at < w.chunkEnd(at) <= |w.weave|
    ensures 0 < Seen(w, at, |c.header|) && r.member(t, at, |Whole(c)|) == AfterCut(env, w, c, at, t)
  {
    ChunkIsCut(w, at, c.header);
    CutRest(env, c, Seen(w, at, |c.header|));
    assert r.member(t, at, |Whole(c)|) == NextStep(env, w, t, at, |Whole(c)|);
  }

  lemma CutIsRight(env: Env, w: World, r: Reader, c: Tree, at: nat, t: nat)
    requires r.Ok() && |Whole(c)| == Size(LayoutOf(c)) && at <= t < at + |Whole(c)|
    requires 0 < Seen(w, at, |c.header|) && r.member(t, at, |Whole(c)|) == AfterCut(env, w, c, at, t)
    ensures MemberRight(r, LayoutOf(c), at, t) <==> CutIsHarmless(env, w, r, c, at, t)
  {
    RightAfter(r, LayoutOf(c), at, t, AfterCut(env, w, c, at, t));
  }

  /** What is read as an index at the cut has no member that holds `t`. */
  predicate ClaimsNone(w: World, cut: nat, t: nat) {
    match BundleHeader(w, cut)
    case Header(size, slots) => FindMember(t, cut + size, slots).None?
    case _ => true
  }

  /** Then the cut does no harm exactly if reading an index there does not fail for another reason than that
      the bytes are missing, and `t` comes before the first child. */
  lemma CutWithoutClaim(env: Env, w: World, r: Reader, c: Tree, at: nat, t: nat, cut: nat)
    requires IsReader(env, w, r) && Built(env, c) && at <= t < at + |Whole(c)|
    requires AfterCut(env, w, c, at, t) == Into(cut) && ClaimsNone(w, cut, t)
    ensures CutIsHarmless(env, w, r, c, at, t) <==> !BundleHeader(w, cut).Invalid? && InFront(LayoutOf(c), at, t)
  {
    LayoutSize(env, c);
    ClaimRead(env, w, r, cut, t);
    NothingFound(r, LayoutOf(c), at, t, cut);
    HarmlessInto(env, w, r, c, at, t, cut, !r.index(cut).Invalid? && InFront(LayoutOf(c), at, t));
  }

  lemma ClaimRead(env: Env, w: World, r: Reader, cut: nat, t: nat)
    requires IsReader(env, w, r) && ClaimsNone(w, cut, t)
    ensures r.index(cut) == BundleHeader(w, cut)
    ensures r.index(cut).Header? ==> FindMember(t, cut + r.index(cut).size, r.index(cut).slots).None?
  {
    assert r.index(cut) == BundleHeader(w, cut);
  }

  lemma HarmlessInto(env: Env, w: World, r: Reader, c: Tree, at: nat, t: nat, cut: nat, right: bool)
    requires r.Ok() && AfterCut(env, w, c, at, t) == Into(cut) && right == NextRight(r, LayoutOf(c), at, t, Into(cut))
    ensures CutIsHarmless(env, w, r, c, at, t) == right
  {
  }

  /** If the number of items that is read there makes an index that is longer than the weave, it does no harm
      exactly if the missing bytes are answered with not_found and `t` comes before the first child. */
  lemma CutAtLongIndex(env: Env, w: World, r: Reader, c: Tree, at: nat, t: nat, cut: nat)
    requires IsReader(env, w, r) && Built(env, c) && at <= t < at + |Whole(c)|
    requires AfterCut(env, w, c, at, t) == Into(cut)
    requires
      var chunk := ChunkFrom(w, cut);
      chunk.Some? && |chunk.value| >= 32 && cut + 32 + 64 * FromLittleEndian(chunk.value[..32]) > |w.weave|
    ensures
      CutIsHarmless(env, w, r, c, at, t)
      <==> w.missing(w.chunkEnd(cut)) && (c.bundle ==> t < at + |c.header| + IndexSize(|c.children|))
  {
    CutWithoutClaim(env, w, r, c, at, t, cut);
  }

  //////////////////////////////////////////////////////////////////////////////
  // The whole search
  //////////////////////////////////////////////////////////////////////////////

  /** What the search for a byte is right about: bundles, members, children from some on, and members
      that are cut off. */
  datatype Judge = Judge(search: Judgement, member: Judgement, path: (Tree, nat, nat) -> bool, cut: Judgement)

  ghost predicate Judges(env: Env, w: World, r: Reader, t: nat, j: Judge) {
    && r.Ok()
    && (forall b: Tree, at: nat {:trigger j.search(b, at), SearchesRight(r, LayoutOf(b), at, t)} ::
          b.bundle ==> j.search(b, at) == SearchesRight(r, LayoutOf(b), at, t))
    && (forall c: Tree, at: nat {:trigger j.member(c, at), MemberRight(r, LayoutOf(c), at, t)} ::
          j.member(c, at) == MemberRight(r, LayoutOf(c), at, t))
    && (forall b: Tree, k: nat, at: nat {:trigger j.path(b, k, at), PathRight(r, LayoutOf(b), k, at, t)} ::
          b.bundle && k <= |b.children| ==> j.path(b, k, at) == PathRight(r, LayoutOf(b), k, at, t))
    && (forall c: Tree, at: nat {:trigger j.cut(c, at), CutIsHarmless(env, w, r, c, at, t)} ::
          j.cut(c, at) == CutIsHarmless(env, w, r, c, at, t))
  }

  ghost function JudgeOf(env: Env, w: World, r: Reader, t: nat): (j: Judge)
    requires r.Ok()
    ensures Judges(env, w, r, t, j)
  {
    Judge((b: Tree, at: nat) => b.bundle && SearchesRight(r, LayoutOf(b), at, t),
          (c: Tree, at: nat) => MemberRight(r, LayoutOf(c), at, t),
          (b: Tree, k: nat, at: nat) => b.bundle && k <= |b.children| && PathRight(r, LayoutOf(b), k, at, t),
          (c: Tree, at: nat) => CutIsHarmless(env, w, r, c, at, t))
  }

  /** What is known of a member that holds the target. */
  ghost predicate Holding(env: Env, w: World, c: Tree, at: nat, t: nat) {
    && Chunked(w) && Built(env, c) && at <= t < at + |Whole(c)| && at < |w.weave|
    && At(w, at, c.header) && At(w, at + |c.header|, c.data) && At(w, at, Whole(c))
  }

  lemma WholeExact(env: Env, w: World, r: Reader, j: Judge, c: Tree, at: nat, t: nat)
    requires IsReader(env, w, r) && Judges(env, w, r, t, j) && Holding(env, w, c, at, t) && InChunk(w, at, |c.header|)
    ensures j.member(c, at) <==> (c.bundle && at + |c.header| <= t ==> j.search(c, at + |c.header|))
  {
    LayoutSize(env, c);
    var next := WholeMember(env, w, r, c, at, t);
    WholeIsRight(r, c, at, t, next);
    assert j.member(c, at) == MemberRight(r, LayoutOf(c), at, t);
    if c.bundle {
      assert j.search(c, at + |c.header|) == SearchesRight(r, LayoutOf(c), at + |c.header|, t);
    }
  }

  lemma CutExact(env: Env, w: World, r: Reader, j: Judge, c: Tree, at: nat, t: nat)
    requires IsReader(env, w, r) && Judges(env, w, r, t, j) && Holding(env, w, c, at, t) && !InChunk(w, at, |c.header|)
    ensures j.member(c, at) <==> j.cut(c, at)
  {
    LayoutSize(env, c);
    CutMember(env, w, r, c, at, t);
    CutIsRight(env, w, r, c, at, t);
    assert j.member(c, at) == MemberRight(r, LayoutOf(c), at, t);
    assert j.cut(c, at) == CutIsHarmless(env, w, r, c, at, t);
  }

  lemma PathExact(env: Env, w: World, r: Reader, j: Judge, b: Tree, k: nat, at: nat, t: nat)
    requires Judges(env, w, r, t, j) && Stored(env, w, b, k, at)
    ensures
      j.path(b, k, at)
      <==> (k < |b.children| && at <= t ==>
              var c := b.children[k];
              if t < at + |Whole(c)| then j.member(c, at) else j.path(b, k + 1, at + |Whole(c)|))
  {
    assert j.path(b, k, at) == PathRight(r, LayoutOf(b), k, at, t);
    if k < |b.children| {
      var c := b.children[k];
      LayoutSize(env, c);
      assert j.member(c, at) == MemberRight(r, LayoutOf(c), at, t);
      assert j.path(b, k + 1, at + |Whole(c)|) == PathRight(r, LayoutOf(b), k + 1, at + |Whole(c)|, t);
      PathFrom(r, b, k, at, t);
    }
  }

  lemma PathFrom(r: Reader, b: Tree, k: nat, at: nat, t: nat)
    requires r.Ok() && b.bundle && k < |b.children| && Size(LayoutOf(b.children[k])) == |Whole(b.children[k])|
    ensures
      var (c, next) := (b.children[k], at + |Whole(b.children[k])|);
      PathRight(r, LayoutOf(b), k, at, t)
      <==> (at <= t ==>
              if t < next then MemberRight(r, LayoutOf(c), at, t) else PathRight(r, LayoutOf(b), k + 1, next, t))
  {
    assert LayoutOf(b).children[k] == LayoutOf(b.children[k]);
  }

  lemma IndexExact(env: Env, w: World, r: Reader, j: Judge, b: Tree, at: nat, t: nat)
    requires Chunked(w) && IsReader(env, w, r) && Judges(env, w, r, t, j) && BundleStored(env, w, b, at)
    ensures j.search(b, at) <==> InChunk(w, at, 32) && j.path(b, 0, at + IndexSize(|b.children|))
  {
    var first := at + IndexSize(|b.children|);
    assert j.search(b, at) == SearchesRight(r, LayoutOf(b), at, t);
    assert j.path(b, 0, first) == PathRight(r, LayoutOf(b), 0, first, t);
    if InChunk(w, at, 32) {
      IndexSearch(env, w, r, b, at, t);
    } else {
      IndexUnread(env, w, r, b, at, t);
    }
  }

  lemma IndexSearch(env: Env, w: World, r: Reader, b: Tree, at: nat, t: nat)
    requires IsReader(env, w, r) && BundleStored(env, w, b, at) && InChunk(w, at, 32)
    ensures SearchesRight(r, LayoutOf(b), at, t) <==> PathRight(r, LayoutOf(b), 0, at + IndexSize(|b.children|), t)
  {
    IndexIsRead(env, w, r, b, at);
    SlotsFitTree(env, b);
    SearchOf(r, b, at, t);
  }

  lemma SearchOf(r: Reader, b: Tree, at: nat, t: nat)
    requires r.Ok() && b.bundle && SlotsFit(Slots(b.entries), LayoutOf(b))
    requires r.index(at) == Header(IndexSize(|b.children|), Slots(b.entries))
    ensures SearchesRight(r, LayoutOf(b), at, t) <==> PathRight(r, LayoutOf(b), 0, at + IndexSize(|b.children|), t)
  {
    SearchFindsDeepest(r, LayoutOf(b), at, t, Slots(b.entries));
  }

  lemma IndexUnread(env: Env, w: World, r: Reader, b: Tree, at: nat, t: nat)
    requires Chunked(w) && IsReader(env, w, r) && BundleStored(env, w, b, at) && !InChunk(w, at, 32)
    ensures !SearchesRight(r, LayoutOf(b), at, t)
  {
    IndexReadIff(w, at, b.entries);
  }

  ghost predicate Ready(env: Env, w: World, b: Tree, k: nat, at: nat) {
    Chunked(w) && Stored(env, w, b, k, at)
  }

  lemma ReadyNext(env: Env, w: World, b: Tree, k: nat, at: nat, t: nat)
    requires Ready(env, w, b, k, at) && k < |b.children|
    ensures Ready(env, w, b, k + 1, at + |Whole(b.children[k])|)
    ensures at <= t < at + |Whole(b.children[k])| ==> Holding(env, w, b.children[k], at, t)
  {
    ChildIsAt(env, w, b, k, at);
  }

  lemma BundleReady(env: Env, w: World, r: Reader, b: Tree, at: nat)
    requires Chunked(w) && IsReader(env, w, r) && BundleStored(env, w, b, at) && InChunk(w, at, 32)
    ensures Ready(env, w, b, 0, at + IndexSize(|b.children|))
  {
    IndexIsRead(env, w, r, b, at);
  }

  lemma {:induction false} MemberExact(env: Env, w: World, r: Reader, j: Judge, c: Tree, at: nat, t: nat)
    requires IsReader(env, w, r) && Judges(env, w, r, t, j) && Holding(env, w, c, at, t)
    ensures j.member(c, at) <==> MemberReached(w, j.cut, c, at, t)
    decreases c, 3, 0
  {
    if !InChunk(w, at, |c.header|) {
      CutExact(env, w, r, j, c, at, t);
    } else {
      WholeExact(env, w, r, j, c, at, t);
      if c.bundle && at + |c.header| <= t {
        BundleExact(env, w, r, j, c, at + |c.header|, t);
      }
    }
  }

  lemma {:induction false} ChildrenExact(env: Env, w: World, r: Reader, j: Judge, b: Tree, k: nat, at: nat, t: nat)
    requires IsReader(env, w, r) && Judges(env, w, r, t, j) && Ready(env, w, b, k, at)
    ensures j.path(b, k, at) <==> ReachedFrom(w, j.cut, b, k, at, t)
    decreases b, 1, |b.children| - k
  {
    PathExact(env, w, r, j, b, k, at, t);
    if k < |b.children| && at <= t {
      ReadyNext(env, w, b, k, at, t);
      var c := b.children[k];
      if t < at + |Whole(c)| {
        MemberExact(env, w, r, j, c, at, t);
      } else {
        ChildrenExact(env, w, r, j, b, k + 1, at + |Whole(c)|, t);
      }
    }
  }

  lemma {:induction false} BundleExact(env: Env, w: World, r: Reader, j: Judge, b: Tree, at: nat, t: nat)
    requires Chunked(w) && IsReader(env, w, r) && Judges(env, w, r, t, j) && BundleStored(env, w, b, at)
    ensures j.search(b, at) <==> Reached(w, j.cut, b, at, t)
    decreases b, 2, 0
  {
    IndexExact(env, w, r, j, b, at, t);
    if InChunk(w, at, 32) {
      BundleReady(env, w, r, b, at);
      ChildrenExact(env, w, r, j, b, 0, at + IndexSize(|b.children|), t);
    }
  }

  /** The items of a bundle at `at`, with all that are nested in them. */
  function ItemsOf(b: Tree, at: nat): seq<Extent>
    requires b.bundle
  {
    Extents(LayoutOf(b), 0, at + IndexSize(|b.children|))
  }

  /** Members that are cut off without harm for the search for `t`. */
  ghost function HarmlessCuts(env: Env, w: World, r: Reader, t: nat): Judgement
    requires r.Ok()
  {
    (c: Tree, at: nat) => CutIsHarmless(env, w, r, c, at, t)
  }

  lemma SearchExact(env: Env, w: World, r: Reader, b: Tree, at: nat, t: nat)
    requires Chunked(w) && IsReader(env, w, r) && BundleStored(env, w, b, at)
    ensures SearchesRight(r, LayoutOf(b), at, t) <==> Reached(w, HarmlessCuts(env, w, r, t), b, at, t)
  {
    var j := JudgeOf(env, w, r, t).(cut := HarmlessCuts(env, w, r, t));
    BundleExact(env, w, r, j, b, at, t);
    assert j.search(b, at) == SearchesRight(r, LayoutOf(b), at, t);
  }

  /** Searching for a byte of a bundle yields the innermost item that holds the byte, and nothing if
      there is none, exactly if the search reaches it. */
  lemma SearchIsExact(env: Env, w: World, r: Reader, b: Tree, at: nat, t: nat) returns (x: Option<Extent>)
    requires Chunked(w) && IsReader(env, w, r) && BundleStored(env, w, b, at)
    ensures Innermost(ItemsOf(b, at), t, x)
    ensures FromBundle(r, t, at) == Answered(x) <==> Reached(w, HarmlessCuts(env, w, r, t), b, at, t)
  {
    SearchExact(env, w, r, b, at, t);
    x := SearchIsInnermost(r, LayoutOf(b), at, t);
  }

  lemma MessageIsSearched(env: Env, w: World, t: nat) returns (r: Reader)
    requires Chunked(w) && t < |w.weave|
    ensures r == ReaderOf(env, w) && IsReader(env, w, r)
    ensures MessageFromOffset(env, w, t) == FromBundle(r, t, w.dataStart(t))
  {
    r := ReaderOf(env, w);
  }

  /** The same for the lookup of a byte of transaction data that are a bundle. */
  lemma LookupExact(env: Env, w: World, b: Tree, t: nat) returns (x: Option<Extent>, r: Reader)
    requires Chunked(w) && BundleStored(env, w, b, w.dataStart(t)) && t < |w.weave|
    ensures r == ReaderOf(env, w) && Innermost(ItemsOf(b, w.dataStart(t)), t, x)
    ensures MessageFromOffset(env, w, t) == Answered(x) <==> Reached(w, HarmlessCuts(env, w, r, t), b, w.dataStart(t), t)
  {
    r := MessageIsSearched(env, w, t);
    x := SearchIsExact(env, w, r, b, w.dataStart(t), t);
  }

  /** Nothing on the way to the item is cut off. */
  predicate ReadableFor(w: World, b: Tree, at: nat, t: nat)
    requires b.bundle
  {
    Reached(w, (c: Tree, at: nat) => false, b, at, t)
  }

  lemma {:induction false} MemberReadable(w: World, none: Judgement, cut: Judgement, c: Tree, at: nat, t: nat)
    requires (forall d: Tree, p: nat {:trigger none(d, p)} :: !none(d, p)) && MemberReached(w, none, c, at, t)
    ensures MemberReached(w, cut, c, at, t)
    decreases c, 3, 0
  {
    if c.bundle && at + |c.header| <= t {
      ChildrenReadable(w, none, cut, c, 0, at + |c.header| + IndexSize(|c.children|), t);
    }
  }

  lemma {:induction false} ChildrenReadable(w: World, none: Judgement, cut: Judgement, b: Tree, k: nat, at: nat, t: nat)
    requires (forall d: Tree, p: nat {:trigger none(d, p)} :: !none(d, p)) && b.bundle && k <= |b.children|
    requires ReachedFrom(w, none, b, k, at, t)
    ensures ReachedFrom(w, cut, b, k, at, t)
    decreases b, 1, |b.children| - k
  {
    if k < |b.children| && at <= t {
      var c := b.children[k];
      if t < at + |Whole(c)| {
        MemberReadable(w, none, cut, c, at, t);
      } else {
        ChildrenReadable(w, none, cut, b, k + 1, at + |Whole(c)|, t);
      }
    }
  }

  lemma ReadableIsReached(w: World, cut: Judgement, b: Tree, at: nat, t: nat)
    requires b.bundle && ReadableFor(w, b, at, t)
    ensures Reached(w, cut, b, at, t)
  {
    ChildrenReadable(w, (c: Tree, at: nat) => false, cut, b, 0, at + IndexSize(|b.children|), t);
  }
}
