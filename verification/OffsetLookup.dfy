/** Finding the deepest bundled item at a byte of the weave (src/dev_arweave_offset.erl:165-337,
    src/dev_arweave.erl:679-740). Bytes are numbered from zero. */
module OffsetLookup {
  import opened Options
  import opened Bytes
  import opened AvroTags
  import opened DataItems
  import opened Bundles

  /** The weave, the end of the chunk that holds a byte, the start of the transaction data that hold
      it (the end of its chunk minus the note in the chunk's proof), and whether a read that fails
      there is answered with `not_found` or with another error. */
  datatype World = World(weave: Bytes, chunkEnd: nat -> nat, dataStart: nat -> nat, missing: nat -> bool)

  datatype Lookup = Found(start: nat, size: nat) | NotFound | Error

  datatype Header = Header(size: nat, slots: seq<Slot>) | Missing | Invalid

  /** The chunk at a byte, from that byte on. */
  function ChunkFrom(w: World, at: nat): Option<Bytes> {
    if at < w.chunkEnd(at) <= |w.weave| then Some(w.weave[at..w.chunkEnd(at)]) else None
  }

  function Unread(w: World, at: nat): Header { if w.missing(at) then Missing else Invalid }

  /** The index of a bundle. Its first 32 bytes must be in one chunk, the rest is fetched. */
  function BundleHeader(w: World, at: nat): (h: Header)
    ensures h.Header? ==> h.size >= 32
  {
    match ChunkFrom(w, at)
    case None => Unread(w, at)
    case Some(chunk) =>
      if |chunk| < 32 then Invalid
      else
        var size := 32 + 64 * FromLittleEndian(chunk[..32]);
        if at + size > |w.weave| then Unread(w, w.chunkEnd(at))
        else
          match DecodeBundleHeader(w.weave[at..at + size])
          case Crash => Invalid
          case Parsed(slots, _) => Header(size, slots)
  }

  function Failure(w: World, at: nat): Lookup { if w.missing(at) then NotFound else Error }

  /** What is known of a member without looking into it: the answer, or where its data begin. */
  datatype Next = Answer(lookup: Lookup) | Into(data: nat)

  /** Only a bundle whose data have begun before the target is looked into. */
  function NextStep(env: Env, w: World, target: nat, start: nat, size: nat): (next: Next)
    ensures next.Answer? ==> next.lookup in {Error, NotFound, Found(start, size)}
    ensures next.Into? ==> start < next.data <= target
  {
    match ChunkFrom(w, start)
    case None => Answer(Failure(w, start))
    case Some(chunk) =>
      match DecodeHeader(chunk)
      case Crash => Answer(Error)
      case Parsed(item, rest) =>
        var data := start + |chunk| - |rest|;
        if target < data || TypeOf(env, item.tags).BinaryType? then Answer(Found(start, size)) else Into(data)
  }

  /** The two ways in which the search reads the weave: the index of a bundle, and the header of a
      member for a target. */
  datatype Reader = Reader(index: nat -> Header, member: (nat, nat, nat) -> Next) {
    ghost predicate Ok() {
      && (forall at: nat :: index(at).Header? ==> index(at).size >= 32)
      && (forall t: nat, start: nat, size: nat :: member(t, start, size).Answer? ==> member(t, start, size).lookup in {Error, NotFound, Found(start, size)})
      && (forall t: nat, start: nat, size: nat :: member(t, start, size).Into? ==> start < member(t, start, size).data <= t)
    }
  }

  function ReaderOf(env: Env, w: World): (r: Reader)
    ensures r.Ok()
  {
    Reader((at: nat) => BundleHeader(w, at), (t: nat, start: nat, size: nat) => NextStep(env, w, t, start, size))
  }

  function FindMember(target: nat, at: nat, slots: seq<Slot>): (member: Option<(nat, nat)>)
    ensures member.Some? ==> at <= member.value.0 <= target < member.value.0 + member.value.1
    decreases slots
  {
    if target < at || slots == [] then None
    else if target < at + slots[0].size then Some((at, slots[0].size))
    else FindMember(target, at + slots[0].size, slots[1..])
  }

  function Ahead(target: nat, at: nat): nat { if at <= target then target - at + 1 else 0 }

  /** The deepest member of the bundle at `at`: the member that holds the target, unless a bundle in
      it has one. Nothing is found in front of the members. Every search ends, whatever the bytes
      are, and what it finds contains the target. */
  function FromBundle(r: Reader, target: nat, at: nat): (found: Lookup)
    requires r.Ok()
    ensures found.Found? ==> at < found.start <= target < found.start + found.size
    decreases Ahead(target, at)
  {
    match r.index(at)
    case Invalid => Error
    case Missing => NotFound
    case Header(headerSize, slots) =>
      match FindMember(target, at + headerSize, slots)
      case None => NotFound
      case Some((start, size)) =>
        match r.member(target, start, size)
        case Answer(lookup) => lookup
        case Into(data) => OrElse(FromBundle(r, target, data), start, size)
  }

  function OrElse(inner: Lookup, start: nat, size: nat): Lookup {
    if inner.NotFound? then Found(start, size) else inner
  }

  function MessageFromOffset(env: Env, w: World, target: nat): Lookup {
    if ChunkFrom(w, target).None? then Failure(w, target) else FromBundle(ReaderOf(env, w), target, w.dataStart(target))
  }

  //////////////////////////////////////////////////////////////////////////////
  // What is answered where the weave cannot be read
  //////////////////////////////////////////////////////////////////////////////

  /** Without a chunk at the target, or at the start of its data, the answer is `not_found` or an error, as
      the node says; an index whose count is not in one chunk, or that is no index, is an error. */
  lemma UnreadIndex(env: Env, w: World, target: nat)
    ensures
      ChunkFrom(w, target) == None ==>
        MessageFromOffset(env, w, target) == if w.missing(target) then NotFound else Error
    ensures
      var at := w.dataStart(target);
      ChunkFrom(w, target) != None ==>
        match ChunkFrom(w, at)
        case None => MessageFromOffset(env, w, target) == if w.missing(at) then NotFound else Error
        case Some(chunk) =>
          if |chunk| < 32 then MessageFromOffset(env, w, target) == Error
          else
            var size := 32 + 64 * FromLittleEndian(chunk[..32]);
            if at + size > |w.weave| then
              MessageFromOffset(env, w, target) == if w.missing(w.chunkEnd(at)) then NotFound else Error
            else DecodeBundleHeader(w.weave[at..at + size]) == Crash ==> MessageFromOffset(env, w, target) == Error
  {
  }

  /** In a bundle whose index is read nothing is found outside its members. A member answers for itself,
      or for what is found in its data, if anything is. */
  lemma MemberDecides(r: Reader, target: nat, at: nat)
    requires r.Ok() && r.index(at).Header?
    ensures
      match FindMember(target, at + r.index(at).size, r.index(at).slots)
      case None => FromBundle(r, target, at) == NotFound
      case Some((start, size)) =>
        match r.member(target, start, size)
        case Answer(lookup) => FromBundle(r, target, at) == lookup
        case Into(data) =>
          var inner := FromBundle(r, target, data);
          FromBundle(r, target, at) == if inner == NotFound then Found(start, size) else inner
  {
  }

  /** A member whose header cannot be read or decoded fails the search; one that is no bundle, or whose
      data begin behind the target, is what is found; any other is looked into. */
  lemma MemberAnswers(env: Env, w: World, target: nat, start: nat, size: nat)
    ensures
      var next := ReaderOf(env, w).member(target, start, size);
      match ChunkFrom(w, start)
      case None => next == Answer(if w.missing(start) then NotFound else Error)
      case Some(chunk) =>
        match DecodeHeader(chunk)
        case Crash => next == Answer(Error)
        case Parsed(item, rest) =>
          var data := start + |chunk| - |rest|;
          next == if target < data || TypeOf(env, item.tags) == BinaryType then Answer(Found(start, size)) else Into(data)
  {
  }
}
