/** Reading a range where chunks are full, and the choice between the two paths
    (src/dev_arweave.erl:355-458). */
module FixedRangeRead {
  import opened Options
  import opened Bytes
  import opened RangeRead

  function Min(a: nat, b: nat): nat { if a < b then a else b }

  /** One fetch at each step, and one more if the data are too short. */
  function ReadFixed(w: Weave, lo: nat, hi: int): Option<Bytes>
    requires Partitioned(w)
  {
    var offsets := GenerateOffsets(lo, hi, CHUNK_SIZE);
    match FetchAll(w, offsets)
    case None => None
    case Some(cs) =>
      match Assemble(Sort(cs), lo)
      case None => None
      case Some(data) =>
        if offsets == [] || |data| >= hi - lo + 1 then Some(data)
        else
          match Fetch(w, Min(offsets[|offsets| - 1] + CHUNK_SIZE, hi))
          case None => None
          case Some(tail) => Assemble(Sort(cs) + [tail], lo)
  }

  /** The first step from `lo` on that is not in front of `o`. */
  function NextStep(lo: nat, o: nat): (step: nat)
    ensures o <= step && (lo <= o ==> step < o + 262144)
    decreases o - lo
  {
    if o <= lo then lo else NextStep(lo + 262144, o)
  }

  /** Each chunk that begins in the range holds a step, or its end. */
  ghost predicate Covers(w: Weave, lo: nat, hi: nat) {
    forall o: nat | lo < o <= hi && InWeave(w, o) && w.first(o) == o :: Min(NextStep(lo, o), hi) <= w.last(o)
  }

  /** Every chunk with a byte in the range is full, except the one that holds the end. */
  ghost predicate Full(w: Weave, lo: nat, hi: nat) {
    forall o: nat | InWeave(w, o) && lo <= o && w.last(o) < hi :: w.last(o) - w.first(o) + 1 == 262144
  }

  lemma FullCovers(w: Weave, lo: nat, hi: nat)
    requires Full(w, lo, hi)
    ensures Covers(w, lo, hi)
  {
    forall o: nat | lo < o <= hi && InWeave(w, o) && w.first(o) == o
      ensures Min(NextStep(lo, o), hi) <= w.last(o)
    {
    }
  }

  lemma {:induction false} StepAfter(lo: nat, a: nat, k: nat, o: nat)
    requires a == lo + k * CHUNK_SIZE && a < o <= a + CHUNK_SIZE
    ensures NextStep(lo, o) == a + CHUNK_SIZE
    decreases k
  {
    if k > 0 {
      StepAfter(lo + CHUNK_SIZE, a, k - 1, o);
    }
  }

  /** The next step, or the end of the range, is in the chunk that follows the one of a step. */
  lemma NextChunk(w: Weave, a: nat, k: nat, b: nat, lo: nat, hi: nat)
    requires Partitioned(w) && InWeave(w, a) && InWeave(w, b) && Covers(w, lo, hi)
    requires a == lo + k * CHUNK_SIZE && w.last(a) < b == Min(a + CHUNK_SIZE, hi)
    ensures w.first(b) == w.last(a) + 1
  {
    var o: nat := w.last(a) + 1;
    Apart(w, a, o);
    assert w.first(o) == o;
    StepAfter(lo, a, k, o);
    assert w.first(o) <= b <= w.last(o);
  }

  ghost predicate Consecutive(cs: seq<Chunk>) {
    && (forall k | 0 <= k < |cs| :: cs[k].start <= cs[k].end)
    && (forall k | 0 <= k < |cs| - 1 :: cs[k + 1].start == cs[k].end + 1)
  }

  lemma {:induction false} ConsecutiveOrder(cs: seq<Chunk>, i: nat, j: nat)
    requires Consecutive(cs) && i < j < |cs|
    ensures cs[i].start <= cs[i].end < cs[j].start
    decreases j
  {
    assert cs[j].start == cs[j - 1].end + 1 && cs[j - 1].start <= cs[j - 1].end;
    if i < j - 1 {
      ConsecutiveOrder(cs, i, j - 1);
    }
  }

  lemma ConsecutiveIncreasing(cs: seq<Chunk>)
    requires Consecutive(cs)
    ensures Increasing(cs)
  {
    forall i, j | 0 <= i < j < |cs| ensures cs[i].start < cs[j].start {
      ConsecutiveOrder(cs, i, j);
    }
  }

  lemma {:induction false} ConsecutiveNoGaps(cs: seq<Chunk>, pos: nat, hi: int)
    requires Consecutive(cs) && cs != [] && cs[0].start <= pos <= cs[0].end + 1 && hi <= cs[|cs| - 1].end
    ensures GapStarts(cs, pos, hi) == []
    decreases cs
  {
    if |cs| > 1 {
      assert Consecutive(cs[1..]) by {
        assert forall k | 0 <= k < |cs| - 1 :: cs[1..][k] == cs[k + 1];
      }
      ConsecutiveNoGaps(cs[1..], cs[0].end + 1, hi);
    }
  }

  /** The chunks fetched at the steps of a range follow each other. */
  lemma StepsConsecutive(w: Weave, lo: nat, hi: nat, gs: seq<nat>)
    requires Partitioned(w) && Covers(w, lo, hi) && FetchAll(w, gs).Some?
    requires forall k | 0 <= k < |gs| :: lo <= gs[k] == lo + k * CHUNK_SIZE <= hi
    ensures Consecutive(FetchAll(w, gs).value)
  {
    var cs := FetchAll(w, gs).value;
    if gs != [] {
      FetchedAt(w, gs, 0);
    }
    forall k | 0 <= k < |cs| ensures cs[k].start <= cs[k].end {
      FetchedAt(w, gs, k);
      FetchIsChunk(w, gs[k]);
    }
    forall k | 0 <= k < |cs| - 1 ensures cs[k + 1].start == cs[k].end + 1 {
      FetchedAt(w, gs, k);
      FetchedAt(w, gs, k + 1);
      assert w.last(gs[k]) < gs[k + 1];
      NextChunk(w, gs[k], k, gs[k + 1], lo, hi);
    }
  }

  /** Chunks of the weave that follow each other from the start of the range are its bytes. */
  lemma ConsecutiveExact(w: Weave, cs: seq<Chunk>, lo: nat, to: nat)
    requires Partitioned(w) && 1 <= lo <= to && Consecutive(cs) && cs != []
    requires forall c | c in cs :: Touches(w, c, lo, to)
    requires cs[0].start <= lo && to <= cs[|cs| - 1].end
    ensures InWeave(w, to) && lo <= w.last(to) && Assemble(cs, lo) == Some(Slice(w, lo, w.last(to)))
  {
    assert Touches(w, cs[0], lo, to);
    ConsecutiveIncreasing(cs);
    ConsecutiveNoGaps(cs, lo, to);
    SortSorted(cs);
    AssembleExact(w, cs, lo, to);
  }

  ghost predicate Steps(gs: seq<nat>, lo: nat, hi: nat) {
    && gs != [] && (forall k | 0 <= k < |gs| :: lo <= gs[k] == lo + k * CHUNK_SIZE <= hi)
    && hi < gs[|gs| - 1] + CHUNK_SIZE
  }

  lemma {:induction false} OffsetsReach(lo: nat, hi: nat)
    requires lo <= hi
    ensures
      var gs := GenerateOffsets(lo, hi, CHUNK_SIZE);
      gs != [] && hi < gs[|gs| - 1] + CHUNK_SIZE
    decreases hi - lo
  {
    if lo + CHUNK_SIZE <= hi {
      OffsetsReach(lo + CHUNK_SIZE, hi);
    }
  }

  lemma OffsetsAreSteps(lo: nat, hi: nat)
    requires lo <= hi
    ensures Steps(GenerateOffsets(lo, hi, CHUNK_SIZE), lo, hi)
  {
    var gs := GenerateOffsets(lo, hi, CHUNK_SIZE);
    OffsetsReach(lo, hi);
    forall k | 0 <= k < |gs| ensures lo <= gs[k] == lo + k * CHUNK_SIZE <= hi {
      OffsetsAre(lo, hi, CHUNK_SIZE, k);
    }
  }

  /** Chunks that follow each other from the start of the range to the end of the chunk of `last`. */
  ghost predicate Reaches(w: Weave, cs: seq<Chunk>, lo: nat, last: nat)
    requires Partitioned(w)
  {
    && InWeave(w, lo) && lo <= last && InWeave(w, last) && Consecutive(cs) && cs != [] && cs[0].start <= lo
    && cs[|cs| - 1].end == w.last(last) && forall c | c in cs :: Touches(w, c, lo, last)
  }

  lemma ReachesExact(w: Weave, cs: seq<Chunk>, lo: nat, last: nat)
    requires Partitioned(w) && Reaches(w, cs, lo, last)
    ensures lo <= w.last(last) && Sort(cs) == cs && Assemble(cs, lo) == Some(Slice(w, lo, w.last(last)))
  {
    ConsecutiveIncreasing(cs);
    SortSorted(cs);
    ConsecutiveExact(w, cs, lo, last);
  }

  /** The first fetches reach the end of the last chunk fetched. */
  lemma FirstPass(w: Weave, lo: nat, hi: nat, gs: seq<nat>)
    requires Partitioned(w) && Covers(w, lo, hi) && lo <= hi && Steps(gs, lo, hi) && FetchAll(w, gs).Some?
    ensures Reaches(w, FetchAll(w, gs).value, lo, gs[|gs| - 1])
  {
    StepsConsecutive(w, lo, hi, gs);
    FirstPassEnds(w, lo, gs);
    StepsOrder(gs, lo, hi);
    AllTouch(w, gs, lo, gs[|gs| - 1]);
  }

  lemma StepsOrder(gs: seq<nat>, lo: nat, hi: nat)
    requires Steps(gs, lo, hi)
    ensures gs[0] == lo && forall k | 0 <= k < |gs| :: lo <= gs[k] <= gs[|gs| - 1]
  {
    forall k | 0 <= k < |gs| ensures gs[k] <= gs[|gs| - 1] {
      assert k * CHUNK_SIZE <= (|gs| - 1) * CHUNK_SIZE;
    }
  }

  lemma AllTouch(w: Weave, gs: seq<nat>, lo: nat, last: nat)
    requires Partitioned(w) && FetchAll(w, gs).Some? && forall k | 0 <= k < |gs| :: lo <= gs[k] <= last
    ensures forall c | c in FetchAll(w, gs).value :: Touches(w, c, lo, last)
  {
    var cs := FetchAll(w, gs).value;
    forall c | c in cs ensures Touches(w, c, lo, last) {
      var k :| 0 <= k < |cs| && cs[k] == c;
      if gs != [] {
        FetchedAt(w, gs, 0);
        FetchedTouches(w, gs, k, lo, last);
      }
    }
  }

  lemma FirstPassEnds(w: Weave, lo: nat, gs: seq<nat>)
    requires Partitioned(w) && gs != [] && gs[0] == lo && FetchAll(w, gs).Some?
    ensures
      var (cs, last) := (FetchAll(w, gs).value, gs[|gs| - 1]);
      |cs| == |gs| && InWeave(w, lo) && InWeave(w, last) && cs[0].start <= lo && cs[|cs| - 1].end == w.last(last)
  {
    FetchedAt(w, gs, 0);
    FetchedAt(w, gs, |gs| - 1);
  }

  lemma FetchedTouches(w: Weave, gs: seq<nat>, k: nat, lo: nat, last: nat)
    requires Partitioned(w) && FetchAll(w, gs).Some? && k < |gs| && lo <= gs[k] <= last
    ensures |FetchAll(w, gs).value| == |gs| && Touches(w, FetchAll(w, gs).value[k], lo, last)
  {
    FetchedAt(w, gs, k);
    FetchIsChunk(w, gs[k]);
  }

  /** One more chunk reaches the end. */
  lemma TailPass(w: Weave, cs: seq<Chunk>, lo: nat, last: nat, k: nat, hi: nat)
    requires Partitioned(w) && Covers(w, lo, hi) && Reaches(w, cs, lo, last) && InWeave(w, hi)
    requires last == lo + k * CHUNK_SIZE && w.last(last) < hi <= last + CHUNK_SIZE
    ensures Reaches(w, cs + [Fetch(w, hi).value], lo, hi)
  {
    var tail := Fetch(w, hi).value;
    FetchIsChunk(w, hi);
    NextChunk(w, last, k, hi, lo, hi);
    forall c | c in cs ensures Touches(w, c, lo, hi) {
      assert Touches(w, c, lo, last);
    }
  }

  /** The steps are in the weave. */
  lemma FetchedExact(w: Weave, lo: nat, hi: nat, gs: seq<nat>, cs: seq<Chunk>)
    requires Partitioned(w) && Covers(w, lo, hi) && lo <= hi && AllIn(w, gs)
    requires gs == GenerateOffsets(lo, hi, CHUNK_SIZE) && FetchAll(w, gs) == Some(cs) && Steps(gs, lo, hi)
    ensures
      ReadFixed(w, lo, hi)
      == if InWeave(w, lo) && InWeave(w, hi) then Some(Slice(w, lo, Max(hi, w.last(hi)))) else None
  {
    var last := gs[|gs| - 1];
    FirstPass(w, lo, hi, gs);
    ReachesExact(w, cs, lo, last);
    if w.last(last) < hi {
      assert Min(last + CHUNK_SIZE, hi) == hi;
      if InWeave(w, hi) {
        TailPass(w, cs, lo, last, |gs| - 1, hi);
        ReachesExact(w, cs + [Fetch(w, hi).value], lo, hi);
      }
    } else {
      assert w.first(last) <= hi <= w.last(last);
    }
  }

  /** The fixed-size path reads a range, and the rest of its last chunk, exactly if it is in the weave. */
  lemma FixedExact(w: Weave, lo: nat, hi: nat)
    requires Partitioned(w) && Covers(w, lo, hi) && lo <= hi
    ensures
      ReadFixed(w, lo, hi)
      == if InWeave(w, lo) && InWeave(w, hi) then Some(Slice(w, lo, Max(hi, w.last(hi)))) else None
  {
    var gs := GenerateOffsets(lo, hi, CHUNK_SIZE);
    OffsetsAreSteps(lo, hi);
    FetchFails(w, gs);
    if FetchAll(w, gs).Some? {
      FetchedExact(w, lo, hi, gs, FetchAll(w, gs).value);
    } else {
      var k :| 0 <= k < |gs| && !InWeave(w, gs[k]);
      assert lo <= gs[k] <= hi;
    }
  }

  //////////////////////////////////////////////////////////////////////////////
  // Chunks that are missed
  //////////////////////////////////////////////////////////////////////////////

  lemma {:induction false} StepLeast(lo: nat, k: nat, o: nat)
    requires o <= lo + k * CHUNK_SIZE
    ensures NextStep(lo, o) <= lo + k * CHUNK_SIZE
    decreases k
  {
    if o > lo {
      StepLeast(lo + CHUNK_SIZE, k - 1, o);
    }
  }

  predicate Blank(b: Bytes) { forall i | 0 <= i < |b| :: b[i] == 0 }

  ghost predicate AllBlank(cs: seq<Chunk>) { forall c | c in cs :: Blank(c.data) }

  lemma {:induction false} TrimBlank(cs: seq<Chunk>, lo: nat)
    requires AllBlank(cs)
    ensures TrimAll(cs, lo).Some? ==> Blank(TrimAll(cs, lo).value)
    decreases cs
  {
    if cs != [] {
      assert cs[0] in cs && forall c | c in cs[1..] :: c in cs;
      TrimBlank(cs[1..], lo);
    }
  }

  lemma AssembleBlank(cs: seq<Chunk>, lo: nat)
    requires AllBlank(cs)
    ensures AllBlank(Sort(cs)) && (Assemble(cs, lo).Some? ==> Blank(Assemble(cs, lo).value))
  {
    forall c | c in Sort(cs) ensures Blank(c.data) {
      SortMembers(cs, c);
    }
    TrimBlank(Sort(cs), lo);
  }

  /** A weave with one byte, at `o`, that is not zero. */
  function Marked(w: Weave, o: nat): (m: Weave)
    ensures |m.bytes| == |w.bytes|
  {
    w.(bytes := seq(|w.bytes|, i => if i == o - 1 then 1 else 0))
  }

  /** The chunk at `o` begins there, and holds neither a step nor the end of the range. */
  ghost predicate Skipped(w: Weave, lo: nat, hi: nat, o: nat) {
    lo < o <= hi && InWeave(w, o) && w.first(o) == o && w.last(o) < Min(NextStep(lo, o), hi)
  }

  lemma FetchBlank(w: Weave, o: nat, g: nat)
    requires Partitioned(w) && InWeave(w, o) && w.first(o) == o && InWeave(w, g) && !(o <= g <= w.last(o))
    ensures Partitioned(Marked(w, o)) && Blank(Fetch(Marked(w, o), g).value.data)
  {
    var m := Marked(w, o);
    assert !(w.first(g) <= o <= w.last(g));
    assert m.bytes[o - 1] == 1;
  }

  lemma StepBlank(w: Weave, lo: nat, hi: nat, o: nat, gs: seq<nat>, k: nat)
    requires Partitioned(w) && Skipped(w, lo, hi, o) && Steps(gs, lo, hi) && k < |gs| && InWeave(w, gs[k])
    ensures Partitioned(Marked(w, o)) && Blank(Fetch(Marked(w, o), gs[k]).value.data)
  {
    if o <= gs[k] {
      StepLeast(lo, k, o);
    }
    FetchBlank(w, o, gs[k]);
  }

  lemma StepsBlank(w: Weave, lo: nat, hi: nat, o: nat, gs: seq<nat>)
    requires Partitioned(w) && Skipped(w, lo, hi, o) && Steps(gs, lo, hi)
    ensures Partitioned(Marked(w, o))
    ensures var cs := FetchAll(Marked(w, o), gs); cs.Some? ==> AllBlank(cs.value)
  {
    var m := Marked(w, o);
    StepBlankAll(w, lo, hi, o, gs);
    if FetchAll(m, gs).Some? {
      var cs := FetchAll(m, gs).value;
      FetchedAt(m, gs, 0);
      forall c | c in cs ensures Blank(c.data) {
        var k :| 0 <= k < |cs| && cs[k] == c;
        FetchedAt(m, gs, k);
      }
    }
  }

  lemma StepBlankAll(w: Weave, lo: nat, hi: nat, o: nat, gs: seq<nat>)
    requires Partitioned(w) && Skipped(w, lo, hi, o) && Steps(gs, lo, hi)
    ensures Partitioned(Marked(w, o))
    ensures forall k | 0 <= k < |gs| && InWeave(w, gs[k]) :: Blank(Fetch(Marked(w, o), gs[k]).value.data)
  {
    forall k | 0 <= k < |gs| && InWeave(w, gs[k]) ensures Blank(Fetch(Marked(w, o), gs[k]).value.data) {
      StepBlank(w, lo, hi, o, gs, k);
    }
  }

  lemma TailBlank(w: Weave, lo: nat, hi: nat, o: nat, cs: seq<Chunk>)
    requires Partitioned(w) && Skipped(w, lo, hi, o) && AllBlank(cs) && InWeave(w, hi)
    ensures Partitioned(Marked(w, o))
    ensures
      var data := Assemble(cs + [Fetch(Marked(w, o), hi).value], lo);
      data.Some? ==> Blank(data.value)
  {
    FetchBlank(w, o, hi);
    AssembleBlank(cs + [Fetch(Marked(w, o), hi).value], lo);
  }

  /** What is read comes from the first fetches, and at most one more at the end of the range. */
  lemma FixedFrom(w: Weave, lo: nat, hi: nat, cs: seq<Chunk>)
    requires Partitioned(w) && lo <= hi && FetchAll(w, GenerateOffsets(lo, hi, CHUNK_SIZE)) == Some(cs)
    ensures
      var data := ReadFixed(w, lo, hi);
      || data == None || data == Assemble(Sort(cs), lo)
      || (InWeave(w, hi) && data == Assemble(Sort(cs) + [Fetch(w, hi).value], lo))
  {
    var gs := GenerateOffsets(lo, hi, CHUNK_SIZE);
    OffsetsAreSteps(lo, hi);
    assert Min(gs[|gs| - 1] + CHUNK_SIZE, hi) == hi;
  }

  /** A chunk that is skipped leaves no trace in what is read. */
  lemma SkippedIsMissed(w: Weave, lo: nat, hi: nat, o: nat)
    requires Partitioned(w) && Skipped(w, lo, hi, o)
    ensures Partitioned(Marked(w, o))
    ensures var data := ReadFixed(Marked(w, o), lo, hi); data.Some? ==> Blank(data.value)
  {
    var m := Marked(w, o);
    OffsetsAreSteps(lo, hi);
    StepsBlank(w, lo, hi, o, GenerateOffsets(lo, hi, CHUNK_SIZE));
    if ReadFixed(m, lo, hi).Some? {
      var cs := FetchAll(m, GenerateOffsets(lo, hi, CHUNK_SIZE)).value;
      FixedFrom(m, lo, hi, cs);
      AssembleBlank(cs, lo);
      AssembleBlank(Sort(cs), lo);
      if InWeave(m, hi) {
        TailBlank(w, lo, hi, o, Sort(cs));
      }
    }
  }

  //////////////////////////////////////////////////////////////////////////////
  // The request
  //////////////////////////////////////////////////////////////////////////////

  const STRICT_DATA_SPLIT_THRESHOLD: nat := 30_607_159_107_830

  /** The path is chosen by where the range lies; a range across the threshold is refused. */
  function FetchChunkRange(w: Weave, offset: nat, length: nat): Option<Bytes>
    requires Partitioned(w)
  {
    var hi := offset + length - 1;
    if offset >= STRICT_DATA_SPLIT_THRESHOLD && hi >= STRICT_DATA_SPLIT_THRESHOLD then ReadFixed(w, offset, hi)
    else if offset < STRICT_DATA_SPLIT_THRESHOLD && hi < STRICT_DATA_SPLIT_THRESHOLD then ReadVariable(w, offset, hi)
    else None
  }

  /** `length` bytes from `offset` on. */
  function GetChunk(w: Weave, offset: nat, length: nat): Option<Bytes>
    requires Partitioned(w)
  {
    match FetchChunkRange(w, offset, length)
    case None => None
    case Some(data) => Some(data[..Min(length, |data|)])
  }

  lemma VariableFront(w: Weave, offset: nat, length: nat)
    requires Partitioned(w) && length > 0 && offset + length - 1 < STRICT_DATA_SPLIT_THRESHOLD
    ensures
      GetChunk(w, offset, length)
      == match ReadVariable(w, offset, offset + length - 1)
         case None => None
         case Some(data) => Some(data[..Min(length, |data|)])
  {
  }

  lemma FixedIsExact(w: Weave, offset: nat, length: nat)
    requires Partitioned(w) && length > 0 && offset >= STRICT_DATA_SPLIT_THRESHOLD
    requires Covers(w, offset, offset + length - 1)
    ensures GetChunk(w, offset, length) == Requested(w, offset, offset + length - 1)
  {
    var hi := offset + length - 1;
    FixedExact(w, offset, hi);
    FixedFront(w, offset, length);
    FrontIs(w, offset, hi, ReadFixed(w, offset, hi));
  }

  lemma FrontIs(w: Weave, lo: nat, hi: nat, read: Option<Bytes>)
    requires Partitioned(w) && lo <= hi
    requires read == if InWeave(w, lo) && InWeave(w, hi) then Some(Slice(w, lo, Max(hi, w.last(hi)))) else None
    ensures
      (match read case None => None case Some(data) => Some(data[..Min(hi - lo + 1, |data|)])) == Requested(w, lo, hi)
  {
    Truncated(w, lo, hi, read);
  }

  lemma VariableIsExact(w: Weave, offset: nat, length: nat)
    requires Partitioned(w) && length > 0 && offset + length - 1 < STRICT_DATA_SPLIT_THRESHOLD
    ensures GetChunk(w, offset, length) == Requested(w, offset, offset + length - 1)
  {
    VariableFront(w, offset, length);
    VariableExact(w, offset, offset + length - 1);
    Truncated(w, offset, offset + length - 1, ReadVariable(w, offset, offset + length - 1));
  }

  /** The bytes of a range of the weave. */
  function Requested(w: Weave, lo: nat, hi: nat): Option<Bytes>
    requires lo <= hi
  {
    if InWeave(w, lo) && InWeave(w, hi) then Some(Slice(w, lo, hi)) else None
  }

  /** A read of a range is exact: it fails exactly if the range is not in the weave or spans the
      threshold. Behind the threshold the steps must cover the range. */
  lemma ReadsAreExact(w: Weave, offset: nat, length: nat)
    requires Partitioned(w) && length > 0
    requires offset >= 30_607_159_107_830 ==> Covers(w, offset, offset + length - 1)
    ensures
      var hi := offset + length - 1;
      GetChunk(w, offset, length)
      == if offset < 30_607_159_107_830 <= hi then None else Requested(w, offset, hi)
  {
    if offset >= 30_607_159_107_830 {
      FixedIsExact(w, offset, length);
    } else if offset + length - 1 < 30_607_159_107_830 {
      VariableIsExact(w, offset, length);
    }
  }

  /** Whatever bytes are in chunks with these bounds, the requested ones are returned. */
  ghost predicate ReadsAnyBytes(w: Weave, offset: nat, length: nat)
    requires Partitioned(w) && length > 0 && InWeave(w, offset) && InWeave(w, offset + length - 1)
  {
    forall v: Weave {:trigger GetChunk(v, offset, length)} |
      Partitioned(v) && |v.bytes| == |w.bytes| && v.first == w.first && v.last == w.last ::
      GetChunk(v, offset, length) == Some(Slice(v, offset, offset + length - 1))
  }

  lemma CoveredReads(w: Weave, offset: nat, length: nat)
    requires Partitioned(w) && length > 0 && offset >= STRICT_DATA_SPLIT_THRESHOLD
    requires InWeave(w, offset) && InWeave(w, offset + length - 1) && Covers(w, offset, offset + length - 1)
    ensures ReadsAnyBytes(w, offset, length)
  {
    forall v: Weave | Partitioned(v) && |v.bytes| == |w.bytes| && v.first == w.first && v.last == w.last
      ensures GetChunk(v, offset, length) == Some(Slice(v, offset, offset + length - 1))
    {
      ReadsAreExact(v, offset, length);
    }
  }

  lemma SkippedIsNotRead(w: Weave, offset: nat, length: nat, o: nat)
    requires Partitioned(w) && length > 0 && offset >= STRICT_DATA_SPLIT_THRESHOLD
    requires InWeave(w, offset) && InWeave(w, offset + length - 1) && Skipped(w, offset, offset + length - 1, o)
    ensures
      var m := Marked(w, o);
      && Partitioned(m) && m.first == w.first && m.last == w.last
      && GetChunk(m, offset, length) != Some(Slice(m, offset, offset + length - 1))
  {
    var (m, hi) := (Marked(w, o), offset + length - 1);
    SkippedIsMissed(w, offset, hi, o);
    MarkedNotBlank(w, offset, hi, o);
    BlankIsWrong(m, offset, length);
  }

  lemma BlankIsWrong(w: Weave, offset: nat, length: nat)
    requires Partitioned(w) && length > 0 && offset >= STRICT_DATA_SPLIT_THRESHOLD
    requires InWeave(w, offset) && InWeave(w, offset + length - 1) && !Blank(Slice(w, offset, offset + length - 1))
    requires var read := ReadFixed(w, offset, offset + length - 1); read.Some? ==> Blank(read.value)
    ensures GetChunk(w, offset, length) != Some(Slice(w, offset, offset + length - 1))
  {
    FixedFront(w, offset, length);
    BlankFront(ReadFixed(w, offset, offset + length - 1), length, Slice(w, offset, offset + length - 1));
  }

  lemma BlankFront(read: Option<Bytes>, n: nat, b: Bytes)
    requires read.Some? ==> Blank(read.value)
    requires !Blank(b)
    ensures (match read case None => None case Some(data) => Some(data[..Min(n, |data|)])) != Some(b)
  {
  }

  lemma MarkedNotBlank(w: Weave, lo: nat, hi: nat, o: nat)
    requires InWeave(w, lo) && InWeave(w, hi) && lo < o <= hi
    ensures !Blank(Slice(Marked(w, o), lo, hi))
  {
    var m := Marked(w, o);
    assert m.bytes[o - 1] == 1 && Slice(m, lo, hi) == m.bytes[lo - 1..hi];
    assert Slice(m, lo, hi)[o - lo] == 1;
  }

  lemma FixedFront(w: Weave, offset: nat, length: nat)
    requires Partitioned(w) && length > 0 && offset >= STRICT_DATA_SPLIT_THRESHOLD
    ensures
      GetChunk(w, offset, length)
      == match ReadFixed(w, offset, offset + length - 1)
         case None => None
         case Some(data) => Some(data[..Min(length, |data|)])
  {
  }

  lemma SomeSkipped(w: Weave, lo: nat, hi: nat) returns (o: nat)
    requires !Covers(w, lo, hi)
    ensures Skipped(w, lo, hi, o)
  {
    o :| lo < o <= hi && InWeave(w, o) && w.first(o) == o && !(Min(NextStep(lo, o), hi) <= w.last(o));
  }

  /** Behind the threshold that is so exactly if each chunk that begins in the range holds a step of
      256 KiB from its start, or its end. */
  lemma FixedReadsIff(w: Weave, offset: nat, length: nat)
    requires Partitioned(w) && length > 0 && offset >= 30_607_159_107_830
    requires InWeave(w, offset) && InWeave(w, offset + length - 1)
    ensures ReadsAnyBytes(w, offset, length) <==> Covers(w, offset, offset + length - 1)
  {
    var hi := offset + length - 1;
    if Covers(w, offset, hi) {
      CoveredReads(w, offset, length);
    } else {
      var o := SomeSkipped(w, offset, hi);
      SkippedIsNotRead(w, offset, length, o);
    }
  }

  /** All bytes are chunks of their own but the last 256 KiB, which are one. */
  function LongTail(bytes: Bytes): Weave
    requires |bytes| > CHUNK_SIZE
  {
    var from := |bytes| - CHUNK_SIZE + 1;
    Weave(bytes, (o: nat) => if o < from then o else from, (o: nat) => if o < from then o else |bytes|)
  }

  lemma LongTailIsWeave(bytes: Bytes)
    requires |bytes| > CHUNK_SIZE
    ensures Partitioned(LongTail(bytes))
  {
  }

  /** A read of 256 KiB and a byte, of which the first two bytes are chunks of their own: the result has
      the right length, no more is fetched, and the second byte is missing. */
  lemma ShortChunkIsMissed(bytes: Bytes)
    requires |bytes| == 30_607_159_107_830 + 262145
    ensures
      var (w, lo) := (LongTail(bytes), 30_607_159_107_830);
      && Partitioned(w) && InWeave(w, lo) && InWeave(w, lo + 262144)
      && GetChunk(w, lo, 262145) == Some(Slice(w, lo, lo) + Slice(w, lo + 2, lo + 262145))
  {
    var (w, lo) := (LongTail(bytes), STRICT_DATA_SPLIT_THRESHOLD);
    LongTailIsWeave(bytes);
    var (c, d) := (Chunk(lo, lo, w.bytes[lo - 1..lo]), Chunk(lo + 2, |bytes|, w.bytes[lo + 1..|bytes|]));
    assert Fetch(w, lo) == Some(c) && Fetch(w, lo + CHUNK_SIZE) == Some(d);
    TwoOffsets(lo);
    FetchTwo(w, lo, lo + CHUNK_SIZE);
    ReadTwo(w, lo, c, d);
    WholeRead(w, lo, CHUNK_SIZE + 1, c.data + d.data);
  }

  lemma WholeRead(w: Weave, offset: nat, length: nat, data: Bytes)
    requires Partitioned(w) && length > 0 && offset >= STRICT_DATA_SPLIT_THRESHOLD
    requires ReadFixed(w, offset, offset + length - 1) == Some(data) && |data| == length
    ensures GetChunk(w, offset, length) == Some(data)
  {
    FixedFront(w, offset, length);
    assert data[..|data|] == data;
  }

  /** Two chunks that fill the range. */
  lemma ReadTwo(w: Weave, lo: nat, c: Chunk, d: Chunk)
    requires Partitioned(w) && c.start < d.start && c.start == lo && |c.data| + |d.data| == CHUNK_SIZE + 1
    requires GenerateOffsets(lo, lo + CHUNK_SIZE, CHUNK_SIZE) == [lo, lo + CHUNK_SIZE]
    requires FetchAll(w, [lo, lo + CHUNK_SIZE]) == Some([c, d])
    ensures ReadFixed(w, lo, lo + CHUNK_SIZE) == Some(c.data + d.data)
  {
    AssembleTwo(c, d);
  }

  lemma TwoOffsets(lo: nat)
    ensures GenerateOffsets(lo, lo + CHUNK_SIZE, CHUNK_SIZE) == [lo, lo + CHUNK_SIZE]
  {
    assert GenerateOffsets(lo + CHUNK_SIZE + CHUNK_SIZE, lo + CHUNK_SIZE, CHUNK_SIZE) == [];
    assert GenerateOffsets(lo + CHUNK_SIZE, lo + CHUNK_SIZE, CHUNK_SIZE) == [lo + CHUNK_SIZE];
  }

  lemma FetchOne(w: Weave, o: nat)
    requires Partitioned(w) && InWeave(w, o)
    ensures FetchAll(w, [o]) == Some([Fetch(w, o).value])
  {
    var rest: seq<nat> := [o][1..];
    assert rest == [] && FetchAll(w, rest) == Some([]);
    assert [Fetch(w, o).value] + [] == [Fetch(w, o).value];
  }

  lemma FetchTwo(w: Weave, a: nat, b: nat)
    requires Partitioned(w) && InWeave(w, a) && InWeave(w, b)
    ensures FetchAll(w, [a, b]) == Some([Fetch(w, a).value, Fetch(w, b).value])
  {
    var rest: seq<nat> := [a, b][1..];
    FetchOne(w, b);
    assert rest == [b];
    assert [Fetch(w, a).value] + [Fetch(w, b).value] == [Fetch(w, a).value, Fetch(w, b).value];
  }

  lemma AssembleTwo(c: Chunk, d: Chunk)
    requires c.start < d.start
    ensures Sort([c, d]) == [c, d] && Assemble([c, d], c.start) == Some(c.data + d.data)
  {
    SortSorted([c, d]);
    assert [c, d][1..] == [d] && [d][1..] == [];
    assert TrimAll([], c.start) == Some([]);
    assert d.data + [] == d.data;
    assert TrimAll([d], c.start) == Some(d.data);
  }

  lemma Truncated(w: Weave, lo: nat, hi: nat, data: Option<Bytes>)
    requires Partitioned(w) && lo <= hi
    requires data == if InWeave(w, lo) && InWeave(w, hi) then Some(Slice(w, lo, Max(hi, w.last(hi)))) else None
    ensures data.Some? <==> InWeave(w, lo) && InWeave(w, hi)
    ensures data.Some? ==> data.value[..Min(hi - lo + 1, |data.value|)] == Slice(w, lo, hi)
  {
    if data.Some? {
      SliceFront(w.bytes, lo - 1, hi, Max(hi, w.last(hi)));
    }
  }

  lemma SliceFront(b: Bytes, from: nat, to: nat, end: nat)
    requires from <= to <= end <= |b|
    ensures b[from..end][..to - from] == b[from..to]
  {
  }
}
