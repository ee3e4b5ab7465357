/** Reading a range of the weave through its chunks (src/dev_arweave.erl:370-664). Bytes of the weave
    are numbered from one. */
module RangeRead {
  import opened Options
  import opened Bytes

  const CHUNK_SIZE: nat := 256 * 1024

  /** Offset o lies in the chunk from first(o) to last(o). */
  datatype Weave = Weave(bytes: Bytes, first: nat -> nat, last: nat -> nat)

  predicate InWeave(w: Weave, o: int) { 1 <= o <= |w.bytes| }

  /** The weave is divided into chunks of at most 256 KiB. */
  ghost predicate Partitioned(w: Weave) {
    && (forall o: nat | InWeave(w, o) :: 1 <= w.first(o) <= o <= w.last(o) <= |w.bytes|)
    && (forall o: nat | InWeave(w, o) :: w.last(o) - w.first(o) < 262144)
    && (forall o: nat, p: nat | InWeave(w, o) && w.first(o) <= p <= w.last(o) ::
          w.first(p) == w.first(o) && w.last(p) == w.last(o))
  }

  datatype Chunk = Chunk(start: nat, end: nat, data: Bytes)

  //////////////////////////////////////////////////////////////////////////////
  // The code
  //////////////////////////////////////////////////////////////////////////////

  /** The node answers for every byte of the weave and for no other. */
  function Fetch(w: Weave, o: nat): Option<Chunk>
    requires Partitioned(w)
  {
    if InWeave(w, o) then Some(Chunk(w.first(o), w.last(o), w.bytes[w.first(o) - 1..w.last(o)])) else None
  }

  function FetchAll(w: Weave, offsets: seq<nat>): Option<seq<Chunk>>
    requires Partitioned(w)
  {
    if offsets == [] then Some([])
    else
      var first := Fetch(w, offsets[0]);
      var rest := FetchAll(w, offsets[1..]);
      if first.None? || rest.None? then None else Some([first.value] + rest.value)
  }

  function GenerateOffsets(start: nat, end: int, step: nat): seq<nat>
    requires step > 0
    decreases end - start
  {
    if start > end then [] else [start] + GenerateOffsets(start + step, end, step)
  }

  /** lists:sort by start offset, which is stable. */
  function Sort(cs: seq<Chunk>): (s: seq<Chunk>)
    ensures |s| == |cs|
  {
    if cs == [] then [] else Insert(cs[0], Sort(cs[1..]))
  }

  function Insert(c: Chunk, s: seq<Chunk>): (r: seq<Chunk>)
    ensures |r| == |s| + 1
  {
    if s == [] || c.start <= s[0].start then [c] + s else [s[0]] + Insert(c, s[1..])
  }

  function Max(a: int, b: int): int { if a > b then a else b }

  /** The first offsets of the ranges in [pos, end] that no chunk covers. */
  function GapStarts(sorted: seq<Chunk>, pos: nat, end: int): seq<nat>
    decreases sorted
  {
    if sorted == [] then (if pos <= end then [pos] else [])
    else
      var c := sorted[0];
      (if c.start > pos then [pos] else []) + GapStarts(sorted[1..], Max(pos, c.end + 1), end)
  }

  /** Bytes in front of the offset are cut off; `None` is the exception if there are not so many. */
  function Trim(c: Chunk, offset: nat): Option<Bytes> {
    if c.start >= offset then Some(c.data)
    else if offset - c.start <= |c.data| then Some(c.data[offset - c.start..])
    else None
  }

  function TrimAll(cs: seq<Chunk>, offset: nat): Option<Bytes> {
    if cs == [] then Some([])
    else
      var first := Trim(cs[0], offset);
      var rest := TrimAll(cs[1..], offset);
      if first.None? || rest.None? then None else Some(first.value + rest.value)
  }

  function Assemble(cs: seq<Chunk>, offset: nat): Option<Bytes> { TrimAll(Sort(cs), offset) }

  predicate Covered(cs: seq<Chunk>, p: nat) {
    exists k :: 0 <= k < |cs| && cs[k].start <= p <= cs[k].end
  }

  /** How many offsets of a range no chunk covers. */
  ghost function Uncovered(cs: seq<Chunk>, start: nat, end: int): nat
    decreases end - start
  {
    if start > end then 0 else (if Covered(cs, start) then 0 else 1) + Uncovered(cs, start + 1, end)
  }

  //////////////////////////////////////////////////////////////////////////////
  // Sorting
  //////////////////////////////////////////////////////////////////////////////

  ghost predicate Increasing(s: seq<Chunk>) {
    forall i, j | 0 <= i < j < |s| :: s[i].start < s[j].start
  }

  ghost predicate Distinct(s: seq<Chunk>) {
    forall i, j | 0 <= i < j < |s| :: s[i].start != s[j].start
  }

  lemma {:induction false} InsertMembers(c: Chunk, s: seq<Chunk>, x: Chunk)
    ensures x in Insert(c, s) <==> x == c || x in s
    decreases s
  {
    if s != [] && c.start > s[0].start {
      InsertMembers(c, s[1..], x);
      assert x in s <==> x == s[0] || x in s[1..];
    }
  }

  lemma {:induction false} SortMembers(cs: seq<Chunk>, x: Chunk)
    ensures x in Sort(cs) <==> x in cs
    decreases cs
  {
    if cs != [] {
      InsertMembers(cs[0], Sort(cs[1..]), x);
      SortMembers(cs[1..], x);
      assert x in cs <==> x == cs[0] || x in cs[1..];
    }
  }

  lemma {:induction false} InsertIncreasing(c: Chunk, s: seq<Chunk>)
    requires Increasing(s) && forall x | x in s :: x.start != c.start
    ensures Increasing(Insert(c, s))
    decreases s
  {
    if s != [] && c.start > s[0].start {
      InsertIncreasing(c, s[1..]);
      forall x | x in Insert(c, s[1..]) ensures s[0].start < x.start {
        InsertMembers(c, s[1..], x);
      }
    }
  }

  /** Chunks with different starts are sorted strictly. */
  lemma {:induction false} SortIncreasing(cs: seq<Chunk>)
    requires Distinct(cs)
    ensures Increasing(Sort(cs))
    decreases cs
  {
    if cs != [] {
      SortIncreasing(cs[1..]);
      forall x | x in Sort(cs[1..]) ensures x.start != cs[0].start {
        SortMembers(cs[1..], x);
      }
      InsertIncreasing(cs[0], Sort(cs[1..]));
    }
  }

  //////////////////////////////////////////////////////////////////////////////
  // Gaps
  //////////////////////////////////////////////////////////////////////////////

  /** A chunk of the weave with a byte in the range. */
  ghost predicate Touches(w: Weave, c: Chunk, lo: nat, hi: int)
    requires Partitioned(w)
  {
    InWeave(w, c.start) && Fetch(w, c.start) == Some(c) && lo <= c.end && c.start <= hi
  }

  /** Different chunks with a byte in the range. */
  ghost predicate Good(w: Weave, cs: seq<Chunk>, lo: nat, hi: int)
    requires Partitioned(w)
  {
    Distinct(cs) && forall c | c in cs :: Touches(w, c, lo, hi)
  }

  /** Two chunks of the weave are the same or apart. */
  lemma Apart(w: Weave, a: nat, b: nat)
    requires Partitioned(w) && InWeave(w, a) && InWeave(w, b) && a <= b
    ensures w.first(a) == w.first(b) || w.last(a) < w.first(b)
  {
    var p: nat := w.first(b);
    assert w.first(p) == p;
    assert p <= a ==> w.first(a) == p;
  }

  lemma GoodSorted(w: Weave, cs: seq<Chunk>, lo: nat, hi: int)
    requires Partitioned(w) && Good(w, cs, lo, hi)
    ensures Good(w, Sort(cs), lo, hi) && Increasing(Sort(cs))
  {
    SortIncreasing(cs);
    forall c | c in Sort(cs) ensures Touches(w, c, lo, hi) {
      SortMembers(cs, c);
    }
  }

  /** What is left of a sorted list from `pos` on: the chunks are apart and end behind `pos`. */
  ghost predicate Rest(w: Weave, s: seq<Chunk>, pos: nat, lo: nat, hi: int)
    requires Partitioned(w)
  {
    && Increasing(s) && lo <= pos && (forall c | c in s :: Touches(w, c, lo, hi) && pos <= c.end)
  }

  lemma RestStep(w: Weave, s: seq<Chunk>, pos: nat, lo: nat, hi: int)
    requires Partitioned(w) && Rest(w, s, pos, lo, hi) && s != []
    ensures Max(pos, s[0].end + 1) == s[0].end + 1 && Rest(w, s[1..], s[0].end + 1, lo, hi)
    ensures forall c | c in s[1..] :: s[0].end < c.start
  {
    assert Touches(w, s[0], lo, hi) && pos <= s[0].end;
    forall c | c in s[1..] ensures s[0].end < c.start && Touches(w, c, lo, hi) {
      var k :| 0 <= k < |s| - 1 && s[1..][k] == c;
      assert s[0].start < s[k + 1].start && s[k + 1] in s;
      Apart(w, s[0].start, c.start);
      assert w.first(s[0].start) == s[0].start && w.first(c.start) == c.start;
    }
  }

  /** Later chunks begin behind the first one. */
  lemma {:induction false} GapBounds(w: Weave, s: seq<Chunk>, pos: nat, lo: nat, hi: int, g: nat)
    requires Partitioned(w) && Rest(w, s, pos, lo, hi) && g in GapStarts(s, pos, hi)
    ensures pos <= g <= hi && !Covered(s, g)
    decreases s
  {
    if s != [] {
      RestStep(w, s, pos, lo, hi);
      assert Touches(w, s[0], lo, hi);
      if g in GapStarts(s[1..], s[0].end + 1, hi) {
        GapBounds(w, s[1..], s[0].end + 1, lo, hi, g);
        assert forall k | 1 <= k < |s| :: s[k] == s[1..][k - 1];
      } else {
        assert forall k | 1 <= k < |s| :: s[k] in s[1..];
      }
    }
  }

  /** The chunks at the gaps are apart from each other. */
  ghost predicate Separate(w: Weave, gs: seq<nat>) {
    forall i, j | 0 <= i < j < |gs| :: w.last(gs[i]) < gs[j]
  }

  ghost predicate AllIn(w: Weave, gs: seq<nat>) {
    forall k | 0 <= k < |gs| :: InWeave(w, gs[k])
  }

  lemma LaterGaps(w: Weave, s: seq<Chunk>, pos: nat, lo: nat, hi: int)
    requires Partitioned(w) && Rest(w, s, pos, lo, hi)
    ensures forall k | 0 <= k < |GapStarts(s, pos, hi)| :: pos <= GapStarts(s, pos, hi)[k]
  {
    forall k | 0 <= k < |GapStarts(s, pos, hi)| ensures pos <= GapStarts(s, pos, hi)[k] {
      GapBounds(w, s, pos, lo, hi, GapStarts(s, pos, hi)[k]);
    }
  }

  lemma AllInRest(w: Weave, g: nat, rest: seq<nat>)
    requires AllIn(w, [g] + rest)
    ensures InWeave(w, g) && AllIn(w, rest)
  {
    assert ([g] + rest)[0] == g;
    assert forall k | 0 <= k < |rest| :: rest[k] == ([g] + rest)[k + 1];
  }

  lemma GapHere(w: Weave, c: Chunk, pos: nat, rest: seq<nat>, lo: nat, hi: int)
    requires Partitioned(w) && Touches(w, c, lo, hi) && pos < c.start && AllIn(w, [pos] + rest)
    requires Separate(w, rest) && forall k | 0 <= k < |rest| :: c.end < rest[k]
    ensures Separate(w, [pos] + rest)
  {
    AllInRest(w, pos, rest);
  }

  lemma FirstGap(w: Weave, s: seq<Chunk>, pos: nat, rest: seq<nat>, lo: nat, hi: int)
    requires Partitioned(w) && s != [] && Touches(w, s[0], lo, hi) && pos < s[0].start
    requires Rest(w, s[1..], s[0].end + 1, lo, hi) && rest == GapStarts(s[1..], s[0].end + 1, hi)
    requires AllIn(w, [pos] + rest) && Separate(w, rest)
    ensures Separate(w, [pos] + rest)
  {
    LaterGaps(w, s[1..], s[0].end + 1, lo, hi);
    GapHere(w, s[0], pos, rest, lo, hi);
  }

  /** The gaps behind the first chunk. */
  lemma LaterIn(w: Weave, s: seq<Chunk>, pos: nat, lo: nat, hi: int)
    requires Partitioned(w) && Rest(w, s, pos, lo, hi) && s != [] && AllIn(w, GapStarts(s, pos, hi))
    ensures Rest(w, s[1..], s[0].end + 1, lo, hi) && AllIn(w, GapStarts(s[1..], s[0].end + 1, hi))
  {
    var rest := GapStarts(s[1..], s[0].end + 1, hi);
    RestStep(w, s, pos, lo, hi);
    if s[0].start > pos {
      assert GapStarts(s, pos, hi) == [pos] + rest;
      AllInRest(w, pos, rest);
    } else {
      assert GapStarts(s, pos, hi) == rest;
    }
  }

  lemma GapsStep(w: Weave, s: seq<Chunk>, pos: nat, lo: nat, hi: int)
    requires Partitioned(w) && Rest(w, s, pos, lo, hi) && s != [] && AllIn(w, GapStarts(s, pos, hi))
    requires Separate(w, GapStarts(s[1..], s[0].end + 1, hi))
    ensures Separate(w, GapStarts(s, pos, hi))
  {
    var rest := GapStarts(s[1..], s[0].end + 1, hi);
    RestStep(w, s, pos, lo, hi);
    if s[0].start > pos {
      assert GapStarts(s, pos, hi) == [pos] + rest;
      FirstGap(w, s, pos, rest, lo, hi);
    } else {
      assert GapStarts(s, pos, hi) == rest;
    }
  }

  lemma {:induction false} GapsSeparate(w: Weave, s: seq<Chunk>, pos: nat, lo: nat, hi: int)
    requires Partitioned(w) && Rest(w, s, pos, lo, hi) && AllIn(w, GapStarts(s, pos, hi))
    ensures Separate(w, GapStarts(s, pos, hi))
    decreases s
  {
    if s != [] {
      LaterIn(w, s, pos, lo, hi);
      GapsSeparate(w, s[1..], s[0].end + 1, lo, hi);
      GapsStep(w, s, pos, lo, hi);
    }
  }

  lemma {:induction false} FetchedAt(w: Weave, gs: seq<nat>, k: nat)
    requires Partitioned(w) && FetchAll(w, gs).Some? && k < |gs|
    ensures |FetchAll(w, gs).value| == |gs| && InWeave(w, gs[k])
    ensures Fetch(w, gs[k]) == Some(FetchAll(w, gs).value[k])
    decreases gs
  {
    if k > 0 {
      FetchedAt(w, gs[1..], k - 1);
    } else if |gs| > 1 {
      FetchedAt(w, gs[1..], 0);
    }
  }

  lemma {:induction false} FetchFails(w: Weave, gs: seq<nat>)
    requires Partitioned(w)
    ensures FetchAll(w, gs).Some? <==> AllIn(w, gs)
    decreases gs
  {
    if gs != [] {
      FetchFails(w, gs[1..]);
      assert AllIn(w, gs) <==> InWeave(w, gs[0]) && AllIn(w, gs[1..]) by {
        assert forall k | 1 <= k < |gs| :: gs[k] == gs[1..][k - 1];
        assert forall k | 0 <= k < |gs| - 1 :: gs[1..][k] == gs[k + 1];
      }
    }
  }

  lemma FetchIsChunk(w: Weave, o: nat)
    requires Partitioned(w) && InWeave(w, o)
    ensures
      var c := Fetch(w, o).value;
      c.start <= o <= c.end && InWeave(w, c.start) && Fetch(w, c.start) == Some(c)
  {
    var p: nat := w.first(o);
    assert w.first(p) == w.first(o) && w.last(p) == w.last(o);
  }

  /** Chunks fetched at separate offsets of a range are different chunks of the range. */
  lemma FetchedGood(w: Weave, gs: seq<nat>, lo: nat, hi: int)
    requires Partitioned(w) && FetchAll(w, gs).Some? && Separate(w, gs)
    requires forall k | 0 <= k < |gs| :: lo <= gs[k] <= hi
    ensures Good(w, FetchAll(w, gs).value, lo, hi)
  {
    var cs := FetchAll(w, gs).value;
    if gs != [] {
      FetchedAt(w, gs, 0);
    }
    forall i, j | 0 <= i < j < |cs| ensures cs[i].start != cs[j].start {
      FetchedAt(w, gs, i);
      FetchedAt(w, gs, j);
      assert w.last(gs[i]) < gs[j];
    }
    forall c | c in cs ensures Touches(w, c, lo, hi) {
      var k :| 0 <= k < |cs| && cs[k] == c;
      FetchedAt(w, gs, k);
      FetchIsChunk(w, gs[k]);
    }
  }

  //////////////////////////////////////////////////////////////////////////////
  // Filling gaps
  //////////////////////////////////////////////////////////////////////////////

  lemma {:induction false} UncoveredShrinks(cs: seq<Chunk>, ds: seq<Chunk>, lo: nat, hi: int)
    requires forall p | Covered(cs, p) :: Covered(ds, p)
    ensures Uncovered(ds, lo, hi) <= Uncovered(cs, lo, hi)
    decreases hi - lo
  {
    if lo <= hi {
      UncoveredShrinks(cs, ds, lo + 1, hi);
    }
  }

  lemma {:induction false} UncoveredDrops(cs: seq<Chunk>, ds: seq<Chunk>, lo: nat, hi: int, g: nat)
    requires (forall p | Covered(cs, p) :: Covered(ds, p)) && lo <= g <= hi && !Covered(cs, g) && Covered(ds, g)
    ensures Uncovered(ds, lo, hi) < Uncovered(cs, lo, hi)
    decreases hi - lo
  {
    if lo == g {
      UncoveredShrinks(cs, ds, lo + 1, hi);
    } else {
      UncoveredDrops(cs, ds, lo + 1, hi, g);
    }
  }

  lemma CoveredMore(cs: seq<Chunk>, ds: seq<Chunk>, p: nat)
    requires Covered(cs, p) || Covered(ds, p)
    ensures Covered(cs + ds, p)
  {
    if Covered(cs, p) {
      var k :| 0 <= k < |cs| && cs[k].start <= p <= cs[k].end;
      assert (cs + ds)[k] == cs[k];
    } else {
      var k :| 0 <= k < |ds| && ds[k].start <= p <= ds[k].end;
      assert (cs + ds)[|cs| + k] == ds[k];
    }
  }

  lemma SortCovers(cs: seq<Chunk>, p: nat)
    ensures Covered(Sort(cs), p) <==> Covered(cs, p)
  {
    if Covered(cs, p) {
      var k :| 0 <= k < |cs| && cs[k].start <= p <= cs[k].end;
      SortMembers(cs, cs[k]);
    }
    if Covered(Sort(cs), p) {
      var k :| 0 <= k < |Sort(cs)| && Sort(cs)[k].start <= p <= Sort(cs)[k].end;
      SortMembers(cs, Sort(cs)[k]);
    }
  }

  lemma GapsInRange(w: Weave, s: seq<Chunk>, lo: nat, hi: int)
    requires Partitioned(w) && Good(w, s, lo, hi) && Increasing(s)
    ensures
      var gs := GapStarts(s, lo, hi);
      forall k | 0 <= k < |gs| :: lo <= gs[k] <= hi && !Covered(s, gs[k])
  {
    var gs := GapStarts(s, lo, hi);
    forall k | 0 <= k < |gs| ensures lo <= gs[k] <= hi && !Covered(s, gs[k]) {
      GapBounds(w, s, lo, lo, hi, gs[k]);
    }
  }

  /** Fetching the chunks at all gaps of a range adds new chunks of the range. */
  lemma GapsGood(w: Weave, s: seq<Chunk>, lo: nat, hi: int, gs: seq<nat>)
    requires Partitioned(w) && Good(w, s, lo, hi) && Increasing(s)
    requires gs == GapStarts(s, lo, hi) && FetchAll(w, gs).Some?
    ensures Good(w, s + FetchAll(w, gs).value, lo, hi)
  {
    var ds := FetchAll(w, gs).value;
    FetchFails(w, gs);
    GapsSeparate(w, s, lo, lo, hi);
    GapsInRange(w, s, lo, hi);
    FetchedGood(w, gs, lo, hi);
    forall c, d | c in s && d in ds ensures c.start != d.start {
      var k :| 0 <= k < |ds| && ds[k] == d;
      if gs != [] {
        FetchedAt(w, gs, 0);
        NewChunk(w, s, c, gs, k, lo, hi);
      }
    }
  }

  /** The start of the first gap is covered then. */
  lemma GapsCovered(w: Weave, s: seq<Chunk>, lo: nat, hi: int, gs: seq<nat>)
    requires Partitioned(w) && FetchAll(w, gs).Some? && gs != [] && lo <= gs[0] <= hi && !Covered(s, gs[0])
    ensures Uncovered(s + FetchAll(w, gs).value, lo, hi) < Uncovered(s, lo, hi)
  {
    var ds := FetchAll(w, gs).value;
    FetchedAt(w, gs, 0);
    FetchIsChunk(w, gs[0]);
    assert Covered(ds, gs[0]);
    forall p | Covered(s, p) ensures Covered(s + ds, p) {
      CoveredMore(s, ds, p);
    }
    CoveredMore(s, ds, gs[0]);
    UncoveredDrops(s, s + ds, lo, hi, gs[0]);
  }

  lemma GapsFilled(w: Weave, s: seq<Chunk>, lo: nat, hi: int, gs: seq<nat>)
    requires Partitioned(w) && Good(w, s, lo, hi) && Increasing(s)
    requires gs == GapStarts(s, lo, hi) && gs != [] && FetchAll(w, gs).Some?
    ensures
      var more := s + FetchAll(w, gs).value;
      Good(w, more, lo, hi) && Uncovered(more, lo, hi) < Uncovered(s, lo, hi)
  {
    GapsGood(w, s, lo, hi, gs);
    GapsInRange(w, s, lo, hi);
    GapsCovered(w, s, lo, hi, gs);
  }

  /** A chunk fetched at an uncovered offset is a new one. */
  lemma NewChunk(w: Weave, s: seq<Chunk>, c: Chunk, gs: seq<nat>, k: nat, lo: nat, hi: int)
    requires Partitioned(w) && c in s && Touches(w, c, lo, hi)
    requires FetchAll(w, gs).Some? && k < |gs| && !Covered(s, gs[k])
    ensures |FetchAll(w, gs).value| == |gs| && c.start != FetchAll(w, gs).value[k].start
  {
    FetchedAt(w, gs, k);
    FetchIsChunk(w, gs[k]);
  }

  /** Fetches the chunk at the start of each gap until the range is covered, and assembles. */
  function FillGaps(w: Weave, cs: seq<Chunk>, lo: nat, hi: int): Option<Bytes>
    requires Partitioned(w) && Good(w, cs, lo, hi)
    decreases Uncovered(Sort(cs), lo, hi)
  {
    var sorted := Sort(cs);
    var gaps := GapStarts(sorted, lo, hi);
    if gaps == [] then Assemble(sorted, lo)
    else
      match FetchAll(w, gaps)
      case None => None
      case Some(more) =>
        GoodSorted(w, cs, lo, hi);
        GapsFilled(w, sorted, lo, hi, gaps);
        SortUncovered(sorted + more, lo, hi);
        FillGaps(w, sorted + more, lo, hi)
  }

  lemma {:induction false} SortUncovered(cs: seq<Chunk>, lo: nat, hi: int)
    ensures Uncovered(Sort(cs), lo, hi) == Uncovered(cs, lo, hi)
    decreases hi - lo
  {
    if lo <= hi {
      SortCovers(cs, lo);
      SortUncovered(cs, lo + 1, hi);
    }
  }

  //////////////////////////////////////////////////////////////////////////////
  // Exactness
  //////////////////////////////////////////////////////////////////////////////

  /** Bytes `from` to `to` of the weave. */
  function Slice(w: Weave, from: nat, to: int): Bytes
    requires 1 <= from <= to + 1 <= |w.bytes| + 1
  {
    w.bytes[from - 1..to]
  }

  function EndOf(s: seq<Chunk>, pos: nat): int {
    if s == [] then pos - 1 else s[|s| - 1].end
  }

  ghost predicate Trims(w: Weave, s: seq<Chunk>, pos: nat, lo: nat, hi: int) {
    && 1 <= pos <= EndOf(s, pos) + 1 && hi <= EndOf(s, pos) <= |w.bytes|
    && TrimAll(s, lo) == Some(Slice(w, pos, EndOf(s, pos)))
  }

  lemma TrimStep(w: Weave, s: seq<Chunk>, pos: nat, lo: nat, hi: int, end: int)
    requires s != [] && lo <= pos && 1 <= pos == s[0].start <= s[0].end && end == EndOf(s, pos)
    requires s[0].end <= |w.bytes| && s[0].data == Slice(w, pos, s[0].end)
    requires Trims(w, s[1..], s[0].end + 1, lo, hi) && EndOf(s[1..], s[0].end + 1) == end
    ensures Trims(w, s, pos, lo, hi)
  {
    assert Slice(w, pos, (s[0].end)) + Slice(w, (s[0].end) + 1, end) == Slice(w, pos, end);
  }

  /** Chunks without a gap from `pos` on, none of which begins in front of it. */
  ghost predicate Gapless(w: Weave, s: seq<Chunk>, pos: nat, lo: nat, hi: int)
    requires Partitioned(w)
  {
    && Rest(w, s, pos, lo, hi) && GapStarts(s, pos, hi) == [] && 1 <= pos <= |w.bytes| + 1
    && forall c | c in s :: pos <= c.start
  }

  lemma GaplessNext(w: Weave, s: seq<Chunk>, pos: nat, lo: nat, hi: int)
    requires Partitioned(w) && Gapless(w, s, pos, lo, hi) && s != []
    ensures Gapless(w, s[1..], s[0].end + 1, lo, hi) && EndOf(s[1..], s[0].end + 1) == EndOf(s, pos)
    ensures pos == s[0].start <= s[0].end <= |w.bytes| && s[0].data == Slice(w, pos, s[0].end)
  {
    assert Touches(w, s[0], lo, hi);
    RestStep(w, s, pos, lo, hi);
  }

  lemma NoChunks(w: Weave, pos: nat, lo: nat, hi: int)
    requires 1 <= pos <= |w.bytes| + 1 && GapStarts([], pos, hi) == []
    ensures Trims(w, [], pos, lo, hi)
  {
    assert Slice(w, pos, pos - 1) == [];
  }

  /** They are the bytes up to the end of the last one. */
  lemma {:induction false} TrimRest(w: Weave, s: seq<Chunk>, pos: nat, lo: nat, hi: int)
    requires Partitioned(w) && Gapless(w, s, pos, lo, hi)
    ensures Trims(w, s, pos, lo, hi)
    decreases s
  {
    if s == [] {
      NoChunks(w, pos, lo, hi);
    } else {
      GaplessNext(w, s, pos, lo, hi);
      TrimRest(w, s[1..], s[0].end + 1, lo, hi);
      TrimStep(w, s, pos, lo, hi, EndOf(s, pos));
    }
  }

  lemma TrimFirst(w: Weave, s: seq<Chunk>, lo: nat, hi: int, end: int)
    requires s != [] && 1 <= s[0].start <= lo <= s[0].end <= |w.bytes| && end == EndOf(s, lo)
    requires s[0].data == Slice(w, s[0].start, s[0].end)
    requires Trims(w, s[1..], s[0].end + 1, lo, hi) && EndOf(s[1..], s[0].end + 1) == end
    ensures Trims(w, s, lo, lo, hi)
  {
    assert Trim(s[0], lo) == Some(Slice(w, lo, s[0].end));
    assert Slice(w, lo, (s[0].end)) + Slice(w, (s[0].end) + 1, end) == Slice(w, lo, end);
  }

  /** The last of the chunks is the one that holds the end of the range. */
  lemma LastChunk(w: Weave, s: seq<Chunk>, lo: nat, hi: nat)
    requires Partitioned(w) && s != [] && (forall c | c in s :: Touches(w, c, lo, hi)) && hi <= EndOf(s, lo)
    ensures InWeave(w, hi) && EndOf(s, lo) == w.last(hi)
  {
    var c := s[|s| - 1];
    assert Touches(w, c, lo, hi);
    assert w.first(c.start) <= hi <= w.last(c.start);
  }

  lemma AfterFirst(w: Weave, s: seq<Chunk>, lo: nat, hi: nat)
    requires Partitioned(w) && 1 <= lo <= hi && Good(w, s, lo, hi) && Increasing(s) && GapStarts(s, lo, hi) == []
    ensures s != [] && 1 <= s[0].start <= lo <= s[0].end <= |w.bytes| && s[0].data == Slice(w, s[0].start, s[0].end)
    ensures Gapless(w, s[1..], s[0].end + 1, lo, hi) && EndOf(s[1..], s[0].end + 1) == EndOf(s, lo)
  {
    assert s != [];
    assert Touches(w, s[0], lo, hi);
    RestStep(w, s, lo, lo, hi);
  }

  lemma SortedTrims(w: Weave, s: seq<Chunk>, lo: nat, hi: nat)
    requires Partitioned(w) && 1 <= lo <= hi && Good(w, s, lo, hi) && Increasing(s) && GapStarts(s, lo, hi) == []
    ensures s != [] && Trims(w, s, lo, lo, hi)
  {
    AfterFirst(w, s, lo, hi);
    TrimRest(w, s[1..], s[0].end + 1, lo, hi);
    TrimFirst(w, s, lo, hi, EndOf(s, lo));
  }

  /** A sorted list without a gap is assembled to the bytes of the range and the rest of its last
      chunk, each byte once. */
  lemma AssembleExact(w: Weave, s: seq<Chunk>, lo: nat, hi: nat)
    requires Partitioned(w) && 1 <= lo <= hi && Good(w, s, lo, hi) && Increasing(s) && GapStarts(s, lo, hi) == []
    ensures InWeave(w, hi) && lo <= w.last(hi) && TrimAll(s, lo) == Some(Slice(w, lo, w.last(hi)))
  {
    SortedTrims(w, s, lo, hi);
    LastChunk(w, s, lo, hi);
  }

  lemma {:induction false} SortSorted(s: seq<Chunk>)
    requires Increasing(s)
    ensures Sort(s) == s
    decreases s
  {
    if s != [] {
      SortSorted(s[1..]);
    }
  }

  //////////////////////////////////////////////////////////////////////////////
  // Chunks of any size
  //////////////////////////////////////////////////////////////////////////////

  /** Filling the gaps of a range of the weave ends, and yields the range and the rest of its last
      chunk, each byte once. It fails exactly if the range is not in the weave. */
  lemma {:induction false} FillGapsExact(w: Weave, cs: seq<Chunk>, lo: nat, hi: nat)
    requires Partitioned(w) && 1 <= lo <= hi && Good(w, cs, lo, hi)
    ensures
      FillGaps(w, cs, lo, hi)
      == if InWeave(w, hi) then Some(Slice(w, lo, Max(hi, w.last(hi)))) else None
    decreases Uncovered(Sort(cs), lo, hi)
  {
    var sorted := Sort(cs);
    var gaps := GapStarts(sorted, lo, hi);
    GoodSorted(w, cs, lo, hi);
    if gaps == [] {
      AssembleExact(w, sorted, lo, hi);
      SortSorted(sorted);
    } else if FetchAll(w, gaps).Some? {
      GapsFilled(w, sorted, lo, hi, gaps);
      SortUncovered(sorted + FetchAll(w, gaps).value, lo, hi);
      FillGapsExact(w, sorted + FetchAll(w, gaps).value, lo, hi);
    } else {
      GapsInRange(w, sorted, lo, hi);
      FetchFails(w, gaps);
      var k :| 0 <= k < |gaps| && !InWeave(w, gaps[k]);
      assert lo <= gaps[k] <= hi;
    }
  }

  lemma {:induction false} OffsetsAre(lo: nat, hi: int, step: nat, k: nat)
    requires step > 0 && k < |GenerateOffsets(lo, hi, step)|
    ensures lo <= GenerateOffsets(lo, hi, step)[k] == lo + k * step <= hi
    decreases k
  {
    if k > 0 {
      OffsetsAre(lo + step, hi, step, k - 1);
      assert (lo + step) + (k - 1) * step == lo + k * step;
    }
  }

  /** No chunk is asked for twice. */
  lemma OffsetsSeparate(w: Weave, lo: nat, hi: int, gs: seq<nat>)
    requires Partitioned(w) && AllIn(w, gs)
    requires forall k | 0 <= k < |gs| :: gs[k] == lo + k * CHUNK_SIZE
    ensures Separate(w, gs)
  {
    forall i, j | 0 <= i < j < |gs| ensures w.last(gs[i]) < gs[j] {
      LaterStep(lo, i, j);
      ChunkIsShort(w, gs[i]);
    }
  }

  lemma LaterStep(lo: nat, i: nat, j: nat)
    requires i < j
    ensures lo + i * CHUNK_SIZE + CHUNK_SIZE <= lo + j * CHUNK_SIZE
  {
  }

  lemma ChunkIsShort(w: Weave, o: nat)
    requires Partitioned(w) && InWeave(w, o)
    ensures w.last(o) < o + CHUNK_SIZE
  {
  }

  lemma FirstFetchGood(w: Weave, lo: nat, hi: int)
    requires Partitioned(w) && FetchAll(w, GenerateOffsets(lo, hi, CHUNK_SIZE)).Some?
    ensures Good(w, FetchAll(w, GenerateOffsets(lo, hi, CHUNK_SIZE)).value, lo, hi)
  {
    var gs := GenerateOffsets(lo, hi, CHUNK_SIZE);
    FetchFails(w, gs);
    forall k | 0 <= k < |gs| ensures lo <= gs[k] == lo + k * CHUNK_SIZE <= hi {
      OffsetsAre(lo, hi, CHUNK_SIZE, k);
    }
    OffsetsSeparate(w, lo, hi, gs);
    FetchedGood(w, gs, lo, hi);
  }

  function ReadVariable(w: Weave, lo: nat, hi: int): Option<Bytes>
    requires Partitioned(w)
  {
    match FetchAll(w, GenerateOffsets(lo, hi, CHUNK_SIZE))
    case None => None
    case Some(cs) =>
      FirstFetchGood(w, lo, hi);
      FillGaps(w, cs, lo, hi)
  }

  /** The variable-size path reads the range exactly if it is in the weave. */
  lemma VariableExact(w: Weave, lo: nat, hi: nat)
    requires Partitioned(w) && lo <= hi
    ensures
      ReadVariable(w, lo, hi)
      == if InWeave(w, lo) && InWeave(w, hi) then Some(Slice(w, lo, Max(hi, w.last(hi)))) else None
  {
    var gs := GenerateOffsets(lo, hi, CHUNK_SIZE);
    FetchFails(w, gs);
    if FetchAll(w, gs).Some? {
      assert gs[0] == lo;
      FirstFetchGood(w, lo, hi);
      FillGapsExact(w, FetchAll(w, gs).value, lo, hi);
    } else {
      var k :| 0 <= k < |gs| && !InWeave(w, gs[k]);
      OffsetsAre(lo, hi, CHUNK_SIZE, k);
    }
  }
}
