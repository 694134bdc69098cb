/**
 * Seed ranges pushed through the almanac's chain of mappers
 * (day05/part2.py). A mapper is a list of sections; a section shifts every
 * value of a closed interval by a constant offset; values no section
 * touches pass through unchanged.
 */
module Day05Ranges {
  import opened Common

  /** A closed integer interval; it holds no value when start > end. */
  datatype Range = Range(start: int, end: int)

  /** One section of a mapper: every value of [start, end] moves by offset. */
  datatype MapperRange = MapperRange(start: int, end: int, offset: int)

  predicate InRange(r: Range, v: int)
  {
    r.start <= v <= r.end
  }

  predicate InSection(s: MapperRange, v: int)
  {
    s.start <= v <= s.end
  }

  /** Number of values in a range. */
  function Width(r: Range): nat
  {
    if r.start <= r.end then r.end - r.start + 1 else 0
  }

  function Shift(r: Range, d: int): Range
  {
    Range(r.start + d, r.end + d)
  }

  /** The part of the input that lies inside the section. */
  function Overlap(s: MapperRange, r: Range): Range
  {
    Range(if r.start < s.start then s.start else r.start,
          if r.end < s.end then r.end else s.end)
  }

  /** The part of the input below the section, if any. */
  function Below(s: MapperRange, r: Range): seq<Range>
  {
    if r.start < s.start then [Range(r.start, s.start - 1)] else []
  }

  /** The part of the input above the section, if any. */
  function Above(s: MapperRange, r: Range): seq<Range>
  {
    if r.end > s.end then [Range(s.end + 1, r.end)] else []
  }

  /**
   * MapperRange.intersect: None when the input misses the section;
   * otherwise the mapped overlap followed by the remainders below and
   * above the section.
   */
  function Intersect(s: MapperRange, values: Range): (cuts: Option<seq<Range>>)
    ensures values.start <= values.end && s.start <= s.end ==>
      (cuts.None? <==> values.end < s.start || values.start > s.end)
    ensures cuts.Some? ==>
      |cuts.value| >= 1 &&
      cuts.value[0] == Shift(Overlap(s, values), s.offset) &&
      cuts.value[1..] == Below(s, values) + Above(s, values)
  {
    if values.start < s.start then
      if values.end < s.start then None
      else if values.end <= s.end then
        Some([Range(s.start + s.offset, values.end + s.offset),
              Range(values.start, s.start - 1)])
      else
        Some([Range(s.start + s.offset, s.end + s.offset),
              Range(values.start, s.start - 1),
              Range(s.end + 1, values.end)])
    else if values.start <= s.end then
      if values.end <= s.end then
        Some([Range(values.start + s.offset, values.end + s.offset)])
      else
        Some([Range(values.start + s.offset, s.end + s.offset),
              Range(s.end + 1, values.end)])
    else None
  }

  /** 1 when the range holds v, else 0. */
  function Hit(r: Range, v: int): nat
  {
    if InRange(r, v) then 1 else 0
  }

  /** How many ranges of the list hold v. */
  function Count(rs: seq<Range>, v: int): nat
  {
    if |rs| == 0 then 0 else Hit(rs[0], v) + Count(rs[1..], v)
  }

  /** Total number of values over a list of ranges. */
  function TotalWidth(rs: seq<Range>): nat
  {
    if |rs| == 0 then 0 else Width(rs[0]) + TotalWidth(rs[1..])
  }

  lemma {:induction false} CountAppend(a: seq<Range>, b: seq<Range>, v: int)
    ensures Count(a + b, v) == Count(a, v) + Count(b, v)
    decreases |a|
  {
    if |a| == 0 {
      assert a + b == b;
    } else {
      assert (a + b)[1..] == a[1..] + b;
      CountAppend(a[1..], b, v);
    }
  }

  lemma {:induction false} TotalWidthAppend(a: seq<Range>, b: seq<Range>)
    ensures TotalWidth(a + b) == TotalWidth(a) + TotalWidth(b)
    decreases |a|
  {
    if |a| == 0 {
      assert a + b == b;
    } else {
      assert (a + b)[1..] == a[1..] + b;
      TotalWidthAppend(a[1..], b);
    }
  }

  /** Every value of the input lies in exactly one of overlap, below and above. */
  lemma IntersectPartition(s: MapperRange, r: Range, v: int)
    requires s.start <= s.end
    requires Intersect(s, r).Some?
    ensures Hit(r, v) == Hit(Overlap(s, r), v) + Count(Below(s, r) + Above(s, r), v)
    ensures InRange(Overlap(s, r), v) ==> InSection(s, v)
  {
    CountAppend(Below(s, r), Above(s, r), v);
  }

  /** A well-formed input splits into well-formed pieces whose widths add up. */
  lemma IntersectWidth(s: MapperRange, r: Range)
    requires s.start <= s.end
    requires r.start <= r.end
    requires Intersect(s, r).Some?
    ensures Overlap(s, r).start <= Overlap(s, r).end
    ensures forall p :: p in Below(s, r) + Above(s, r) ==> p.start <= p.end
    ensures Width(Overlap(s, r)) + TotalWidth(Below(s, r) + Above(s, r)) == Width(r)
    ensures |Below(s, r) + Above(s, r)| <= 2
  {
    TotalWidthAppend(Below(s, r), Above(s, r));
  }

  /** An input that holds no value yields no remainder. */
  lemma IntersectEmptyInput(s: MapperRange, r: Range)
    requires r.start > r.end
    requires Intersect(s, r).Some?
    ensures Below(s, r) + Above(s, r) == []
  {
  }

  /** An input the section misses holds no value of the section. */
  lemma MissNoValue(s: MapperRange, r: Range, v: int)
    requires s.start <= s.end
    requires Intersect(s, r).None?
    requires InRange(r, v)
    ensures !InSection(s, v)
  {
  }

  /** Sections are non-empty intervals; the values parsed from the almanac have size at least 1. */
  predicate ValidSections(sections: seq<MapperRange>)
  {
    forall k :: 0 <= k < |sections| ==> sections[k].start <= sections[k].end
  }

  /** Position of the first section the range intersects, or |sections| when none does. */
  function FirstHit(sections: seq<MapperRange>, r: Range, from: nat): (i: nat)
    requires from <= |sections|
    ensures from <= i <= |sections|
    ensures forall j :: from <= j < i ==> Intersect(sections[j], r).None?
    ensures i < |sections| ==> Intersect(sections[i], r).Some?
    decreases |sections| - from
  {
    if from == |sections| then from
    else if Intersect(sections[from], r).Some? then from
    else FirstHit(sections, r, from + 1)
  }

  /** A piece of output: the input values it came from and the offset applied to them. */
  datatype Piece = Piece(source: Range, offset: int)

  /** What popping one range from the worklist emits, and what it puts back. */
  function Emit(sections: seq<MapperRange>, r: Range): (Piece, seq<Range>)
  {
    var i := FirstHit(sections, r, 0);
    if i == |sections| then (Piece(r, 0), [])
    else (Piece(Overlap(sections[i], r), sections[i].offset),
          Below(sections[i], r) + Above(sections[i], r))
  }

  /** The worklist shrinks with every pop. */
  lemma EmitShrinks(sections: seq<MapperRange>, r: Range)
    requires ValidSections(sections)
    ensures TotalWidth(Emit(sections, r).1) + Width(Emit(sections, r).0.source) == Width(r)
    ensures r.start <= r.end ==> Width(Emit(sections, r).0.source) >= 1
  {
    var i := FirstHit(sections, r, 0);
    if i < |sections| {
      if r.start <= r.end {
        IntersectWidth(sections[i], r);
      } else {
        IntersectEmptyInput(sections[i], r);
      }
    }
  }

  /**
   * The worklist of Mapper.map_value, first in first out: pop a range,
   * emit the piece of the first section it meets (or itself), and queue
   * its remainders at the back.
   */
  function Resolve(sections: seq<MapperRange>, queue: seq<Range>): seq<Piece>
    requires ValidSections(sections)
    decreases TotalWidth(queue), |queue|
  {
    if |queue| == 0 then []
    else
      var (piece, rest) := Emit(sections, queue[0]);
      EmitShrinks(sections, queue[0]);
      TotalWidthAppend(queue[1..], rest);
      [piece] + Resolve(sections, queue[1..] + rest)
  }

  function Emitted(pieces: seq<Piece>): seq<Range>
  {
    if |pieces| == 0 then [] else [Shift(pieces[0].source, pieces[0].offset)] + Emitted(pieces[1..])
  }

  function Sources(pieces: seq<Piece>): seq<Range>
  {
    if |pieces| == 0 then [] else [pieces[0].source] + Sources(pieces[1..])
  }

  lemma {:induction false} EmittedLength(pieces: seq<Piece>)
    ensures |Emitted(pieces)| == |Sources(pieces)| == |pieces|
    ensures forall k :: 0 <= k < |pieces| ==>
      Emitted(pieces)[k] == Shift(pieces[k].source, pieces[k].offset) &&
      Sources(pieces)[k] == pieces[k].source
    decreases |pieces|
  {
    if |pieces| > 0 {
      EmittedLength(pieces[1..]);
    }
  }

  /** The ranges Mapper.map_value returns for the given input. */
  function MapRanges(sections: seq<MapperRange>, values: seq<Range>): seq<Range>
    requires ValidSections(sections)
  {
    Emitted(Resolve(sections, values))
  }

  /** Resolve, one pop at a time. */
  lemma ResolveUnfold(sections: seq<MapperRange>, queue: seq<Range>)
    requires ValidSections(sections)
    requires |queue| > 0
    ensures Emitted(Resolve(sections, queue)) ==
      [Shift(Emit(sections, queue[0]).0.source, Emit(sections, queue[0]).0.offset)] +
      Emitted(Resolve(sections, queue[1..] + Emit(sections, queue[0]).1))
  {
    var tail := Resolve(sections, queue[1..] + Emit(sections, queue[0]).1);
    assert Resolve(sections, queue) == [Emit(sections, queue[0]).0] + tail;
    assert ([Emit(sections, queue[0]).0] + tail)[1..] == tail;
  }

  lemma ResolveCons(sections: seq<MapperRange>, queue: seq<Range>)
    requires ValidSections(sections) && |queue| > 0
    ensures Resolve(sections, queue) ==
      [Emit(sections, queue[0]).0] + Resolve(sections, queue[1..] + Emit(sections, queue[0]).1)
  {
  }

  /** The first hit is the only index with no hit before it and a hit at it. */
  lemma FirstHitUnique(sections: seq<MapperRange>, r: Range, k: nat)
    requires k <= |sections| && Missed(sections, r, k)
    requires k < |sections| ==> Intersect(sections[k], r).Some?
    ensures FirstHit(sections, r, 0) == k
  {
  }

  /** None of the first k sections overlaps r. */
  predicate Missed(sections: seq<MapperRange>, r: Range, k: nat)
    requires k <= |sections|
  {
    forall j :: 0 <= j < k ==> Intersect(sections[j], r).None?
  }

  lemma MissedStep(sections: seq<MapperRange>, r: Range, k: nat)
    requires k < |sections| && Missed(sections, r, k) && Intersect(sections[k], r).None?
    ensures Missed(sections, r, k + 1)
  {
  }

  /** Mapper.map_value. */
  method MapValue(sections: seq<MapperRange>, values: seq<Range>) returns (results: seq<Range>)
    requires ValidSections(sections)
    ensures results == MapRanges(sections, values)
  {
    var queue := values;
    results := [];
    while |queue| > 0
      invariant results + Emitted(Resolve(sections, queue)) == MapRanges(sections, values)
      decreases TotalWidth(queue), |queue|
    {
      var subrange := queue[0];
      ghost var before := queue;
      ghost var done := results;
      queue := queue[1..];
      var isMapped := false;
      var k := 0;
      while k < |sections|
        invariant 0 <= k <= |sections|
        invariant Missed(sections, subrange, k)
        invariant !isMapped && queue == before[1..] && results == done
      {
        var cuts := Intersect(sections[k], subrange);
        if cuts.Some? {
          isMapped := true;
          results := results + [cuts.value[0]];
          if |cuts.value| > 1 {
            queue := queue + cuts.value[1..];
          }
          break;
        }
        MissedStep(sections, subrange, k);
        k := k + 1;
      }
      if !isMapped {
        results := results + [subrange];
      }
      FirstHitUnique(sections, subrange, k);
      PopStep(sections, before, done, results, queue);
      PopShrinks(sections, before, queue);
    }
  }

  /** One pop of the worklist keeps the loop invariant of MapValue. */
  lemma PopStep(sections: seq<MapperRange>, before: seq<Range>, done: seq<Range>,
                results: seq<Range>, queue: seq<Range>)
    requires ValidSections(sections)
    requires |before| > 0
    requires results == done + [Shift(Emit(sections, before[0]).0.source, Emit(sections, before[0]).0.offset)]
    requires queue == before[1..] + Emit(sections, before[0]).1
    ensures results + Emitted(Resolve(sections, queue)) == done + Emitted(Resolve(sections, before))
  {
    ResolveUnfold(sections, before);
    SeqAssoc(done, [Shift(Emit(sections, before[0]).0.source, Emit(sections, before[0]).0.offset)],
             Emitted(Resolve(sections, queue)));
  }

  lemma SeqAssoc(a: seq<Range>, b: seq<Range>, c: seq<Range>)
    ensures (a + b) + c == a + (b + c)
  {
  }

  /** One pop of the worklist shrinks it: less total width, or as wide and shorter. */
  lemma PopShrinks(sections: seq<MapperRange>, before: seq<Range>, queue: seq<Range>)
    requires ValidSections(sections)
    requires |before| > 0
    requires queue == before[1..] + Emit(sections, before[0]).1
    ensures TotalWidth(queue) < TotalWidth(before) ||
      (TotalWidth(queue) == TotalWidth(before) && |queue| < |before|)
    ensures before[0].start <= before[0].end ==> TotalWidth(queue) < TotalWidth(before)
  {
    EmitShrinks(sections, before[0]);
    TotalWidthAppend(before[1..], Emit(sections, before[0]).1);
    if before[0].start > before[0].end {
      var i := FirstHit(sections, before[0], 0);
      if i < |sections| {
        IntersectEmptyInput(sections[i], before[0]);
      }
    }
  }

  /** The value one mapper gives a single point: the first section holding it decides. */
  function MapPoint(sections: seq<MapperRange>, v: int): int
  {
    if |sections| == 0 then v
    else if InSection(sections[0], v) then v + sections[0].offset
    else MapPoint(sections[1..], v)
  }

  lemma {:induction false} MapPointFirst(sections: seq<MapperRange>, i: nat, v: int)
    requires i <= |sections|
    requires forall j :: 0 <= j < i ==> !InSection(sections[j], v)
    ensures i < |sections| && InSection(sections[i], v) ==> MapPoint(sections, v) == v + sections[i].offset
    ensures i == |sections| ==> MapPoint(sections, v) == v
    decreases i
  {
    if i > 0 {
      MapPointFirst(sections[1..], i - 1, v);
    }
  }

  /** Each piece moves its values exactly as the point mapping does. */
  lemma EmitExact(sections: seq<MapperRange>, r: Range, v: int)
    requires ValidSections(sections)
    ensures InRange(Emit(sections, r).0.source, v) ==>
      MapPoint(sections, v) == v + Emit(sections, r).0.offset
    ensures Hit(r, v) == Hit(Emit(sections, r).0.source, v) + Count(Emit(sections, r).1, v)
  {
    var i := FirstHit(sections, r, 0);
    if i == |sections| {
      if InRange(r, v) {
        forall j | 0 <= j < i ensures !InSection(sections[j], v) {
          MissNoValue(sections[j], r, v);
        }
        MapPointFirst(sections, i, v);
      }
    } else {
      IntersectPartition(sections[i], r, v);
      if InRange(Overlap(sections[i], r), v) {
        forall j | 0 <= j < i ensures !InSection(sections[j], v) {
          MissNoValue(sections[j], r, v);
        }
        MapPointFirst(sections, i, v);
      }
    }
  }

  /**
   * Per-value exactness of the worklist: every piece shifts its values as
   * the point mapping does, and the pieces' sources cover each queued value
   * exactly as often as the queue does.
   */
  lemma ResolveExact(sections: seq<MapperRange>, queue: seq<Range>, v: int)
    requires ValidSections(sections)
    ensures Count(Sources(Resolve(sections, queue)), v) == Count(queue, v)
    ensures forall k :: 0 <= k < |Resolve(sections, queue)| && InRange(Resolve(sections, queue)[k].source, v) ==>
      MapPoint(sections, v) == v + Resolve(sections, queue)[k].offset
  {
    ResolveCount(sections, queue, v);
    ResolveOffsets(sections, queue, v);
  }

  /** The pieces' sources cover v as often as the queue does. */
  lemma {:induction false} ResolveCount(sections: seq<MapperRange>, queue: seq<Range>, v: int)
    requires ValidSections(sections)
    ensures Count(Sources(Resolve(sections, queue)), v) == Count(queue, v)
    decreases TotalWidth(queue), |queue|
  {
    if |queue| > 0 {
      var piece, rest := Emit(sections, queue[0]).0, Emit(sections, queue[0]).1;
      PopShrinks(sections, queue, queue[1..] + rest);
      ResolveCount(sections, queue[1..] + rest, v);
      EmitExact(sections, queue[0], v);
      CountAppend(queue[1..], rest, v);
      var tail := Resolve(sections, queue[1..] + rest);
      ResolveCons(sections, queue);
      assert Sources([piece] + tail) == [piece.source] + Sources(tail);
    }
  }

  /** Every piece whose source holds v shifts it as the point mapping does. */
  lemma {:induction false} ResolveOffsets(sections: seq<MapperRange>, queue: seq<Range>, v: int)
    requires ValidSections(sections)
    ensures forall k :: 0 <= k < |Resolve(sections, queue)| && InRange(Resolve(sections, queue)[k].source, v) ==>
      MapPoint(sections, v) == v + Resolve(sections, queue)[k].offset
    decreases TotalWidth(queue), |queue|
  {
    if |queue| > 0 {
      var piece, rest := Emit(sections, queue[0]).0, Emit(sections, queue[0]).1;
      PopShrinks(sections, queue, queue[1..] + rest);
      ResolveOffsets(sections, queue[1..] + rest, v);
      EmitExact(sections, queue[0], v);
      var tail := Resolve(sections, queue[1..] + rest);
      ResolveCons(sections, queue);
      forall k | 0 <= k < |[piece] + tail| && InRange(([piece] + tail)[k].source, v)
        ensures MapPoint(sections, v) == v + ([piece] + tail)[k].offset
      {
        if k > 0 {
          assert ([piece] + tail)[k] == tail[k - 1];
        }
      }
    }
  }

  /** Pieces of a well-formed queue are never empty. */
  lemma {:induction false} ResolveWellFormed(sections: seq<MapperRange>, queue: seq<Range>)
    requires ValidSections(sections)
    requires forall k :: 0 <= k < |queue| ==> queue[k].start <= queue[k].end
    ensures forall k :: 0 <= k < |Resolve(sections, queue)| ==>
      Resolve(sections, queue)[k].source.start <= Resolve(sections, queue)[k].source.end
    decreases TotalWidth(queue), |queue|
  {
    if |queue| > 0 {
      var (piece, rest) := Emit(sections, queue[0]);
      EmitShrinks(sections, queue[0]);
      TotalWidthAppend(queue[1..], rest);
      var i := FirstHit(sections, queue[0], 0);
      if i < |sections| {
        IntersectWidth(sections[i], queue[0]);
      }
      var next := queue[1..] + rest;
      assert forall k :: 0 <= k < |next| ==> next[k].start <= next[k].end by {
        forall k | 0 <= k < |next| ensures next[k].start <= next[k].end {
          if k >= |queue| - 1 {
            assert next[k] in rest;
          } else {
            assert next[k] == queue[k + 1];
          }
        }
      }
      ResolveWellFormed(sections, next);
      var tail := Resolve(sections, next);
      assert Resolve(sections, queue) == [piece] + tail;
      forall k | 0 <= k < |[piece] + tail|
        ensures ([piece] + tail)[k].source.start <= ([piece] + tail)[k].source.end
      {
        if k > 0 {
          assert ([piece] + tail)[k] == tail[k - 1];
        }
      }
    }
  }

  /** An empty mapper returns its input unchanged and in order. */
  lemma {:induction false} MapRangesEmptyMapper(values: seq<Range>)
    ensures MapRanges([], values) == values
    decreases |values|
  {
    if |values| > 0 {
      assert values[1..] + [] == values[1..];
      MapRangesEmptyMapper(values[1..]);
      assert Shift(values[0], 0) == values[0];
    }
  }

  /** Some range of the list holds v. */
  predicate Covered(rs: seq<Range>, v: int)
  {
    exists k :: 0 <= k < |rs| && InRange(rs[k], v)
  }

  lemma {:induction false} CountCovered(rs: seq<Range>, v: int)
    ensures Count(rs, v) > 0 <==> Covered(rs, v)
    decreases |rs|
  {
    if |rs| > 0 {
      CountCovered(rs[1..], v);
      if Covered(rs[1..], v) {
        var k :| 0 <= k < |rs[1..]| && InRange(rs[1..][k], v);
        assert InRange(rs[k + 1], v);
      }
      if Covered(rs, v) && !InRange(rs[0], v) {
        var k :| 0 <= k < |rs| && InRange(rs[k], v);
        assert InRange(rs[1..][k - 1], v);
      }
    }
  }

  /**
   * Set-level exactness of one mapper: a value is covered by the output
   * exactly when it is the point image of some value covered by the input.
   */
  lemma MapRangesCoverage(sections: seq<MapperRange>, values: seq<Range>, w: int)
    requires ValidSections(sections)
    ensures Covered(MapRanges(sections, values), w) <==>
      exists v :: Covered(values, v) && MapPoint(sections, v) == w
  {
    var pieces := Resolve(sections, values);
    EmittedLength(pieces);
    var out := Emitted(pieces);
    if Covered(out, w) {
      var k :| 0 <= k < |out| && InRange(out[k], w);
      var v := w - pieces[k].offset;
      assert InRange(Sources(pieces)[k], v);
      ResolveExact(sections, values, v);
      CountCovered(Sources(pieces), v);
      CountCovered(values, v);
      assert Covered(values, v) && MapPoint(sections, v) == w;
    }
    if exists v :: Covered(values, v) && MapPoint(sections, v) == w {
      var v :| Covered(values, v) && MapPoint(sections, v) == w;
      ResolveExact(sections, values, v);
      CountCovered(Sources(pieces), v);
      CountCovered(values, v);
      var k :| 0 <= k < |Sources(pieces)| && InRange(Sources(pieces)[k], v);
      assert InRange(out[k], w);
    }
  }

  /** A well-formed input gives a well-formed output. */
  lemma MapRangesWellFormed(sections: seq<MapperRange>, values: seq<Range>)
    requires ValidSections(sections)
    requires forall k :: 0 <= k < |values| ==> values[k].start <= values[k].end
    ensures forall k :: 0 <= k < |MapRanges(sections, values)| ==>
      MapRanges(sections, values)[k].start <= MapRanges(sections, values)[k].end
  {
    ResolveWellFormed(sections, values);
    EmittedLength(Resolve(sections, values));
  }

  // ---- the chain of mappers and the answer -------------------------------

  predicate ValidChain(chain: seq<seq<MapperRange>>)
  {
    forall k :: 0 <= k < |chain| ==> ValidSections(chain[k])
  }

  /** The ranges after every mapper of the chain, in chain order. */
  function ChainRanges(chain: seq<seq<MapperRange>>, values: seq<Range>): seq<Range>
    requires ValidChain(chain)
    decreases |chain|
  {
    if |chain| == 0 then values else ChainRanges(chain[1..], MapRanges(chain[0], values))
  }

  /** The location of one seed value. */
  function ChainPoint(chain: seq<seq<MapperRange>>, v: int): int
    decreases |chain|
  {
    if |chain| == 0 then v else ChainPoint(chain[1..], MapPoint(chain[0], v))
  }

  /** Running the chain on ranges covers exactly the chained images of the covered values. */
  lemma {:induction false} ChainCoverage(chain: seq<seq<MapperRange>>, values: seq<Range>, w: int)
    requires ValidChain(chain)
    ensures Covered(ChainRanges(chain, values), w) <==>
      exists v :: Covered(values, v) && ChainPoint(chain, v) == w
    decreases |chain|
  {
    if |chain| > 0 {
      var mid := MapRanges(chain[0], values);
      ChainCoverage(chain[1..], mid, w);
      if Covered(ChainRanges(chain, values), w) {
        var u :| Covered(mid, u) && ChainPoint(chain[1..], u) == w;
        MapRangesCoverage(chain[0], values, u);
        var v :| Covered(values, v) && MapPoint(chain[0], v) == u;
        assert ChainPoint(chain, v) == w;
      }
      if exists v :: Covered(values, v) && ChainPoint(chain, v) == w {
        var v :| Covered(values, v) && ChainPoint(chain, v) == w;
        MapRangesCoverage(chain[0], values, MapPoint(chain[0], v));
        assert Covered(mid, MapPoint(chain[0], v));
      }
    }
  }

  lemma {:induction false} ChainWellFormed(chain: seq<seq<MapperRange>>, values: seq<Range>)
    requires ValidChain(chain)
    requires forall k :: 0 <= k < |values| ==> values[k].start <= values[k].end
    ensures forall k :: 0 <= k < |ChainRanges(chain, values)| ==>
      ChainRanges(chain, values)[k].start <= ChainRanges(chain, values)[k].end
    decreases |chain|
  {
    if |chain| > 0 {
      MapRangesWellFormed(chain[0], values);
      ChainWellFormed(chain[1..], MapRanges(chain[0], values));
    }
  }

  /** The seed ranges of the almanac's "seeds:" line: pairs (start, count) become [start, start+count-1]. */
  function SeedRanges(numbers: seq<int>): (seeds: Option<seq<Range>>)
    ensures seeds.Some? <==> |numbers| % 2 == 0
    ensures seeds.Some? ==> |seeds.value| == |numbers| / 2
    ensures seeds.Some? ==> forall k :: 0 <= k < |seeds.value| ==>
      seeds.value[k] == Range(numbers[2 * k], numbers[2 * k] + numbers[2 * k + 1] - 1)
    decreases |numbers|
  {
    if |numbers| == 0 then Some([])
    else if |numbers| == 1 then None
    else
      match SeedRanges(numbers[2..])
      case None => None
      case Some(rest) => Some([Range(numbers[0], numbers[0] + numbers[1] - 1)] + rest)
  }

  /** A rule line "dest src size" becomes the section [src, src+size-1] moved by dest-src. */
  function Rule(dest: int, src: int, size: int): (s: MapperRange)
    ensures forall v :: InSection(s, v) <==> src <= v < src + size
    ensures forall v :: InSection(s, v) ==> v + s.offset == dest + (v - src)
  {
    MapperRange(src, src + size - 1, dest - src)
  }

  /** The smallest start among a non-empty list of ranges. */
  function MinStart(rs: seq<Range>): (m: int)
    requires |rs| > 0
    ensures exists k :: 0 <= k < |rs| && rs[k].start == m
    ensures forall k :: 0 <= k < |rs| ==> m <= rs[k].start
  {
    if |rs| == 1 then rs[0].start
    else
      var m := MinStart(rs[1..]);
      assert forall k :: 1 <= k < |rs| ==> rs[k] == rs[1..][k - 1];
      if rs[0].start <= m then rs[0].start else m
  }

  /** All chained outputs of the seeds, each seed range run through the chain on its own. */
  function Locations(seeds: seq<Range>, chain: seq<seq<MapperRange>>): seq<Range>
    requires ValidChain(chain)
  {
    if |seeds| == 0 then [] else ChainRanges(chain, [seeds[0]]) + Locations(seeds[1..], chain)
  }

  /**
   * The body of run: build the seed ranges, chain each through every
   * mapper and take the smallest start. None where the source fails: an
   * odd number of seed values, or no location at all (min of nothing).
   */
  method ClosestLocation(numbers: seq<int>, chain: seq<seq<MapperRange>>) returns (result: Option<int>)
    requires ValidChain(chain)
    ensures SeedRanges(numbers).None? ==> result.None?
    ensures SeedRanges(numbers).Some? ==>
      (result.Some? <==> |Locations(SeedRanges(numbers).value, chain)| > 0) &&
      (result.Some? ==> result.value == MinStart(Locations(SeedRanges(numbers).value, chain)))
  {
    var seedsOpt := SeedRanges(numbers);
    if seedsOpt.None? {
      return None;
    }
    var seeds := seedsOpt.value;
    var required: seq<Range> := [];
    var n := 0;
    while n < |seeds|
      invariant 0 <= n <= |seeds|
      invariant required + Locations(seeds[n..], chain) == Locations(seeds, chain)
    {
      var locations := [seeds[n]];
      var m := 0;
      while m < |chain|
        invariant 0 <= m <= |chain|
        invariant ChainRanges(chain[m..], locations) == ChainRanges(chain, [seeds[n]])
      {
        ChainStep(chain, m, locations);
        locations := MapValue(chain[m], locations);
        m := m + 1;
      }
      LocationsStep(seeds, n, chain);
      required := required + locations;
      n := n + 1;
    }
    assert seeds[n..] == [];
    assert required == Locations(seeds, chain);
    if |required| == 0 {
      return None;
    }
    result := Some(MinStart(required));
  }

  /** One more mapper of the chain. */
  lemma ChainStep(chain: seq<seq<MapperRange>>, m: nat, values: seq<Range>)
    requires ValidChain(chain) && m < |chain|
    ensures ValidSections(chain[m]) && ValidChain(chain[m..]) && ValidChain(chain[m + 1..])
    ensures ChainRanges(chain[m..], values) == ChainRanges(chain[m + 1..], MapRanges(chain[m], values))
  {
    assert chain[m..][1..] == chain[m + 1..];
  }

  /** One more seed range. */
  lemma LocationsStep(seeds: seq<Range>, n: nat, chain: seq<seq<MapperRange>>)
    requires ValidChain(chain) && n < |seeds|
    ensures Locations(seeds[n..], chain) == ChainRanges(chain, [seeds[n]]) + Locations(seeds[n + 1..], chain)
  {
    assert seeds[n..][1..] == seeds[n + 1..];
  }

  /** The seed ranges hold at least one value each. */
  predicate PositiveCounts(numbers: seq<int>)
  {
    forall k :: 0 <= k < |numbers| / 2 ==> numbers[2 * k + 1] >= 1
  }

  /** Some seed range holds v. */
  predicate IsSeed(seeds: seq<Range>, v: int)
  {
    Covered(seeds, v)
  }

  lemma {:induction false} LocationsCoverage(seeds: seq<Range>, chain: seq<seq<MapperRange>>, w: int)
    requires ValidChain(chain)
    ensures Covered(Locations(seeds, chain), w) <==> exists v :: IsSeed(seeds, v) && ChainPoint(chain, v) == w
    decreases |seeds|
  {
    if |seeds| > 0 {
      var head := ChainRanges(chain, [seeds[0]]);
      var tail := Locations(seeds[1..], chain);
      LocationsCoverage(seeds[1..], chain, w);
      ChainCoverage(chain, [seeds[0]], w);
      CoveredAppend(head, tail, w);
      forall v ensures IsSeed(seeds, v) <==> Covered([seeds[0]], v) || IsSeed(seeds[1..], v) {
        CoveredAppend([seeds[0]], seeds[1..], v);
        assert seeds == [seeds[0]] + seeds[1..];
      }
    }
  }

  lemma CoveredAppend(a: seq<Range>, b: seq<Range>, v: int)
    ensures Covered(a + b, v) <==> Covered(a, v) || Covered(b, v)
  {
    if Covered(a + b, v) {
      var k :| 0 <= k < |a + b| && InRange((a + b)[k], v);
      if k >= |a| {
        assert InRange(b[k - |a|], v);
      }
    }
    if Covered(a, v) {
      var k :| 0 <= k < |a| && InRange(a[k], v);
      assert InRange((a + b)[k], v);
    }
    if Covered(b, v) {
      var k :| 0 <= k < |b| && InRange(b[k], v);
      assert InRange((a + b)[k + |a|], v);
    }
  }

  lemma {:induction false} LocationsWellFormed(seeds: seq<Range>, chain: seq<seq<MapperRange>>)
    requires ValidChain(chain)
    requires forall k :: 0 <= k < |seeds| ==> seeds[k].start <= seeds[k].end
    ensures forall k :: 0 <= k < |Locations(seeds, chain)| ==>
      Locations(seeds, chain)[k].start <= Locations(seeds, chain)[k].end
    decreases |seeds|
  {
    if |seeds| > 0 {
      ChainWellFormed(chain, [seeds[0]]);
      LocationsWellFormed(seeds[1..], chain);
    }
  }

  /**
   * The answer of run is the lowest location any seed value reaches when
   * every seed count is at least 1: it is some seed value's location, and
   * no seed value reaches a lower one.
   */
  lemma ClosestLocationIsLowest(numbers: seq<int>, chain: seq<seq<MapperRange>>)
    requires ValidChain(chain)
    requires |numbers| % 2 == 0 && |numbers| > 0
    requires PositiveCounts(numbers)
    ensures SeedRanges(numbers).Some?
    ensures |Locations(SeedRanges(numbers).value, chain)| > 0
    ensures exists v :: (IsSeed(SeedRanges(numbers).value, v) &&
      ChainPoint(chain, v) == MinStart(Locations(SeedRanges(numbers).value, chain)))
    ensures forall v :: IsSeed(SeedRanges(numbers).value, v) ==>
      MinStart(Locations(SeedRanges(numbers).value, chain)) <= ChainPoint(chain, v)
  {
    var seeds := SeedRanges(numbers).value;
    assert forall k :: 0 <= k < |seeds| ==> seeds[k].start <= seeds[k].end by {
      forall k | 0 <= k < |seeds| ensures seeds[k].start <= seeds[k].end {
        assert seeds[k] == Range(numbers[2 * k], numbers[2 * k] + numbers[2 * k + 1] - 1);
      }
    }
    var locs := Locations(seeds, chain);
    LocationsWellFormed(seeds, chain);
    assert InRange(seeds[0], seeds[0].start);
    assert IsSeed(seeds, seeds[0].start);
    LocationsCoverage(seeds, chain, ChainPoint(chain, seeds[0].start));
    var m := MinStart(locs);
    var k :| 0 <= k < |locs| && locs[k].start == m;
    assert InRange(locs[k], m);
    LocationsCoverage(seeds, chain, m);
    forall v | IsSeed(seeds, v) ensures m <= ChainPoint(chain, v) {
      LocationsCoverage(seeds, chain, ChainPoint(chain, v));
      var j :| 0 <= j < |locs| && InRange(locs[j], ChainPoint(chain, v));
    }
  }
}
