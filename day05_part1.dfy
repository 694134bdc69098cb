/**
 * Single seeds pushed through the almanac's chain of mappers
 * (day05/part1.py). A section is the rule line "dest src size". The
 * membership test is modelled as written, which also admits src + size;
 * the evidently intended exclusive test is defined beside it, with an
 * input on which the two differ and a proof that the intended one agrees
 * with the sections of part 2.
 */
module Day05Points {
  import opened Common
  import Day05Ranges

  datatype MapperRange = MapperRange(dest: int, src: int, size: int)

  /** MapperRange.__contains__ as written: inclusive of src + size. */
  predicate Contains(r: MapperRange, v: int)
  {
    v >= r.src && v <= r.src + r.size
  }

  /** MapperRange.__getitem__. */
  function Get(r: MapperRange, index: int): (w: int)
    ensures w - r.dest == index - r.src
  {
    index - r.src + r.dest
  }

  /** Mapper.__getitem__: the first section holding v decides; no section means v itself. */
  function Lookup(sections: seq<MapperRange>, v: int): (w: int)
    ensures (forall i :: 0 <= i < |sections| ==> !Contains(sections[i], v)) ==> w == v
    ensures forall i :: (0 <= i < |sections| && Contains(sections[i], v) &&
      (forall j :: 0 <= j < i ==> !Contains(sections[j], v))) ==> w == Get(sections[i], v)
  {
    if |sections| == 0 then v
    else if Contains(sections[0], v) then Get(sections[0], v)
    else
      assert forall i :: 1 <= i < |sections| ==> sections[i] == sections[1..][i - 1];
      Lookup(sections[1..], v)
  }

  /** An empty mapper is the identity. */
  lemma LookupEmpty(v: int)
    ensures Lookup([], v) == v
  {
  }

  /** The location of a seed: the mappers applied one after the other, in chain order. */
  function Location(chain: seq<seq<MapperRange>>, seed: int): int
    decreases |chain|
  {
    if |chain| == 0 then seed else Location(chain[1..], Lookup(chain[0], seed))
  }

  /** The inner loop of run: location is looked up in every mapper of the chain in turn. */
  method SeedLocation(chain: seq<seq<MapperRange>>, seed: int) returns (location: int)
    ensures location == Location(chain, seed)
  {
    location := seed;
    var m := 0;
    while m < |chain|
      invariant 0 <= m <= |chain|
      invariant Location(chain[m..], location) == Location(chain, seed)
    {
      assert chain[m..][1..] == chain[m + 1..];
      location := Lookup(chain[m], location);
      m := m + 1;
    }
    assert chain[m..] == [];
  }

  /** The smallest element of a non-empty list. */
  function Min(s: seq<int>): (m: int)
    requires |s| > 0
    ensures exists k :: 0 <= k < |s| && s[k] == m
    ensures forall k :: 0 <= k < |s| ==> m <= s[k]
  {
    if |s| == 1 then s[0]
    else
      var rest := Min(s[1..]);
      assert forall k :: 1 <= k < |s| ==> s[k] == s[1..][k - 1];
      if s[0] <= rest then s[0] else rest
  }

  /**
   * The body of run after parsing: the smallest location over all seeds;
   * None when there is no seed (min of nothing fails).
   */
  method ClosestLocation(seeds: seq<int>, chain: seq<seq<MapperRange>>) returns (result: Option<int>)
    ensures result.None? <==> |seeds| == 0
    ensures result.Some? ==> exists k :: 0 <= k < |seeds| && result.value == Location(chain, seeds[k])
    ensures result.Some? ==> forall k :: 0 <= k < |seeds| ==> result.value <= Location(chain, seeds[k])
  {
    var locations: seq<int> := [];
    var n := 0;
    while n < |seeds|
      invariant 0 <= n <= |seeds|
      invariant |locations| == n
      invariant forall k :: 0 <= k < n ==> locations[k] == Location(chain, seeds[k])
    {
      var location := SeedLocation(chain, seeds[n]);
      locations := locations + [location];
      n := n + 1;
    }
    if |locations| == 0 {
      return None;
    }
    MinIsClosest(seeds, chain, locations);
    result := Some(Min(locations));
  }

  /** The smallest of the seeds' locations is the location of some seed and at most every other. */
  lemma MinIsClosest(seeds: seq<int>, chain: seq<seq<MapperRange>>, locations: seq<int>)
    requires |locations| == |seeds| > 0
    requires forall k :: 0 <= k < |seeds| ==> locations[k] == Location(chain, seeds[k])
    ensures exists k :: 0 <= k < |seeds| && Min(locations) == Location(chain, seeds[k])
    ensures forall k :: 0 <= k < |seeds| ==> Min(locations) <= Location(chain, seeds[k])
  {
    var k :| 0 <= k < |locations| && locations[k] == Min(locations);
    assert Min(locations) == Location(chain, seeds[k]);
  }

  // ---- the inclusive upper bound -----------------------------------------

  /** The section the rule line evidently describes: src <= v < src + size. */
  predicate ContainsIntended(r: MapperRange, v: int)
  {
    r.src <= v < r.src + r.size
  }

  /** Mapper.__getitem__ with the intended, exclusive upper bound. */
  function LookupIntended(sections: seq<MapperRange>, v: int): (w: int)
    ensures (forall i :: 0 <= i < |sections| ==> !ContainsIntended(sections[i], v)) ==> w == v
    ensures forall i :: (0 <= i < |sections| && ContainsIntended(sections[i], v) &&
      (forall j :: 0 <= j < i ==> !ContainsIntended(sections[j], v))) ==> w == Get(sections[i], v)
  {
    if |sections| == 0 then v
    else if ContainsIntended(sections[0], v) then Get(sections[0], v)
    else
      assert forall i :: 1 <= i < |sections| ==> sections[i] == sections[1..][i - 1];
      LookupIntended(sections[1..], v)
  }

  /** The sections of part 2 built from the same rule lines. */
  function AsSections(sections: seq<MapperRange>): (rs: seq<Day05Ranges.MapperRange>)
    ensures |rs| == |sections|
    ensures forall k :: 0 <= k < |sections| ==>
      rs[k] == Day05Ranges.Rule(sections[k].dest, sections[k].src, sections[k].size)
  {
    if |sections| == 0 then []
    else [Day05Ranges.Rule(sections[0].dest, sections[0].src, sections[0].size)] + AsSections(sections[1..])
  }

  /** With the exclusive bound, part 1's lookup is exactly part 2's point mapping of the same rules. */
  lemma {:induction false} LookupIntendedAgrees(sections: seq<MapperRange>, v: int)
    ensures LookupIntended(sections, v) == Day05Ranges.MapPoint(AsSections(sections), v)
    decreases |sections|
  {
    if |sections| > 0 {
      var rs := AsSections(sections);
      assert rs[1..] == AsSections(sections[1..]);
      var s := sections[0];
      assert Day05Ranges.InSection(rs[0], v) <==> ContainsIntended(s, v);
      LookupIntendedAgrees(sections[1..], v);
    }
  }

  /**
   * The value src + size lies outside the rule line's source range
   * [src, src + size - 1], yet the code as written maps it: with the rule
   * "50 98 2", seed 100 maps to 52 instead of staying 100.
   */
  lemma InclusiveBoundMapsOnePastTheEnd()
    ensures Contains(MapperRange(50, 98, 2), 100)
    ensures !ContainsIntended(MapperRange(50, 98, 2), 100)
    ensures Lookup([MapperRange(50, 98, 2)], 100) == 52
    ensures LookupIntended([MapperRange(50, 98, 2)], 100) == 100
  {
  }

  /** The two bounds disagree on the single value src + size. */
  lemma BoundsDifferOnlyAtTheEnd(r: MapperRange, v: int)
    requires r.size >= 0
    ensures Contains(r, v) <==> ContainsIntended(r, v) || v == r.src + r.size
  {
  }

  /** A seed's location with the intended bound; mappers without sections leave it where it is. */
  function LocationIntended(chain: seq<seq<MapperRange>>, seed: int): (location: int)
    ensures (forall k :: 0 <= k < |chain| ==> |chain[k]| == 0) ==> location == seed
    decreases |chain|
  {
    if |chain| == 0 then seed
    else
      assert forall k :: 1 <= k < |chain| ==> chain[1..][k - 1] == chain[k];
      LocationIntended(chain[1..], LookupIntended(chain[0], seed))
  }

  /** The inner loop with the intended bound: the mapper appended last is applied last. */
  lemma {:induction false} LocationIntendedAppend(chain: seq<seq<MapperRange>>, mapper: seq<MapperRange>, seed: int)
    ensures LocationIntended(chain + [mapper], seed) == LookupIntended(mapper, LocationIntended(chain, seed))
    decreases |chain|
  {
    if |chain| == 0 {
      assert chain + [mapper] == [mapper];
      assert [mapper][1..] == [];
    } else {
      assert (chain + [mapper])[1..] == chain[1..] + [mapper];
      LocationIntendedAppend(chain[1..], mapper, LookupIntended(chain[0], seed));
    }
  }

  function ChainAsSections(chain: seq<seq<MapperRange>>): (cs: seq<seq<Day05Ranges.MapperRange>>)
    ensures |cs| == |chain|
    ensures forall k :: 0 <= k < |chain| ==> cs[k] == AsSections(chain[k])
  {
    if |chain| == 0 then [] else [AsSections(chain[0])] + ChainAsSections(chain[1..])
  }

  /** With the intended bound, part 1's location is part 2's chained point mapping of the same almanac. */
  lemma {:induction false} LocationIntendedAgrees(chain: seq<seq<MapperRange>>, seed: int)
    ensures LocationIntended(chain, seed) == Day05Ranges.ChainPoint(ChainAsSections(chain), seed)
    decreases |chain|
  {
    if |chain| > 0 {
      var cs := ChainAsSections(chain);
      assert cs[1..] == ChainAsSections(chain[1..]);
      LookupIntendedAgrees(chain[0], seed);
      LocationIntendedAgrees(chain[1..], LookupIntended(chain[0], seed));
    }
  }
}
