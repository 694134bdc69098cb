/**
 * Counting the arrangements of damaged springs (day12/part1.py). A record
 * is a row of '#' (damaged), '.' (operational) and '?' (unknown); the
 * groupings give the sizes of the runs of damaged springs in order. Every
 * group gets a list of candidate offsets, and every choice of one
 * candidate per group that is_possible_layout accepts is one arrangement.
 */
module Day12Springs {
  import opened Common

  // ---- is_possible_layout --------------------------------------------------

  /** The first loop from pair k on: each group must end before the next one starts, with a gap. */
  function GapsOk(groupings: seq<nat>, offsets: seq<int>, k: nat): bool
    decreases |offsets| - k
  {
    if k + 1 >= Min(|groupings|, |offsets|) then true
    else if groupings[k] + offsets[k] >= offsets[k + 1] then false
    else GapsOk(groupings, offsets, k + 1)
  }

  /** The inner loop from group k on: is position inside one of the groups? */
  function InGroup(groupings: seq<nat>, offsets: seq<int>, position: int, k: nat): bool
    decreases |offsets| - k
  {
    if k >= Min(|groupings|, |offsets|) then false
    else if offsets[k] <= position < offsets[k] + groupings[k] then true
    else InGroup(groupings, offsets, position, k + 1)
  }

  /** The second loop from position on: every known cell is damaged exactly when a group covers it. */
  function CellsOk(records: string, groupings: seq<nat>, offsets: seq<int>, position: nat): bool
    requires position <= |records|
    decreases |records| - position
  {
    if position == |records| then true
    else if records[position] == '?' then CellsOk(records, groupings, offsets, position + 1)
    else if (records[position] == '#') != InGroup(groupings, offsets, position, 0) then false
    else CellsOk(records, groupings, offsets, position + 1)
  }

  function IsPossibleLayout(records: string, groupings: seq<nat>, offsets: seq<int>): bool
  {
    GapsOk(groupings, offsets, 0) && CellsOk(records, groupings, offsets, 0)
  }

  /** is_possible_layout as written: the gap loop, then the cell loop with its inner group loop. */
  method CheckLayout(records: string, groupings: seq<nat>, offsets: seq<int>) returns (possible: bool)
    ensures possible == IsPossibleLayout(records, groupings, offsets)
  {
    var n := Min(|groupings|, |offsets|);
    var k := 0;
    while k + 1 < n
      invariant 0 <= k
      invariant GapsOk(groupings, offsets, 0) == GapsOk(groupings, offsets, k)
    {
      if groupings[k] + offsets[k] >= offsets[k + 1] {
        return false;
      }
      k := k + 1;
    }
    var position := 0;
    while position < |records|
      invariant 0 <= position <= |records|
      invariant CellsOk(records, groupings, offsets, 0) == CellsOk(records, groupings, offsets, position)
    {
      if records[position] != '?' {
        var isGroup := false;
        var j := 0;
        while j < n
          invariant 0 <= j <= n
          invariant InGroup(groupings, offsets, position, 0) == (isGroup || InGroup(groupings, offsets, position, j))
        {
          if offsets[j] <= position < offsets[j] + groupings[j] {
            isGroup := true;
            break;
          }
          j := j + 1;
        }
        if (records[position] == '#') != isGroup {
          return false;
        }
      }
      position := position + 1;
    }
    return true;
  }

  // ---- what is_possible_layout means ---------------------------------------

  /** Group k (of those zip pairs up) ends strictly before group k + 1 begins. */
  predicate GapAfter(groupings: seq<nat>, offsets: seq<int>, k: int)
    requires 0 <= k && k + 1 < Min(|groupings|, |offsets|)
  {
    groupings[k] + offsets[k] < offsets[k + 1]
  }

  predicate Separated(groupings: seq<nat>, offsets: seq<int>)
  {
    forall k :: 0 <= k && k + 1 < Min(|groupings|, |offsets|) ==> GapAfter(groupings, offsets, k)
  }

  /** Group k covers position. */
  predicate CoversAt(groupings: seq<nat>, offsets: seq<int>, position: int, k: int)
    requires 0 <= k < Min(|groupings|, |offsets|)
  {
    offsets[k] <= position < offsets[k] + groupings[k]
  }

  predicate Covered(groupings: seq<nat>, offsets: seq<int>, position: int)
  {
    exists k :: 0 <= k < Min(|groupings|, |offsets|) && CoversAt(groupings, offsets, position, k)
  }

  /** Every cell that is not '?' is '#' exactly when a group covers it. */
  predicate Agrees(records: string, groupings: seq<nat>, offsets: seq<int>)
  {
    forall p :: 0 <= p < |records| && records[p] != '?' ==>
      (records[p] == '#' <==> Covered(groupings, offsets, p))
  }

  lemma {:induction false} GapsOkMeans(groupings: seq<nat>, offsets: seq<int>, k: nat)
    ensures GapsOk(groupings, offsets, k) <==>
      forall j :: k <= j && j + 1 < Min(|groupings|, |offsets|) ==> GapAfter(groupings, offsets, j)
    decreases |offsets| - k
  {
    if k + 1 < Min(|groupings|, |offsets|) {
      GapsOkMeans(groupings, offsets, k + 1);
      if !GapAfter(groupings, offsets, k) {
        assert !GapsOk(groupings, offsets, k);
      }
    }
  }

  lemma {:induction false} InGroupMeans(groupings: seq<nat>, offsets: seq<int>, position: int, k: nat)
    ensures InGroup(groupings, offsets, position, k) <==>
      exists j :: k <= j < Min(|groupings|, |offsets|) && CoversAt(groupings, offsets, position, j)
    decreases |offsets| - k
  {
    if k < Min(|groupings|, |offsets|) {
      InGroupMeans(groupings, offsets, position, k + 1);
      if CoversAt(groupings, offsets, position, k) {
        assert InGroup(groupings, offsets, position, k);
      }
    }
  }

  lemma {:induction false} CellsOkMeans(records: string, groupings: seq<nat>, offsets: seq<int>, position: nat)
    requires position <= |records|
    ensures CellsOk(records, groupings, offsets, position) <==>
      forall p :: position <= p < |records| && records[p] != '?' ==>
        (records[p] == '#' <==> Covered(groupings, offsets, p))
    decreases |records| - position
  {
    if position < |records| {
      CellsOkMeans(records, groupings, offsets, position + 1);
      InGroupMeans(groupings, offsets, position, 0);
    }
  }

  /**
   * A layout is accepted exactly when the groups are separated by at least
   * one cell and every '#' and '.' of the record agrees with the groups;
   * the '?' cells are free.
   */
  lemma IsPossibleLayoutMeans(records: string, groupings: seq<nat>, offsets: seq<int>)
    ensures IsPossibleLayout(records, groupings, offsets) <==>
      Separated(groupings, offsets) && Agrees(records, groupings, offsets)
  {
    GapsOkMeans(groupings, offsets, 0);
    CellsOkMeans(records, groupings, offsets, 0);
  }

  /** Turning a known cell into '?' never turns an accepted layout down. */
  lemma UnknownNeverRejects(records: string, groupings: seq<nat>, offsets: seq<int>, position: nat)
    requires position < |records|
    requires IsPossibleLayout(records, groupings, offsets)
    ensures IsPossibleLayout(records[position := '?'], groupings, offsets)
  {
    IsPossibleLayoutMeans(records, groupings, offsets);
    IsPossibleLayoutMeans(records[position := '?'], groupings, offsets);
  }

  // ---- candidate offsets ----------------------------------------------------

  /** The first offset group i can take: the groups before it, each with the gap after it. */
  function Start(groupings: seq<nat>, i: nat): int
    requires i <= |groupings|
  {
    Sum(groupings[..i]) + i
  }

  /** The last offset group i can take: room is left for it, the groups after it and their gaps. */
  function End(records: string, groupings: seq<nat>, i: nat): int
    requires i <= |groupings|
  {
    |records| - Sum(groupings[i..]) - |groupings| + i + 1
  }

  /** The tests of the offset loop: no '#' just before or just after the window, no '.' inside it. */
  predicate WindowOk(records: string, size: nat, offset: int)
    requires 0 <= offset && offset + size <= |records|
  {
    !(offset > 0 && records[offset - 1] == '#') &&
    !(offset + size < |records| && records[offset + size] == '#') &&
    '.' !in records[offset..offset + size]
  }

  /** The offsets from..end that pass the window tests, ascending. */
  function Candidates(records: string, size: nat, from: int, end: int): (positions: seq<int>)
    requires 0 <= from && (from <= end ==> end + size <= |records|)
    ensures forall k :: 0 <= k < |positions| ==> from <= positions[k] <= end
    decreases end - from + 1
  {
    if from > end then []
    else (if WindowOk(records, size, from) then [from] else []) + Candidates(records, size, from + 1, end)
  }

  /** The candidate list holds, in ascending order, exactly the offsets in range that pass the tests. */
  lemma {:induction false} CandidatesMeans(records: string, size: nat, from: int, end: int)
    requires 0 <= from && (from <= end ==> end + size <= |records|)
    ensures forall x :: x in Candidates(records, size, from, end) <==>
      from <= x <= end && WindowOk(records, size, x)
    ensures forall j, k :: 0 <= j < k < |Candidates(records, size, from, end)| ==>
      Candidates(records, size, from, end)[j] < Candidates(records, size, from, end)[k]
    decreases end - from + 1
  {
    if from <= end {
      CandidatesMeans(records, size, from + 1, end);
    }
  }

  lemma SumSplit(groupings: seq<nat>, i: nat)
    requires i < |groupings|
    ensures Sum(groupings[i..]) == groupings[i] + Sum(groupings[i + 1..])
    ensures Sum(groupings[i + 1..]) >= 0
  {
    assert groupings[i..] == [groupings[i]] + groupings[i + 1..];
    SumAppend([groupings[i]], groupings[i + 1..]);
    SumSingleton(groupings[i]);
    SumNonNegative(groupings[i + 1..]);
  }

  /** Every index the offset loop touches is inside the record. */
  lemma RangeInBounds(records: string, groupings: seq<nat>, i: nat)
    requires i < |groupings|
    ensures Start(groupings, i) >= 0
    ensures End(records, groupings, i) + groupings[i] <= |records|
  {
    SumNonNegative(groupings[..i]);
    SumSplit(groupings, i);
  }

  /** Candidates for group i. */
  function GroupCandidates(records: string, groupings: seq<nat>, i: nat): seq<int>
    requires i < |groupings|
  {
    RangeInBounds(records, groupings, i);
    Candidates(records, groupings[i], Start(groupings, i), End(records, groupings, i))
  }

  /** group_positions: the candidate list of every group, in group order. */
  function CandidateLists(records: string, groupings: seq<nat>): (lists: seq<seq<int>>)
    ensures |lists| == |groupings|
    ensures forall i :: 0 <= i < |groupings| ==> lists[i] == GroupCandidates(records, groupings, i)
  {
    seq(|groupings|, i requires 0 <= i < |groupings| => GroupCandidates(records, groupings, i))
  }

  /** The offset loop for one group. */
  method OffsetCandidates(records: string, size: nat, start: int, end: int) returns (positions: seq<int>)
    requires 0 <= start && (start <= end ==> end + size <= |records|)
    ensures positions == Candidates(records, size, start, end)
  {
    positions := [];
    var offset := start;
    while offset <= end
      invariant start <= offset && (offset <= end + 1 || end < start)
      invariant positions + Candidates(records, size, offset, end) == Candidates(records, size, start, end)
    {
      if offset > 0 && records[offset - 1] == '#' {
      } else if offset + size < |records| && records[offset + size] == '#' {
      } else if '.' in records[offset..offset + size] {
      } else {
        positions := positions + [offset];
      }
      assert positions + Candidates(records, size, offset + 1, end) == Candidates(records, size, start, end);
      offset := offset + 1;
    }
  }

  /** The loop of run that builds group_positions. */
  method GroupPositions(records: string, groupings: seq<nat>) returns (groupPositions: seq<seq<int>>)
    ensures groupPositions == CandidateLists(records, groupings)
  {
    groupPositions := [];
    var i := 0;
    while i < |groupings|
      invariant 0 <= i <= |groupings|
      invariant |groupPositions| == i
      invariant forall j :: 0 <= j < i ==> groupPositions[j] == GroupCandidates(records, groupings, j)
    {
      var size := groupings[i];
      var start := Sum(groupings[..i]) + i;
      var end := |records| - Sum(groupings[i..]) - |groupings| + i + 1;
      RangeInBounds(records, groupings, i);
      var positions := OffsetCandidates(records, size, start, end);
      groupPositions := groupPositions + [positions];
      i := i + 1;
    }
  }

  // ---- itertools.product -------------------------------------------------

  /** x put in front of every tuple. */
  function Prepend(x: int, tuples: seq<seq<int>>): (r: seq<seq<int>>)
    ensures |r| == |tuples|
    ensures forall k :: 0 <= k < |tuples| ==> r[k] == [x] + tuples[k]
  {
    if |tuples| == 0 then [] else [[x] + tuples[0]] + Prepend(x, tuples[1..])
  }

  /** Every first element of xs in front of every tuple, first elements outermost. */
  function Extend(xs: seq<int>, tuples: seq<seq<int>>): seq<seq<int>>
  {
    if |xs| == 0 then [] else Prepend(xs[0], tuples) + Extend(xs[1..], tuples)
  }

  /** itertools.product(*lists): every tuple with one element from each list, in lexicographic order. */
  function Product(lists: seq<seq<int>>): seq<seq<int>>
  {
    if |lists| == 0 then [[]] else Extend(lists[0], Product(lists[1..]))
  }

  /** A tuple picks, for every list, one of its elements. */
  predicate Picks(t: seq<int>, lists: seq<seq<int>>)
  {
    |t| == |lists| && forall k :: 0 <= k < |t| ==> t[k] in lists[k]
  }

  lemma {:induction false} ExtendMembers(xs: seq<int>, tuples: seq<seq<int>>, t: seq<int>)
    ensures t in Extend(xs, tuples) <==> |t| > 0 && t[0] in xs && t[1..] in tuples
    decreases |xs|
  {
    if |xs| > 0 {
      ExtendMembers(xs[1..], tuples, t);
      PrependMembers(xs[0], tuples, t);
      assert Extend(xs, tuples) == Prepend(xs[0], tuples) + Extend(xs[1..], tuples);
      assert xs == [xs[0]] + xs[1..];
    }
  }

  lemma PrependMembers(x: int, tuples: seq<seq<int>>, t: seq<int>)
    ensures t in Prepend(x, tuples) <==> |t| > 0 && t[0] == x && t[1..] in tuples
  {
    if |t| > 0 && t[0] == x && t[1..] in tuples {
      var k :| 0 <= k < |tuples| && tuples[k] == t[1..];
      assert Prepend(x, tuples)[k] == t;
    }
  }

  /** The product holds exactly the tuples that pick one element of every list. */
  lemma {:induction false} ProductMembers(lists: seq<seq<int>>, t: seq<int>)
    ensures t in Product(lists) <==> Picks(t, lists)
    decreases |lists|
  {
    if |lists| == 0 {
      assert t in Product(lists) <==> t == [];
    } else {
      ExtendMembers(lists[0], Product(lists[1..]), t);
      if |t| > 0 {
        ProductMembers(lists[1..], t[1..]);
        if Picks(t, lists) {
          assert Picks(t[1..], lists[1..]) by {
            forall k | 0 <= k < |t[1..]| ensures t[1..][k] in lists[1..][k] {
              assert t[k + 1] in lists[k + 1];
            }
          }
        }
        if Picks(t[1..], lists[1..]) && t[0] in lists[0] {
          forall k | 0 <= k < |t| ensures t[k] in lists[k] {
            if k > 0 {
              assert t[1..][k - 1] in lists[1..][k - 1];
            }
          }
        }
      }
    }
  }

  /** No list repeats an element. */
  predicate AllDistinct(xs: seq<int>)
  {
    forall j, k :: 0 <= j < k < |xs| ==> xs[j] != xs[k]
  }

  predicate TuplesDistinct(ts: seq<seq<int>>)
  {
    forall j, k :: 0 <= j < k < |ts| ==> ts[j] != ts[k]
  }

  lemma {:induction false} ExtendDistinct(xs: seq<int>, tuples: seq<seq<int>>)
    requires AllDistinct(xs) && TuplesDistinct(tuples)
    ensures TuplesDistinct(Extend(xs, tuples))
    decreases |xs|
  {
    if |xs| > 0 {
      assert AllDistinct(xs[1..]) by {
        forall j, k | 0 <= j < k < |xs[1..]| ensures xs[1..][j] != xs[1..][k] {
          assert xs[1..][j] == xs[j + 1] && xs[1..][k] == xs[k + 1];
        }
      }
      ExtendDistinct(xs[1..], tuples);
      var front := Prepend(xs[0], tuples);
      var back := Extend(xs[1..], tuples);
      var r := front + back;
      forall j, k | 0 <= j < k < |r| ensures r[j] != r[k] {
        if j < |front| && k < |front| {
          assert r[j][1..] == tuples[j] && r[k][1..] == tuples[k];
        } else if j < |front| {
          assert r[k] in back;
          ExtendMembers(xs[1..], tuples, r[k]);
          assert r[k][0] in xs[1..];
          assert r[j][0] == xs[0];
        } else {
          assert r[j] == back[j - |front|] && r[k] == back[k - |front|];
        }
      }
    }
  }

  /** Lists without repeats give a product without repeated tuples. */
  lemma {:induction false} ProductDistinct(lists: seq<seq<int>>)
    requires forall k :: 0 <= k < |lists| ==> AllDistinct(lists[k])
    ensures TuplesDistinct(Product(lists))
    decreases |lists|
  {
    if |lists| > 0 {
      ProductDistinct(lists[1..]);
      ExtendDistinct(lists[0], Product(lists[1..]));
    }
  }

  // ---- the arrangement count ---------------------------------------------------

  /** How many of the tuples is_possible_layout accepts. */
  function Accepted(records: string, groupings: seq<nat>, tuples: seq<seq<int>>): (n: nat)
    ensures n <= |tuples|
  {
    if |tuples| == 0 then 0
    else
      var last := if IsPossibleLayout(records, groupings, tuples[|tuples| - 1]) then 1 else 0;
      Accepted(records, groupings, tuples[..|tuples| - 1]) + last
  }

  /** The arrangements of one record: accepted tuples of the candidates' product. */
  function Arrangements(records: string, groupings: seq<nat>): nat
  {
    Accepted(records, groupings, Product(CandidateLists(records, groupings)))
  }

  /** The body of run for one line: candidates per group, then every tuple of their product checked by is_possible_layout. */
  method CountArrangements(records: string, groupings: seq<nat>) returns (recordArrangements: nat)
    ensures recordArrangements == Arrangements(records, groupings)
  {
    var groupPositions := GroupPositions(records, groupings);
    var tuples := Product(groupPositions);
    recordArrangements := 0;
    var n := 0;
    while n < |tuples|
      invariant 0 <= n <= |tuples|
      invariant recordArrangements == Accepted(records, groupings, tuples[..n])
    {
      assert tuples[..n + 1][..n] == tuples[..n];
      var possible := CheckLayout(records, groupings, tuples[n]);
      if possible {
        recordArrangements := recordArrangements + 1;
      }
      n := n + 1;
    }
    assert tuples[..n] == tuples;
  }

  /**
   * Every tuple counted is a genuine arrangement: one candidate per group,
   * every group inside the record, each followed by a gap before the next,
   * every '#' covered and no '.' covered. Each such tuple occurs once in
   * the product.
   */
  lemma CountedAreArrangements(records: string, groupings: seq<nat>, t: seq<int>)
    requires t in Product(CandidateLists(records, groupings))
    requires IsPossibleLayout(records, groupings, t)
    ensures |t| == |groupings|
    ensures forall k :: 0 <= k < |t| ==> 0 <= t[k] && t[k] + groupings[k] <= |records|
    ensures Separated(groupings, t)
    ensures forall p :: 0 <= p < |records| && records[p] == '#' ==> Covered(groupings, t, p)
    ensures forall p :: 0 <= p < |records| && records[p] == '.' ==> !Covered(groupings, t, p)
    ensures TuplesDistinct(Product(CandidateLists(records, groupings)))
  {
    var lists := CandidateLists(records, groupings);
    ProductMembers(lists, t);
    IsPossibleLayoutMeans(records, groupings, t);
    forall k | 0 <= k < |t| ensures 0 <= t[k] && t[k] + groupings[k] <= |records| {
      RangeInBounds(records, groupings, k);
      assert t[k] in GroupCandidates(records, groupings, k);
    }
    forall k | 0 <= k < |lists| ensures AllDistinct(lists[k]) {
      RangeInBounds(records, groupings, k);
      CandidatesMeans(records, groupings[k], Start(groupings, k), End(records, groupings, k));
    }
    ProductDistinct(lists);
  }

  /** The answer: the arrangements of every line added up. */
  function TotalArrangements(rows: seq<(string, seq<nat>)>): int
  {
    if |rows| == 0 then 0 else TotalArrangements(rows[..|rows| - 1]) + Arrangements(rows[|rows| - 1].0, rows[|rows| - 1].1)
  }

  method Run(rows: seq<(string, seq<nat>)>) returns (totalArrangements: int)
    ensures totalArrangements == TotalArrangements(rows)
    ensures totalArrangements >= 0
  {
    totalArrangements := 0;
    var n := 0;
    while n < |rows|
      invariant 0 <= n <= |rows|
      invariant totalArrangements == TotalArrangements(rows[..n])
      invariant totalArrangements >= 0
    {
      assert rows[..n + 1][..n] == rows[..n];
      var count := CountArrangements(rows[n].0, rows[n].1);
      totalArrangements := totalArrangements + count;
      n := n + 1;
    }
    assert rows[..n] == rows;
  }
}
