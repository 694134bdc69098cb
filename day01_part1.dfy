/**
 * Trebuchet calibration (day01/part1.py). The value of a line is ten times
 * its first digit plus its last digit; lines without a digit are skipped
 * and the answer is the sum of the values.
 */
module Day01Trebuchet {
  import opened Common

  // ---------------------------------------------------------------------
  // First and last hit, shared with the word-reading variant
  // ---------------------------------------------------------------------

  /** The values found, one per index that has one, in index order. */
  function Hits(hits: seq<Option<nat>>): seq<nat>
  {
    if |hits| == 0 then []
    else Hits(hits[..|hits| - 1]) + (if hits[|hits| - 1].Some? then [hits[|hits| - 1].value] else [])
  }

  /** The line value: 10 * first + last, None when nothing was found. */
  function Calibration(hits: seq<Option<nat>>): Option<nat>
  {
    var found := Hits(hits);
    if |found| == 0 then None else Some(found[0] * 10 + found[|found| - 1])
  }

  /** Nothing found exactly when no index has a value. */
  lemma {:induction false} HitsEmpty(hits: seq<Option<nat>>)
    ensures |Hits(hits)| == 0 <==> forall k :: 0 <= k < |hits| ==> hits[k].None?
  {
    if |hits| > 0 {
      HitsEmpty(hits[..|hits| - 1]);
      assert forall k :: 0 <= k < |hits| - 1 ==> hits[..|hits| - 1][k] == hits[k];
    }
  }

  /** The first value found is the one at the earliest index i having one. */
  lemma {:induction false} HitsFirst(hits: seq<Option<nat>>) returns (i: nat)
    requires |Hits(hits)| > 0
    ensures i < |hits| && hits[i] == Some(Hits(hits)[0])
    ensures forall k :: 0 <= k < i ==> hits[k].None?
  {
    var prefix := hits[..|hits| - 1];
    HitsEmpty(prefix);
    if |Hits(prefix)| > 0 {
      i := HitsFirst(prefix);
      assert hits[i] == prefix[i];
      assert forall k :: 0 <= k < i ==> hits[k] == prefix[k];
    } else {
      i := |hits| - 1;
      assert forall k :: 0 <= k < |prefix| ==> hits[k] == prefix[k];
    }
  }

  /** The last value found is the one at the latest index j having one. */
  lemma {:induction false} HitsLast(hits: seq<Option<nat>>) returns (j: nat)
    requires |Hits(hits)| > 0
    ensures j < |hits| && hits[j] == Some(Hits(hits)[|Hits(hits)| - 1])
    ensures forall k :: j < k < |hits| ==> hits[k].None?
  {
    var prefix := hits[..|hits| - 1];
    if hits[|hits| - 1].None? {
      j := HitsLast(prefix);
      assert hits[j] == prefix[j];
      assert forall k :: j < k < |prefix| ==> hits[k] == prefix[k];
    } else {
      j := |hits| - 1;
    }
  }

  /** first and last hold the first and last value found among the first i indices. */
  predicate FirstLast(hits: seq<Option<nat>>, i: nat, first: Option<nat>, last: nat)
    requires i <= |hits|
  {
    var found := Hits(hits[..i]);
    first == (if |found| == 0 then None else Some(found[0])) &&
    (first.Some? ==> last == found[|found| - 1])
  }

  /** Setting first once and last every time a value is found keeps FirstLast. */
  lemma FirstLastStep(hits: seq<Option<nat>>, i: nat, first: Option<nat>, last: nat)
    requires i < |hits| && FirstLast(hits, i, first, last)
    ensures hits[i].Some? ==>
      FirstLast(hits, i + 1, if first.None? then hits[i] else first, hits[i].value)
    ensures hits[i].None? ==> FirstLast(hits, i + 1, first, last)
  {
    assert hits[..i + 1][..i] == hits[..i];
  }

  /** After the last index, FirstLast gives the line value. */
  lemma FirstLastDone(hits: seq<Option<nat>>, first: Option<nat>, last: nat)
    requires FirstLast(hits, |hits|, first, last)
    ensures Calibration(hits) == if first.None? then None else Some(first.value * 10 + last)
  {
    assert hits[..|hits|] == hits;
  }

  /** There is no line value exactly when no index has a value. */
  lemma CalibrationNone(hits: seq<Option<nat>>)
    ensures Calibration(hits).None? <==> forall k :: 0 <= k < |hits| ==> hits[k].None?
  {
    HitsEmpty(hits);
  }

  /** A line value is 10 times the value at the earliest index having one plus the value at the latest. */
  lemma CalibrationMeans(hits: seq<Option<nat>>)
    requires Calibration(hits).Some?
    ensures exists i, j ::
      (0 <= i <= j < |hits| && hits[i].Some? && hits[j].Some? &&
       (forall k :: 0 <= k < i ==> hits[k].None?) &&
       (forall k :: j < k < |hits| ==> hits[k].None?) &&
       Calibration(hits) == Some(hits[i].value * 10 + hits[j].value))
  {
    var i := HitsFirst(hits);
    var j := HitsLast(hits);
    assert i <= j;
    assert Calibration(hits) == Some(hits[i].value * 10 + hits[j].value);
  }

  /** Conversely, the earliest and the latest index having a value determine the line value. */
  lemma CalibrationFromEnds(hits: seq<Option<nat>>, i: nat, j: nat)
    requires i <= j < |hits| && hits[i].Some? && hits[j].Some?
    requires forall k :: 0 <= k < i ==> hits[k].None?
    requires forall k :: j < k < |hits| ==> hits[k].None?
    ensures Calibration(hits) == Some(hits[i].value * 10 + hits[j].value)
  {
    HitsEmpty(hits);
    var i' := HitsFirst(hits);
    var j' := HitsLast(hits);
    assert i' == i;
    assert j' == j;
  }

  /** With single-digit values a line value lies in 0..99. */
  lemma CalibrationBounded(hits: seq<Option<nat>>)
    requires forall k :: 0 <= k < |hits| && hits[k].Some? ==> hits[k].value <= 9
    ensures Calibration(hits).Some? ==> Calibration(hits).value <= 99
  {
    if Calibration(hits).Some? {
      CalibrationMeans(hits);
    }
  }

  /** A single value d found anywhere gives 11 * d. */
  lemma SingleHit(hits: seq<Option<nat>>, i: nat)
    requires i < |hits| && hits[i].Some?
    requires forall k :: 0 <= k < |hits| && k != i ==> hits[k].None?
    ensures Calibration(hits) == Some(11 * hits[i].value)
  {
    CalibrationNone(hits);
    CalibrationMeans(hits);
  }

  // ---------------------------------------------------------------------
  // Digits
  // ---------------------------------------------------------------------

  /** The digit of every character of the line that is one (str.isnumeric on ASCII). */
  function DigitHits(line: string): (hits: seq<Option<nat>>)
    ensures |hits| == |line|
    ensures forall k :: 0 <= k < |line| ==> hits[k] == if IsDigit(line[k]) then Some(DigitValue(line[k])) else None
  {
    seq(|line|, k requires 0 <= k < |line| => if IsDigit(line[k]) then Some(DigitValue(line[k])) else None)
  }

  /** The character loop of one line: first_digit once, last_digit every time. */
  method LineValue(line: string) returns (value: Option<nat>)
    ensures value == Calibration(DigitHits(line))
  {
    ghost var hits := DigitHits(line);
    var first: Option<nat> := None;
    var last: nat := 0;
    for i := 0 to |line|
      invariant FirstLast(hits, i, first, last)
    {
      FirstLastStep(hits, i, first, last);
      if IsDigit(line[i]) {
        if first.None? {
          first := Some(DigitValue(line[i]));
        }
        last := DigitValue(line[i]);
      }
    }
    FirstLastDone(hits, first, last);
    if first.None? {
      return None;
    }
    return Some(first.value * 10 + last);
  }

  /** The values of the lines that have digits, in order. */
  function LineValues(lines: seq<string>): seq<int>
  {
    if |lines| == 0 then []
    else
      var rest := LineValues(lines[..|lines| - 1]);
      match Calibration(DigitHits(lines[|lines| - 1]))
      case None => rest
      case Some(v) => rest + [v]
  }

  /** Every line value is in 0..99, and the lines without digits add nothing. */
  lemma {:induction false} LineValuesBounded(lines: seq<string>)
    ensures forall k :: 0 <= k < |LineValues(lines)| ==> 0 <= LineValues(lines)[k] <= 99
    ensures |LineValues(lines)| <= |lines|
  {
    if |lines| > 0 {
      LineValuesBounded(lines[..|lines| - 1]);
      CalibrationBounded(DigitHits(lines[|lines| - 1]));
    }
  }

  /** The line loop: numbers collects the line values, the answer is their sum. */
  method Run(lines: seq<string>) returns (total: int)
    ensures total == Sum(LineValues(lines))
    ensures 0 <= total <= 99 * |lines|
  {
    var numbers: seq<int> := [];
    for i := 0 to |lines|
      invariant numbers == LineValues(lines[..i])
    {
      assert lines[..i + 1][..i] == lines[..i];
      var value := LineValue(lines[i]);
      if value.None? {
        continue;
      }
      numbers := numbers + [value.value];
    }
    assert lines[..|lines|] == lines;
    total := Sum(numbers);
    LineValuesBounded(lines);
    SumBounded(numbers, 99);
  }
}
