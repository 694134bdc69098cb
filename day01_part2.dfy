/**
 * Trebuchet calibration with spelled-out digits (day01/part2.py). A digit
 * or one of the words "one" to "nine" may start at any position of a line,
 * and the matches may overlap ("twone" holds a two and a one). The value of
 * a line is ten times its first match plus its last, lines without a match
 * are skipped and the answer is the sum of the values.
 */
module Day01Words {
  import opened Common
  import opened Day01Trebuchet

  /** STR_NUMBERS: the regex for a digit at index 0, then the words at their values. */
  const StrNumbers: seq<string> :=
    ["[0-9]", "one", "two", "three", "four", "five", "six", "seven", "eight", "nine"]

  /** list.index: the first position of x in s. */
  function IndexOf(s: seq<string>, x: string): (i: nat)
    requires x in s
    ensures i < |s| && s[i] == x
    ensures forall k :: 0 <= k < i ==> s[k] != x
  {
    if s[0] == x then 0 else 1 + IndexOf(s[1..], x)
  }

  /**
   * convert_number: the index of a text in STR_NUMBERS, otherwise int(text),
   * which is None where int() would raise (only decimal digits are read).
   */
  function ConvertNumber(text: string): Option<nat>
  {
    if text !in StrNumbers then
      if |text| > 0 && AllDigits(text) then Some(Decimal(text)) else None
    else Some(IndexOf(StrNumbers, text))
  }

  /** The entries of STR_NUMBERS are pairwise different. */
  lemma StrNumbersDistinct(a: nat, b: nat)
    requires a < b < |StrNumbers|
    ensures StrNumbers[a] != StrNumbers[b]
  {
    var wa, wb := StrNumbers[a], StrNumbers[b];
    if |wa| == |wb| {
      assert wa[0] != wb[0] || wa[1] != wb[1];
    }
  }

  /** Every entry has at least three characters, the first of them not a digit. */
  lemma StrNumbersShape(k: nat)
    requires k < |StrNumbers|
    ensures |StrNumbers[k]| >= 3 && !IsDigit(StrNumbers[k][0])
    ensures 1 <= k ==> StrNumbers[k][0] in "otfsen"
  {
  }

  /** In a list without repeats, list.index finds each entry at its own position. */
  lemma IndexOfEntry(s: seq<string>, k: nat)
    requires k < |s|
    requires forall a, b :: 0 <= a < b < |s| ==> s[a] != s[b]
    ensures IndexOf(s, s[k]) == k
  {
  }

  /** Each word is converted to its value. */
  lemma ConvertWord(k: nat)
    requires 1 <= k <= 9
    ensures ConvertNumber(StrNumbers[k]) == Some(k)
  {
    forall a, b | 0 <= a < b < |StrNumbers|
      ensures StrNumbers[a] != StrNumbers[b]
    {
      StrNumbersDistinct(a, b);
    }
    IndexOfEntry(StrNumbers, k);
  }

  /** A single digit is converted to its value. */
  lemma ConvertDigit(c: char)
    requires IsDigit(c)
    ensures ConvertNumber([c]) == Some(DigitValue(c))
  {
    if [c] in StrNumbers {
      var k :| 0 <= k < |StrNumbers| && StrNumbers[k] == [c];
      StrNumbersShape(k);
      assert false;
    }
    assert [c] !in StrNumbers;
    assert AllDigits([c]);
    assert [c][..0] == [];
    assert Decimal([c]) == DigitValue(c);
  }

  // ---------------------------------------------------------------------
  // The lookahead scan
  // ---------------------------------------------------------------------

  /** word occurs in line starting at position i. */
  predicate OccursAt(word: string, line: string, i: nat)
  {
    i + |word| <= |line| && line[i..i + |word|] == word
  }

  /** The words tried in list order from index k: the first that occurs at i. */
  function FirstWord(line: string, i: nat, k: nat): Option<nat>
    requires 1 <= k
    decreases 10 - k
  {
    if k > 9 then None
    else if OccursAt(StrNumbers[k], line, i) then Some(k)
    else FirstWord(line, i, k + 1)
  }

  /**
   * The text group 1 of the lookahead pattern captures at position i: a
   * digit, the alternative listed first, else the first word occurring there.
   */
  function MatchText(line: string, i: nat): Option<string>
  {
    if i < |line| && IsDigit(line[i]) then Some([line[i]])
    else
      match FirstWord(line, i, 1)
      case None => None
      case Some(k) => Some(StrNumbers[k])
  }

  /** The number found at position i, if any. */
  function Hit(line: string, i: nat): Option<nat>
  {
    match MatchText(line, i)
    case None => None
    case Some(text) => ConvertNumber(text)
  }

  /**
   * One hit per position, in order. finditer also tries the position after
   * the last character, where no alternative fits.
   */
  function WordHits(line: string): (hits: seq<Option<nat>>)
    ensures |hits| == |line|
    ensures forall i :: 0 <= i < |line| ==> hits[i] == Hit(line, i)
  {
    seq(|line|, i requires 0 <= i < |line| => Hit(line, i))
  }

  /** No word is a prefix of another, so at most one word occurs at a position. */
  lemma WordsUnique(line: string, i: nat, a: nat, b: nat)
    requires 1 <= a <= 9 && 1 <= b <= 9
    requires OccursAt(StrNumbers[a], line, i) && OccursAt(StrNumbers[b], line, i)
    ensures a == b
  {
    var wa, wb := StrNumbers[a], StrNumbers[b];
    assert line[i] == wa[0] && line[i] == wb[0] by {
      assert line[i..i + |wa|][0] == wa[0];
      assert line[i..i + |wb|][0] == wb[0];
    }
    assert line[i + 1] == wa[1] && line[i + 1] == wb[1] by {
      assert line[i..i + |wa|][1] == wa[1];
      assert line[i..i + |wb|][1] == wb[1];
    }
  }

  /** FirstWord finds only words that occur, starting from k. */
  lemma {:induction false} FirstWordSound(line: string, i: nat, k: nat)
    requires 1 <= k
    requires FirstWord(line, i, k).Some?
    ensures k <= FirstWord(line, i, k).value <= 9
    ensures OccursAt(StrNumbers[FirstWord(line, i, k).value], line, i)
    decreases 10 - k
  {
    if !OccursAt(StrNumbers[k], line, i) {
      FirstWordSound(line, i, k + 1);
    }
  }

  /** FirstWord finds any word at index k or later that occurs. */
  lemma {:induction false} FirstWordComplete(line: string, i: nat, k: nat, v: nat)
    requires 1 <= k <= v <= 9
    requires OccursAt(StrNumbers[v], line, i)
    ensures FirstWord(line, i, k) == Some(v)
    decreases 10 - k
  {
    if OccursAt(StrNumbers[k], line, i) {
      WordsUnique(line, i, k, v);
    } else {
      FirstWordComplete(line, i, k + 1, v);
    }
  }

  /**
   * A position holds the value v exactly when the digit v is there or the
   * word for v starts there.
   */
  lemma HitMeans(line: string, i: nat, v: nat)
    ensures Hit(line, i) == Some(v) <==>
      (i < |line| && IsDigit(line[i]) && v == DigitValue(line[i])) ||
      (1 <= v <= 9 && OccursAt(StrNumbers[v], line, i))
  {
    if i < |line| && IsDigit(line[i]) {
      ConvertDigit(line[i]);
    } else {
      if FirstWord(line, i, 1).Some? {
        FirstWordSound(line, i, 1);
        ConvertWord(FirstWord(line, i, 1).value);
      }
      if 1 <= v <= 9 && OccursAt(StrNumbers[v], line, i) {
        FirstWordComplete(line, i, 1, v);
        ConvertWord(v);
      }
    }
  }

  /** Every match found is converted, so convert_number never raises here. */
  lemma MatchConverts(line: string, i: nat)
    requires MatchText(line, i).Some?
    ensures ConvertNumber(MatchText(line, i).value).Some?
    ensures ConvertNumber(MatchText(line, i).value).value <= 9
  {
    if i < |line| && IsDigit(line[i]) {
      ConvertDigit(line[i]);
    } else {
      FirstWordSound(line, i, 1);
      ConvertWord(FirstWord(line, i, 1).value);
    }
  }

  /** A line without any spelled-out word has the same value as in part 1. */
  lemma NoWordsAsDigits(line: string)
    requires forall i: nat, k :: 1 <= k <= 9 ==> !OccursAt(StrNumbers[k], line, i)
    ensures WordHits(line) == DigitHits(line)
  {
    forall i | 0 <= i < |line|
      ensures WordHits(line)[i] == DigitHits(line)[i]
    {
      if IsDigit(line[i]) {
        HitMeans(line, i, DigitValue(line[i]));
      } else if Hit(line, i).Some? {
        HitMeans(line, i, Hit(line, i).value);
      }
    }
  }

  /** A position with neither a digit nor a word starting there holds nothing. */
  lemma NoHitAt(line: string, i: nat)
    requires i < |line| ==> !IsDigit(line[i])
    requires forall k :: 1 <= k <= 9 ==> !OccursAt(StrNumbers[k], line, i)
    ensures Hit(line, i) == None
  {
    if Hit(line, i).Some? {
      HitMeans(line, i, Hit(line, i).value);
    }
  }

  /** Where the words occur in "twone": "two" at 0, "one" at 2, and none at 1, 3 or 4. */
  lemma TwoneWords(line: string)
    requires line == "twone"
    ensures OccursAt(StrNumbers[2], line, 0) && OccursAt(StrNumbers[1], line, 2)
    ensures forall k :: 1 <= k <= 9 ==>
      !OccursAt(StrNumbers[k], line, 1) && !OccursAt(StrNumbers[k], line, 3) && !OccursAt(StrNumbers[k], line, 4)
  {
    assert line[0..3] == "two";
    assert line[2..5] == "one";
    forall k | 1 <= k <= 9
      ensures !OccursAt(StrNumbers[k], line, 1)
    {
      StrNumbersShape(k);
    }
    forall k | 1 <= k <= 9
      ensures !OccursAt(StrNumbers[k], line, 3) && !OccursAt(StrNumbers[k], line, 4)
    {
      StrNumbersShape(k);
    }
  }

  /** "twone" holds 2 at position 0 and 1 at position 2. */
  lemma TwoneFound(line: string)
    requires line == "twone"
    ensures Hit(line, 0) == Some(2) && Hit(line, 2) == Some(1)
  {
    TwoneWords(line);
    HitMeans(line, 0, 2);
    HitMeans(line, 2, 1);
  }

  /** "twone" holds nothing at positions 1, 3 and 4. */
  lemma TwoneGaps(line: string)
    requires line == "twone"
    ensures Hit(line, 1) == None && Hit(line, 3) == None && Hit(line, 4) == None
  {
    TwoneWords(line);
    NoHitAt(line, 1);
    NoHitAt(line, 3);
    NoHitAt(line, 4);
  }

  /** Hits 2, none, 1, none, none give the line value 21. */
  lemma TwoneValue(hits: seq<Option<nat>>)
    requires |hits| == 5 && hits[0] == Some(2) && hits[2] == Some(1) && hits[3].None? && hits[4].None?
    ensures Calibration(hits) == Some(21)
  {
    forall k | 2 < k < |hits|
      ensures hits[k].None?
    {
      assert k == 3 || k == 4;
    }
    CalibrationFromEnds(hits, 0, 2);
  }

  /** Overlapping matches count: "twone" reads as 2 first and 1 last. */
  lemma Twone(line: string)
    requires line == "twone"
    ensures Calibration(WordHits(line)) == Some(21)
  {
    TwoneFound(line);
    TwoneGaps(line);
    TwoneValue(WordHits(line));
  }

  /** Every position holds at most a single-digit value. */
  lemma HitsBounded(line: string)
    ensures forall k :: 0 <= k < |line| && WordHits(line)[k].Some? ==> WordHits(line)[k].value <= 9
  {
    forall k | 0 <= k < |line| && WordHits(line)[k].Some?
      ensures WordHits(line)[k].value <= 9
    {
      MatchConverts(line, k);
    }
  }

  /** The match loop of one line: first_digit once, last_digit every time. */
  method LineValue(line: string) returns (value: Option<nat>)
    ensures value == Calibration(WordHits(line))
  {
    ghost var hits := WordHits(line);
    var first: Option<nat> := None;
    var last: nat := 0;
    for i := 0 to |line|
      invariant FirstLast(hits, i, first, last)
    {
      FirstLastStep(hits, i, first, last);
      var text := MatchText(line, i);
      if text.Some? {
        MatchConverts(line, i);
        if first.None? {
          first := ConvertNumber(text.value);
        }
        last := ConvertNumber(text.value).value;
      }
    }
    FirstLastDone(hits, first, last);
    if first.None? {
      return None;
    }
    return Some(first.value * 10 + last);
  }

  /** The values of the lines that have a match, in order. */
  function LineValues(lines: seq<string>): seq<int>
  {
    if |lines| == 0 then []
    else
      var rest := LineValues(lines[..|lines| - 1]);
      match Calibration(WordHits(lines[|lines| - 1]))
      case None => rest
      case Some(v) => rest + [v]
  }

  /** Every line value is in 0..99, and the lines without a match add nothing. */
  lemma {:induction false} LineValuesBounded(lines: seq<string>)
    ensures forall k :: 0 <= k < |LineValues(lines)| ==> 0 <= LineValues(lines)[k] <= 99
    ensures |LineValues(lines)| <= |lines|
  {
    if |lines| > 0 {
      LineValuesBounded(lines[..|lines| - 1]);
      HitsBounded(lines[|lines| - 1]);
      CalibrationBounded(WordHits(lines[|lines| - 1]));
    }
  }

  /** The line loop: numbers collects the line values, the answer is their sum. */
  method Run(lines: seq<string>) returns (total: int)
    ensures total == Sum(LineValues(lines))
    ensures 0 <= total <= 99 * |lines|
  {
    var numbers: seq<int> := [];
    for i := 0 to |lines|
      invariant numbers == LineValues(lines[..i])
    {
      assert lines[..i + 1][..i] == lines[..i];
      var value := LineValue(lines[i]);
      if value.None? {
        continue;
      }
      numbers := numbers + [value.value];
    }
    assert lines[..|lines|] == lines;
    total := Sum(numbers);
    LineValuesBounded(lines);
    SumBounded(numbers, 99);
  }
}
