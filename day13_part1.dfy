/**
 * Point of Incidence (day13/part1.py): the line of reflection of a pattern
 * of ash and rocks, searched over rows and then over the columns of the
 * transposed pattern.
 */
module Day13Mirrors {
  import opened Common

  datatype MirrorError = IndexError | NoMirror

  /** The candidate for count i anchored at the top: shape[:i] == reversed(shape[i:i+i]). */
  predicate TopMirror(lines: seq<string>, i: nat)
    requires 2 * i <= |lines|
  {
    lines[..i] == Reverse(lines[i..2 * i])
  }

  /** The candidate for count i anchored at the bottom: shape[j:] == reversed(shape[j-i:j]), j = height - i. */
  predicate BottomMirror(lines: seq<string>, i: nat)
    requires 2 * i <= |lines|
  {
    lines[|lines| - i..] == Reverse(lines[|lines| - 2 * i..|lines| - i])
  }

  function MinSide(h: nat, m: nat): nat
    requires m <= h
  {
    if m <= h - m then m else h - m
  }

  /** Row m + k is the mirror image of row m - 1 - k. */
  predicate PairMatches(lines: seq<string>, m: nat, k: nat)
    requires k < m && m + k < |lines|
  {
    lines[m + k] == lines[m - 1 - k]
  }

  /**
   * The line between m-1 and m is a line of reflection: the rows on the
   * shorter side are the mirror image of the rows next to them on the other.
   */
  predicate Mirrors(lines: seq<string>, m: nat)
    requires m <= |lines|
  {
    forall k :: 0 <= k < MinSide(|lines|, m) ==> PairMatches(lines, m, k)
  }

  /** The position of the line between m-1 and m in the order the loop tries candidates. */
  function Rank(h: nat, m: nat): nat
    requires 1 <= m <= h
  {
    if 2 * m <= h then 2 * m - 1 else 2 * (h - m)
  }

  /** The loop `for i in range(1, height // 2 + 1)`: top candidate first, then bottom. */
  function SearchFrom(lines: seq<string>, i: nat): Option<nat>
    requires i >= 1
    decreases |lines| - 2 * i + 2
  {
    if 2 * i > |lines| then None
    else if Mirrors(lines, i) then Some(i)
    else if Mirrors(lines, |lines| - i) then Some(|lines| - i)
    else SearchFrom(lines, i + 1)
  }

  lemma SearchFromNext(lines: seq<string>, i: nat)
    requires 1 <= i && 2 * i <= |lines|
    requires !Mirrors(lines, i) && !Mirrors(lines, |lines| - i)
    ensures SearchFrom(lines, i) == SearchFrom(lines, i + 1)
  {
  }

  /** The line of reflection the search returns, counted in lines before it. */
  function FirstMirror(lines: seq<string>): Option<nat>
  {
    SearchFrom(lines, 1)
  }

  lemma TopMirrorMeans(lines: seq<string>, i: nat)
    requires 1 <= i && 2 * i <= |lines|
    ensures TopMirror(lines, i) <==> Mirrors(lines, i)
  {
    var top := lines[..i];
    var bottom := Reverse(lines[i..2 * i]);
    if Mirrors(lines, i) {
      forall k | 0 <= k < i ensures top[k] == bottom[k] {
        assert PairMatches(lines, i, i - 1 - k);
        assert bottom[k] == lines[i..2 * i][i - 1 - k] == lines[2 * i - 1 - k];
      }
      assert top == bottom;
    }
    if TopMirror(lines, i) {
      forall k | 0 <= k < i ensures PairMatches(lines, i, k) {
        assert top[i - 1 - k] == bottom[i - 1 - k];
        assert bottom[i - 1 - k] == lines[i..2 * i][k] == lines[i + k];
      }
    }
  }

  lemma BottomMirrorMeans(lines: seq<string>, i: nat)
    requires 1 <= i && 2 * i <= |lines|
    ensures BottomMirror(lines, i) <==> Mirrors(lines, |lines| - i)
  {
    if Mirrors(lines, |lines| - i) {
      BottomMirrorFromPairs(lines, i);
    }
    if BottomMirror(lines, i) {
      BottomMirrorToPairs(lines, i);
    }
  }

  lemma BottomMirrorFromPairs(lines: seq<string>, i: nat)
    requires 1 <= i && 2 * i <= |lines| && Mirrors(lines, |lines| - i)
    ensures BottomMirror(lines, i)
  {
    var j := |lines| - i;
    var top := lines[j..];
    var bottom := Reverse(lines[j - i..j]);
    forall k | 0 <= k < i ensures top[k] == bottom[k] {
      assert PairMatches(lines, j, k);
      assert bottom[k] == lines[j - i..j][i - 1 - k] == lines[j - 1 - k];
    }
    assert top == bottom;
  }

  lemma BottomMirrorToPairs(lines: seq<string>, i: nat)
    requires 1 <= i && 2 * i <= |lines| && BottomMirror(lines, i)
    ensures Mirrors(lines, |lines| - i)
  {
    var j := |lines| - i;
    var top := lines[j..];
    var bottom := Reverse(lines[j - i..j]);
    forall k | 0 <= k < i ensures PairMatches(lines, j, k) {
      assert top[k] == bottom[k];
      assert bottom[k] == lines[j - i..j][i - 1 - k] == lines[j - 1 - k];
    }
  }

  /** No line the loop tries before rank r is a line of reflection. */
  ghost predicate NoMirrorBefore(lines: seq<string>, r: nat)
  {
    forall m :: 1 <= m < |lines| && Rank(|lines|, m) < r ==> !Mirrors(lines, m)
  }

  lemma NoMirrorStep(lines: seq<string>, i: nat)
    requires 1 <= i && 2 * i <= |lines|
    requires NoMirrorBefore(lines, 2 * i - 1)
    requires !Mirrors(lines, i)
    ensures NoMirrorBefore(lines, 2 * i)
    ensures !Mirrors(lines, |lines| - i) ==> NoMirrorBefore(lines, 2 * i + 1)
  {
    var h := |lines|;
    forall m | 1 <= m < h && Rank(h, m) < 2 * i + 1 ensures Rank(h, m) < 2 * i - 1 || m == i || m == h - i {
    }
  }

  lemma NoMirrorAtAll(lines: seq<string>, i: nat)
    requires 1 <= i && 2 * i > |lines|
    requires NoMirrorBefore(lines, 2 * i - 1)
    ensures forall m :: 1 <= m < |lines| ==> !Mirrors(lines, m)
  {
    forall m | 1 <= m < |lines| ensures Rank(|lines|, m) < 2 * i - 1 {
    }
  }

  lemma {:induction false} SearchFromSound(lines: seq<string>, i: nat)
    requires i >= 1
    requires NoMirrorBefore(lines, 2 * i - 1)
    ensures SearchFrom(lines, i).Some? ==>
      1 <= SearchFrom(lines, i).value < |lines| && Mirrors(lines, SearchFrom(lines, i).value) &&
      NoMirrorBefore(lines, Rank(|lines|, SearchFrom(lines, i).value))
    ensures SearchFrom(lines, i).None? ==> forall m :: 1 <= m < |lines| ==> !Mirrors(lines, m)
    decreases |lines| - 2 * i + 2
  {
    var h := |lines|;
    if 2 * i > h {
      NoMirrorAtAll(lines, i);
    } else {
      if !Mirrors(lines, i) {
        NoMirrorStep(lines, i);
        if !Mirrors(lines, h - i) {
          SearchFromSound(lines, i + 1);
        }
      }
    }
  }

  /**
   * The search returns a line of reflection and none that the loop would
   * have tried earlier; it returns None exactly when the pattern has no
   * line of reflection at all.
   */
  lemma FirstMirrorCorrect(lines: seq<string>)
    ensures FirstMirror(lines).Some? ==>
      var m := FirstMirror(lines).value;
      1 <= m < |lines| && Mirrors(lines, m) &&
      forall m' :: 1 <= m' < |lines| && Rank(|lines|, m') < Rank(|lines|, m) ==> !Mirrors(lines, m')
    ensures FirstMirror(lines).None? <==> forall m :: 1 <= m < |lines| ==> !Mirrors(lines, m)
  {
    SearchFromSound(lines, 1);
  }

  /** The order of the loop is a strict order on the candidate lines: no two share a rank. */
  lemma RankInjective(h: nat, m: nat, n: nat)
    requires 1 <= m < h && 1 <= n < h && m != n
    ensures Rank(h, m) != Rank(h, n)
    ensures 1 <= Rank(h, m) <= h - 1
  {
  }

  /** top == bottom for the top-anchored candidate of count i. */
  method CompareTop(lines: seq<string>, i: nat) returns (same: bool)
    requires 1 <= i && 2 * i <= |lines|
    ensures same == Mirrors(lines, i)
  {
    same := lines[..i] == Reverse(lines[i..i + i]);
    TopMirrorMeans(lines, i);
  }

  /** top == bottom for the bottom-anchored candidate of count i. */
  method CompareBottom(lines: seq<string>, i: nat) returns (same: bool)
    requires 1 <= i && 2 * i <= |lines|
    ensures same == Mirrors(lines, |lines| - i)
  {
    var j := |lines| - i;
    same := lines[j..] == Reverse(lines[j - i..j]);
    BottomMirrorMeans(lines, i);
  }

  /** One pass of the search loop in find_mirror. */
  method SearchLines(lines: seq<string>) returns (m: Option<nat>)
    ensures m == FirstMirror(lines)
  {
    var height := |lines|;
    var middle := height / 2 + 1;
    var i := 1;
    while i < middle
      invariant 1 <= i <= middle
      invariant SearchFrom(lines, i) == FirstMirror(lines)
    {
      var top := CompareTop(lines, i);
      if top {
        return Some(i);
      }
      var j := height - i;
      var bottom := CompareBottom(lines, i);
      if bottom {
        return Some(j);
      }
      SearchFromNext(lines, i);
      i := i + 1;
    }
    return None;
  }

  // ---- transposition ----------------------------------------------------------

  /** Every row is at least as long as the first, so row[x] exists for x < width. */
  predicate Covers(shape: seq<string>, width: nat)
  {
    forall y :: 0 <= y < |shape| ==> |shape[y]| >= width
  }

  /** The columns of the pattern, read top to bottom, as strings. */
  function Transposed(shape: seq<string>, width: nat): (t: seq<string>)
    requires Covers(shape, width)
    ensures |t| == width
    ensures forall x :: 0 <= x < width ==> |t[x]| == |shape|
    ensures forall x, y :: 0 <= x < width && 0 <= y < |shape| ==> t[x][y] == shape[y][x]
  {
    seq(width, x requires 0 <= x < width => seq(|shape|, y requires 0 <= y < |shape| => shape[y][x]))
  }

  /** The nested append loops of find_mirror; None where row[x] raises IndexError. */
  method Transpose(shape: seq<string>, width: nat) returns (t: Option<seq<string>>)
    ensures t.Some? <==> Covers(shape, width)
    ensures t.Some? ==> t.value == Transposed(shape, width)
  {
    var transposed: seq<string> := [];
    var x := 0;
    while x < width
      invariant 0 <= x <= width
      invariant Covers(shape, x)
      invariant transposed == Transposed(shape, x)
    {
      var row: string := [];
      var y := 0;
      while y < |shape|
        invariant 0 <= y <= |shape|
        invariant |row| == y
        invariant forall y' :: 0 <= y' < y ==> |shape[y']| > x && row[y'] == shape[y'][x]
      {
        if x >= |shape[y]| {
          assert !Covers(shape, width) by {
            assert |shape[y]| < width;
          }
          return None;
        }
        row := row + [shape[y][x]];
        y := y + 1;
      }
      assert Covers(shape, x + 1);
      assert row == Transposed(shape, x + 1)[x];
      assert Transposed(shape, x) + [row] == Transposed(shape, x + 1);
      transposed := transposed + [row];
      x := x + 1;
    }
    t := Some(transposed);
  }

  // ---- find_mirror ---------------------------------------------------------

  /** find_mirror: 100 × the rows above a horizontal line, else the columns left of a vertical one. */
  function FindMirrorOf(shape: seq<string>): Result<nat, MirrorError>
  {
    if |shape| == 0 then Err(IndexError)
    else match FirstMirror(shape)
      case Some(m) => Ok(100 * m)
      case None =>
        if !Covers(shape, |shape[0]|) then Err(IndexError)
        else match FirstMirror(Transposed(shape, |shape[0]|))
          case Some(m) => Ok(m)
          case None => Err(NoMirror)
  }

  /** find_mirror, with its loops. */
  method FindMirror(shape: seq<string>) returns (result: Result<nat, MirrorError>)
    ensures result == FindMirrorOf(shape)
  {
    if |shape| == 0 {
      return Err(IndexError);
    }
    var width := |shape[0]|;
    var row := SearchLines(shape);
    if row.Some? {
      return Ok(100 * row.value);
    }
    var transposed := Transpose(shape, width);
    if transposed.None? {
      return Err(IndexError);
    }
    var column := SearchLines(transposed.value);
    if column.Some? {
      return Ok(column.value);
    }
    return Err(NoMirror);
  }

  /**
   * What find_mirror's result means: a multiple of 100 for a horizontal
   * line of reflection, otherwise a vertical one, tried only once no
   * horizontal line exists; NoMirror exactly when the pattern has neither.
   */
  lemma FindMirrorMeans(shape: seq<string>)
    requires |shape| > 0 && Covers(shape, |shape[0]|)
    ensures var r := FindMirrorOf(shape);
      r.Ok? ==> ((r.value % 100 == 0 && 100 <= r.value <= 100 * (|shape| - 1) &&
                 Mirrors(shape, r.value / 100)) ||
                ((forall m :: 1 <= m < |shape| ==> !Mirrors(shape, m)) &&
                 1 <= r.value < |shape[0]| && Mirrors(Transposed(shape, |shape[0]|), r.value)))
    ensures FindMirrorOf(shape) == Err(NoMirror) <==>
      (forall m :: 1 <= m < |shape| ==> !Mirrors(shape, m)) &&
      (forall m :: 1 <= m < |shape[0]| ==> !Mirrors(Transposed(shape, |shape[0]|), m))
    ensures FindMirrorOf(shape) != Err(IndexError)
  {
    var t := Transposed(shape, |shape[0]|);
    FirstMirrorCorrect(shape);
    match FirstMirror(shape)
    case Some(m) =>
      assert FindMirrorOf(shape) == Ok(100 * m);
      assert (100 * m) / 100 == m && (100 * m) % 100 == 0;
    case None =>
      FirstMirrorCorrect(t);
      assert FindMirrorOf(shape) == if FirstMirror(t).Some? then Ok(FirstMirror(t).value) else Err(NoMirror);
  }

  /** run after parsing: the sum of find_mirror over the non-empty patterns; the first error stops it. */
  method Summarize(shapes: seq<seq<string>>) returns (result: Result<nat, MirrorError>)
    ensures result.Ok? ==> forall k :: 0 <= k < |shapes| && |shapes[k]| > 0 ==> FindMirrorOf(shapes[k]).Ok?
    ensures result.Err? ==> exists k :: 0 <= k < |shapes| && |shapes[k]| > 0 && FindMirrorOf(shapes[k]) == result
    ensures result.Ok? ==> result.value == SummaryOf(shapes)
  {
    var total := 0;
    var n := 0;
    while n < |shapes|
      invariant 0 <= n <= |shapes|
      invariant forall k :: 0 <= k < n && |shapes[k]| > 0 ==> FindMirrorOf(shapes[k]).Ok?
      invariant total == SummaryOf(shapes[..n])
    {
      assert shapes[..n + 1][..n] == shapes[..n];
      if |shapes[n]| > 0 {
        var mirror := FindMirror(shapes[n]);
        if mirror.Err? {
          return mirror;
        }
        total := total + mirror.value;
      }
      n := n + 1;
    }
    assert shapes[..n] == shapes;
    result := Ok(total);
  }

  /** The total of the mirror values of the non-empty patterns, where all of them have one. */
  function SummaryOf(shapes: seq<seq<string>>): nat
  {
    if |shapes| == 0 then 0
    else
      var last := shapes[|shapes| - 1];
      SummaryOf(shapes[..|shapes| - 1]) +
        (if |last| > 0 && FindMirrorOf(last).Ok? then FindMirrorOf(last).value else 0)
  }
}
