/**
 * Point of Incidence with smudges (day13/part2.py): a line of reflection
 * is accepted only when exactly one cell of the pattern differs from its
 * mirror image.
 *
 * day13/part2.py repeats find_mirror and its search order in full. It
 * changes only the test of a candidate line, which uses compare_lists
 * with a smudge count. This module follows the source and repeats the
 * search with SmudgeMirrors in place of Mirrors. It takes Rank, MinSide
 * and Transposed from Day13Mirrors.
 */
module Day13Smudges {
  import opened Common
  import opened Day13Mirrors

  /** The number of differing characters among the first n of zip(a, b). */
  function CharDiffs(a: string, b: string, n: nat): nat
    requires n <= |a| && n <= |b|
  {
    if n == 0 then 0 else CharDiffs(a, b, n - 1) + (if a[n - 1] != b[n - 1] then 1 else 0)
  }

  /** The number of differing characters in zip(a, b). */
  function Diffs(a: string, b: string): nat
  {
    CharDiffs(a, b, Min(|a|, |b|))
  }

  /** The number of differing cells among the first n rows of zip(top, bottom). */
  function RowDiffs(top: seq<string>, bottom: seq<string>, n: nat): nat
    requires n <= |top| && n <= |bottom|
  {
    if n == 0 then 0 else RowDiffs(top, bottom, n - 1) + Diffs(top[n - 1], bottom[n - 1])
  }

  /** The number of differing cells over zip(top, bottom), each pair of rows zipped in turn. */
  function ListDiffs(top: seq<string>, bottom: seq<string>): nat
  {
    RowDiffs(top, bottom, Min(|top|, |bottom|))
  }

  lemma {:induction false} CharDiffsMonotone(a: string, b: string, n: nat, m: nat)
    requires n <= m <= |a| && m <= |b|
    ensures CharDiffs(a, b, n) <= CharDiffs(a, b, m)
    decreases m - n
  {
    if n < m {
      CharDiffsMonotone(a, b, n, m - 1);
    }
  }

  lemma {:induction false} RowDiffsMonotone(top: seq<string>, bottom: seq<string>, n: nat, m: nat)
    requires n <= m <= |top| && m <= |bottom|
    ensures RowDiffs(top, bottom, n) <= RowDiffs(top, bottom, m)
    decreases m - n
  {
    if n < m {
      RowDiffsMonotone(top, bottom, n, m - 1);
    }
  }

  /** What the comparison has counted so far never exceeds the total. */
  lemma PartialAtMost(top: seq<string>, bottom: seq<string>, r: nat, c: nat)
    requires r < |top| && r < |bottom|
    requires c <= |top[r]| && c <= |bottom[r]|
    ensures RowDiffs(top, bottom, r) + CharDiffs(top[r], bottom[r], c) <= ListDiffs(top, bottom)
  {
    CharDiffsMonotone(top[r], bottom[r], c, Min(|top[r]|, |bottom[r]|));
    RowDiffsMonotone(top, bottom, r + 1, Min(|top|, |bottom|));
  }

  /** Zipped strings with no difference agree on every zipped position. */
  lemma {:induction false} NoDiffsMeansEqual(a: string, b: string, n: nat)
    requires n <= |a| && n <= |b|
    ensures CharDiffs(a, b, n) == 0 <==> forall k :: 0 <= k < n ==> a[k] == b[k]
    decreases n
  {
    if n > 0 {
      NoDiffsMeansEqual(a, b, n - 1);
    }
  }

  /**
   * compare_lists: walks the zipped rows and characters, stops at the
   * second difference (or the first, when not smudged); with smudged it
   * holds exactly when one cell differs, without it when none does.
   */
  method CompareLists(top: seq<string>, bottom: seq<string>, smudged: bool) returns (same: bool)
    ensures !smudged ==> (same <==> ListDiffs(top, bottom) == 0)
    ensures smudged ==> (same <==> ListDiffs(top, bottom) == 1)
  {
    var hasSmudge := false;
    var rows := Min(|top|, |bottom|);
    var r := 0;
    while r < rows
      invariant 0 <= r <= rows
      invariant RowDiffs(top, bottom, r) == if hasSmudge then 1 else 0
      invariant hasSmudge ==> smudged
    {
      var a, b := top[r], bottom[r];
      var cells := Min(|a|, |b|);
      var c := 0;
      while c < cells
        invariant 0 <= c <= cells
        invariant RowDiffs(top, bottom, r) + CharDiffs(a, b, c) == if hasSmudge then 1 else 0
        invariant hasSmudge ==> smudged
      {
        if a[c] == b[c] {
          c := c + 1;
          continue;
        }
        PartialAtMost(top, bottom, r, c + 1);
        if !smudged {
          return false;
        }
        if hasSmudge {
          return false;
        }
        hasSmudge := true;
        c := c + 1;
      }
      r := r + 1;
    }
    if smudged && !hasSmudge {
      return false;
    }
    return true;
  }

  // ---- reflections with exactly one smudge ---------------------------------

  /** The differing cells of the first n rows beyond the line before row m and their mirror images. */
  function PairDiffs(lines: seq<string>, m: nat, n: nat): nat
    requires n <= m && m + n <= |lines|
  {
    if n == 0 then 0 else PairDiffs(lines, m, n - 1) + Diffs(lines[m - 1 - (n - 1)], lines[m + n - 1])
  }

  /** The line before row m reflects the pattern up to exactly one cell. */
  predicate SmudgeMirrors(lines: seq<string>, m: nat)
    requires m <= |lines|
  {
    PairDiffs(lines, m, MinSide(|lines|, m)) == 1
  }

  lemma {:induction false} DiffsSymmetric(a: string, b: string, n: nat)
    requires n <= |a| && n <= |b|
    ensures CharDiffs(a, b, n) == CharDiffs(b, a, n)
    decreases n
  {
    if n > 0 {
      DiffsSymmetric(a, b, n - 1);
    }
  }

  lemma {:induction false} TopPartial(lines: seq<string>, i: nat, n: nat)
    requires 1 <= i && 2 * i <= |lines| && n <= i
    ensures RowDiffs(lines[..i], Reverse(lines[i..2 * i]), n) + PairDiffs(lines, i, i - n) == PairDiffs(lines, i, i)
    decreases n
  {
    if n > 0 {
      TopPartial(lines, i, n - 1);
      assert Reverse(lines[i..2 * i])[n - 1] == lines[2 * i - n];
      assert lines[..i][n - 1] == lines[n - 1];
    }
  }

  /** The top-anchored comparison of find_mirror counts the smudges of line i. */
  lemma TopForm(lines: seq<string>, i: nat)
    requires 1 <= i && 2 * i <= |lines|
    ensures ListDiffs(lines[..i], Reverse(lines[i..2 * i])) == PairDiffs(lines, i, MinSide(|lines|, i))
  {
    TopPartial(lines, i, i);
  }

  lemma {:induction false} BottomPartial(lines: seq<string>, i: nat, n: nat)
    requires 1 <= i && 2 * i <= |lines| && n <= i
    ensures RowDiffs(lines[|lines| - i..], Reverse(lines[|lines| - 2 * i..|lines| - i]), n) ==
      PairDiffs(lines, |lines| - i, n)
    decreases n
  {
    if n > 0 {
      var j := |lines| - i;
      BottomPartial(lines, i, n - 1);
      assert Reverse(lines[j - i..j])[n - 1] == lines[j - n];
      assert lines[j..][n - 1] == lines[j + n - 1];
      var a, b := lines[j + n - 1], lines[j - n];
      DiffsSymmetric(a, b, Min(|a|, |b|));
    }
  }

  /** The bottom-anchored comparison of find_mirror counts the smudges of line height - i. */
  lemma BottomForm(lines: seq<string>, i: nat)
    requires 1 <= i && 2 * i <= |lines|
    ensures ListDiffs(lines[|lines| - i..], Reverse(lines[|lines| - 2 * i..|lines| - i])) ==
      PairDiffs(lines, |lines| - i, MinSide(|lines|, |lines| - i))
  {
    BottomPartial(lines, i, i);
  }

  function SearchFrom(lines: seq<string>, i: nat): Option<nat>
    requires i >= 1
    decreases |lines| - 2 * i + 2
  {
    if 2 * i > |lines| then None
    else if SmudgeMirrors(lines, i) then Some(i)
    else if SmudgeMirrors(lines, |lines| - i) then Some(|lines| - i)
    else SearchFrom(lines, i + 1)
  }

  lemma SearchFromNext(lines: seq<string>, i: nat)
    requires 1 <= i && 2 * i <= |lines|
    requires !SmudgeMirrors(lines, i) && !SmudgeMirrors(lines, |lines| - i)
    ensures SearchFrom(lines, i) == SearchFrom(lines, i + 1)
  {
  }

  /** The smudged line of reflection the search returns, counted in lines before it. */
  function FirstSmudge(lines: seq<string>): Option<nat>
  {
    SearchFrom(lines, 1)
  }

  ghost predicate NoSmudgeBefore(lines: seq<string>, r: nat)
  {
    forall m :: 1 <= m < |lines| && Rank(|lines|, m) < r ==> !SmudgeMirrors(lines, m)
  }

  lemma NoSmudgeStep(lines: seq<string>, i: nat)
    requires 1 <= i && 2 * i <= |lines|
    requires NoSmudgeBefore(lines, 2 * i - 1)
    requires !SmudgeMirrors(lines, i)
    ensures NoSmudgeBefore(lines, 2 * i)
    ensures !SmudgeMirrors(lines, |lines| - i) ==> NoSmudgeBefore(lines, 2 * i + 1)
  {
    var h := |lines|;
    forall m | 1 <= m < h && Rank(h, m) < 2 * i + 1 ensures Rank(h, m) < 2 * i - 1 || m == i || m == h - i {
    }
  }

  lemma NoSmudgeAtAll(lines: seq<string>, i: nat)
    requires 1 <= i && 2 * i > |lines|
    requires NoSmudgeBefore(lines, 2 * i - 1)
    ensures forall m :: 1 <= m < |lines| ==> !SmudgeMirrors(lines, m)
  {
    forall m | 1 <= m < |lines| ensures Rank(|lines|, m) < 2 * i - 1 {
    }
  }

  lemma {:induction false} SearchFromSound(lines: seq<string>, i: nat)
    requires i >= 1
    requires NoSmudgeBefore(lines, 2 * i - 1)
    ensures SearchFrom(lines, i).Some? ==>
      1 <= SearchFrom(lines, i).value < |lines| && SmudgeMirrors(lines, SearchFrom(lines, i).value) &&
      NoSmudgeBefore(lines, Rank(|lines|, SearchFrom(lines, i).value))
    ensures SearchFrom(lines, i).None? ==> forall m :: 1 <= m < |lines| ==> !SmudgeMirrors(lines, m)
    decreases |lines| - 2 * i + 2
  {
    var h := |lines|;
    if 2 * i > h {
      NoSmudgeAtAll(lines, i);
    } else {
      if !SmudgeMirrors(lines, i) {
        NoSmudgeStep(lines, i);
        if !SmudgeMirrors(lines, h - i) {
          SearchFromSound(lines, i + 1);
        }
      }
    }
  }

  /**
   * The search returns a line with exactly one smudge and none that the
   * loop would have tried earlier; None exactly when no line has one.
   */
  lemma FirstSmudgeCorrect(lines: seq<string>)
    ensures FirstSmudge(lines).Some? ==>
      var m := FirstSmudge(lines).value;
      1 <= m < |lines| && SmudgeMirrors(lines, m) &&
      forall m' :: 1 <= m' < |lines| && Rank(|lines|, m') < Rank(|lines|, m) ==> !SmudgeMirrors(lines, m')
    ensures FirstSmudge(lines).None? <==> forall m :: 1 <= m < |lines| ==> !SmudgeMirrors(lines, m)
  {
    SearchFromSound(lines, 1);
  }

  /** compare_lists(top, bottom, smudged=True) for the top-anchored candidate of count i. */
  method CompareTop(lines: seq<string>, i: nat) returns (same: bool)
    requires 1 <= i && 2 * i <= |lines|
    ensures same == SmudgeMirrors(lines, i)
  {
    same := CompareLists(lines[..i], Reverse(lines[i..i + i]), true);
    TopForm(lines, i);
  }

  /** compare_lists(top, bottom, smudged=True) for the bottom-anchored candidate of count i. */
  method CompareBottom(lines: seq<string>, i: nat) returns (same: bool)
    requires 1 <= i && 2 * i <= |lines|
    ensures same == SmudgeMirrors(lines, |lines| - i)
  {
    var j := |lines| - i;
    same := CompareLists(lines[j..], Reverse(lines[j - i..j]), true);
    BottomForm(lines, i);
  }

  /** One pass of the search loop in find_mirror, comparing with compare_lists(smudged=True). */
  method SearchLines(lines: seq<string>) returns (m: Option<nat>)
    ensures m == FirstSmudge(lines)
  {
    var height := |lines|;
    var middle := height / 2 + 1;
    var i := 1;
    while i < middle
      invariant 1 <= i <= middle
      invariant SearchFrom(lines, i) == FirstSmudge(lines)
    {
      var top := CompareTop(lines, i);
      if top {
        return Some(i);
      }
      var j := height - i;
      var bottom := CompareBottom(lines, i);
      if bottom {
        return Some(j);
      }
      SearchFromNext(lines, i);
      i := i + 1;
    }
    return None;
  }

  /** find_mirror with smudges. */
  function FindMirrorOf(shape: seq<string>): Result<nat, MirrorError>
  {
    if |shape| == 0 then Err(IndexError)
    else match FirstSmudge(shape)
      case Some(m) => Ok(100 * m)
      case None =>
        if !Covers(shape, |shape[0]|) then Err(IndexError)
        else match FirstSmudge(Transposed(shape, |shape[0]|))
          case Some(m) => Ok(m)
          case None => Err(NoMirror)
  }

  method FindMirror(shape: seq<string>) returns (result: Result<nat, MirrorError>)
    ensures result == FindMirrorOf(shape)
  {
    if |shape| == 0 {
      return Err(IndexError);
    }
    var width := |shape[0]|;
    var row := SearchLines(shape);
    if row.Some? {
      return Ok(100 * row.value);
    }
    var transposed := Transpose(shape, width);
    if transposed.None? {
      return Err(IndexError);
    }
    var column := SearchLines(transposed.value);
    if column.Some? {
      return Ok(column.value);
    }
    return Err(NoMirror);
  }

  /**
   * What find_mirror's result means: a multiple of 100 for a horizontal
   * line with exactly one smudge, otherwise such a vertical line, tried
   * only once no horizontal one exists; NoMirror exactly when neither exists.
   */
  lemma FindMirrorMeans(shape: seq<string>)
    requires |shape| > 0 && Covers(shape, |shape[0]|)
    ensures var r := FindMirrorOf(shape);
      r.Ok? ==> ((r.value % 100 == 0 && 100 <= r.value <= 100 * (|shape| - 1) &&
                 SmudgeMirrors(shape, r.value / 100)) ||
                ((forall m :: 1 <= m < |shape| ==> !SmudgeMirrors(shape, m)) &&
                 1 <= r.value < |shape[0]| && SmudgeMirrors(Transposed(shape, |shape[0]|), r.value)))
    ensures FindMirrorOf(shape) == Err(NoMirror) <==>
      (forall m :: 1 <= m < |shape| ==> !SmudgeMirrors(shape, m)) &&
      (forall m :: 1 <= m < |shape[0]| ==> !SmudgeMirrors(Transposed(shape, |shape[0]|), m))
    ensures FindMirrorOf(shape) != Err(IndexError)
  {
    var t := Transposed(shape, |shape[0]|);
    FirstSmudgeCorrect(shape);
    match FirstSmudge(shape)
    case Some(m) =>
      assert FindMirrorOf(shape) == Ok(100 * m);
      assert (100 * m) / 100 == m && (100 * m) % 100 == 0;
    case None =>
      FirstSmudgeCorrect(t);
      assert FindMirrorOf(shape) == if FirstSmudge(t).Some? then Ok(FirstSmudge(t).value) else Err(NoMirror);
  }

  function SummaryOf(shapes: seq<seq<string>>): nat
  {
    if |shapes| == 0 then 0
    else
      var last := shapes[|shapes| - 1];
      SummaryOf(shapes[..|shapes| - 1]) +
        (if |last| > 0 && FindMirrorOf(last).Ok? then FindMirrorOf(last).value else 0)
  }

  /** run after parsing: the sum of find_mirror over the non-empty patterns; the first error stops it. */
  method Summarize(shapes: seq<seq<string>>) returns (result: Result<nat, MirrorError>)
    ensures result.Ok? ==> forall k :: 0 <= k < |shapes| && |shapes[k]| > 0 ==> FindMirrorOf(shapes[k]).Ok?
    ensures result.Err? ==> exists k :: 0 <= k < |shapes| && |shapes[k]| > 0 && FindMirrorOf(shapes[k]) == result
    ensures result.Ok? ==> result.value == SummaryOf(shapes)
  {
    var total := 0;
    var n := 0;
    while n < |shapes|
      invariant 0 <= n <= |shapes|
      invariant forall k :: 0 <= k < n && |shapes[k]| > 0 ==> FindMirrorOf(shapes[k]).Ok?
      invariant total == SummaryOf(shapes[..n])
    {
      assert shapes[..n + 1][..n] == shapes[..n];
      if |shapes[n]| > 0 {
        var mirror := FindMirror(shapes[n]);
        if mirror.Err? {
          return mirror;
        }
        total := total + mirror.value;
      }
      n := n + 1;
    }
    assert shapes[..n] == shapes;
    result := Ok(total);
  }
}
