/**
 * Mirage Maintenance (day09/part2.py): extrapolating a history backwards
 * through its tower of differences.
 */
module Day09History {
  import opened Common

  /** [y - x for (x, y) in pairwise(s)]. */
  function Diff(s: seq<int>): (d: seq<int>)
    ensures |d| == if |s| == 0 then 0 else |s| - 1
  {
    if |s| == 0 then [] else seq(|s| - 1, k requires 0 <= k < |s| - 1 => s[k + 1] - s[k])
  }

  predicate AllZero(s: seq<int>)
  {
    forall k :: 0 <= k < |s| ==> s[k] == 0
  }

  /** predict: None where the source indexes an empty list (an empty history). */
  function Predict(s: seq<int>): (p: Option<int>)
    ensures p.Some? <==> |s| > 0
    decreases |s|
  {
    if AllZero(Diff(s)) then (if |s| == 0 then None else Some(s[0]))
    else
      match Predict(Diff(s))
      case Some(q) => Some(s[0] - q)
      case None => None
  }

  /** The recursion carried all the way down to a single value, without the early stop on zeros. */
  function Backward(s: seq<int>): int
    requires |s| > 0
    decreases |s|
  {
    if |s| == 1 then s[0] else s[0] - Backward(Diff(s))
  }

  lemma {:induction false} BackwardOfZeros(s: seq<int>)
    requires |s| > 0 && AllZero(s)
    ensures Backward(s) == 0
    decreases |s|
  {
    if |s| > 1 {
      assert AllZero(Diff(s)) by {
        forall k | 0 <= k < |Diff(s)| ensures Diff(s)[k] == 0 {
          assert s[k] == 0 && s[k + 1] == 0;
        }
      }
      BackwardOfZeros(Diff(s));
    }
  }

  /** Stopping once the differences are all zero gives the same value as going all the way down. */
  lemma {:induction false} PredictIsBackward(s: seq<int>)
    requires |s| > 0
    ensures Predict(s) == Some(Backward(s))
    decreases |s|
  {
    PredictUnfold(s);
    if |s| > 1 {
      if AllZero(Diff(s)) {
        BackwardOfZeros(Diff(s));
      } else {
        PredictIsBackward(Diff(s));
      }
    }
  }

  /** One level of predict: stop on all-zero differences, otherwise recurse on them. */
  lemma PredictUnfold(s: seq<int>)
    requires |s| > 0
    ensures AllZero(Diff(s)) ==> Predict(s) == Some(s[0])
    ensures !AllZero(Diff(s)) ==> |s| > 1 && Predict(s) == Some(s[0] - Predict(Diff(s)).value)
  {
    if AllZero(Diff(s)) {
      PredictStops(s);
    } else {
      PredictRecurses(s);
    }
  }

  lemma PredictStops(s: seq<int>)
    requires |s| > 0 && AllZero(Diff(s))
    ensures Predict(s) == Some(s[0])
  {
  }

  lemma PredictRecurses(s: seq<int>)
    requires |s| > 0 && !AllZero(Diff(s))
    ensures |s| > 1 && Predict(s) == Some(s[0] - Predict(Diff(s)).value)
  {
  }

  function Add(a: seq<int>, b: seq<int>): (c: seq<int>)
    requires |a| == |b|
    ensures |c| == |a| && forall k :: 0 <= k < |a| ==> c[k] == a[k] + b[k]
  {
    seq(|a|, k requires 0 <= k < |a| => a[k] + b[k])
  }

  function Negate(a: seq<int>): (c: seq<int>)
    ensures |c| == |a| && forall k :: 0 <= k < |a| ==> c[k] == -a[k]
  {
    seq(|a|, k requires 0 <= k < |a| => -a[k])
  }

  lemma {:induction false} BackwardAdditive(a: seq<int>, b: seq<int>)
    requires |a| == |b| > 0
    ensures Backward(Add(a, b)) == Backward(a) + Backward(b)
    decreases |a|
  {
    if |a| > 1 {
      var c := Add(a, b);
      forall k | 0 <= k < |a| - 1 ensures Diff(c)[k] == Add(Diff(a), Diff(b))[k] {
        assert c[k + 1] == a[k + 1] + b[k + 1] && c[k] == a[k] + b[k];
      }
      assert Diff(c) == Add(Diff(a), Diff(b));
      BackwardAdditive(Diff(a), Diff(b));
    }
  }

  /** The prediction is additive: the sum of two histories of equal length predicts the sum of their predictions. */
  lemma PredictAdditive(a: seq<int>, b: seq<int>)
    requires |a| == |b| > 0
    ensures Predict(Add(a, b)) == Some(Predict(a).value + Predict(b).value)
  {
    PredictIsBackward(a);
    PredictIsBackward(b);
    PredictIsBackward(Add(a, b));
    BackwardAdditive(a, b);
  }

  lemma ArithmeticDiff(start: int, step: int, n: nat)
    requires n >= 1
    ensures Diff(seq(n, k => start + k * step)) == seq(n - 1, _ => step)
  {
    var s := seq(n, k => start + k * step);
    forall k | 0 <= k < n - 1 ensures Diff(s)[k] == step {
      assert (k + 1) * step == k * step + step;
      assert s[k + 1] == start + (k + 1) * step && s[k] == start + k * step;
    }
  }

  /** An arithmetic history start, start + step, ... extends backwards to start - step. */
  lemma PredictArithmetic(start: int, step: int, n: nat)
    requires n >= 2
    ensures Predict(seq(n, k => start + k * step)) == Some(start - step)
  {
    var s := seq(n, k => start + k * step);
    ArithmeticDiff(start, step, n);
    var d := Diff(s);
    assert d[0] == step;
    assert s[0] == start;
    if step != 0 {
      ArithmeticDiff(step, 0, n - 1);
      assert seq(n - 1, k => step + k * 0) == d;
      assert AllZero(Diff(d));
    }
  }

  // ---- part 1's forward extrapolation, for comparison ----------------------

  /** Forward extrapolation of a history: the next value after the last. */
  function Forward(s: seq<int>): int
    requires |s| > 0
    decreases |s|
  {
    if |s| == 1 then s[0] else s[|s| - 1] + Forward(Diff(s))
  }

  lemma {:induction false} ForwardNegated(s: seq<int>)
    requires |s| > 0
    ensures Forward(Negate(s)) == -Forward(s)
    decreases |s|
  {
    if |s| > 1 {
      forall k | 0 <= k < |s| - 1 ensures Diff(Negate(s))[k] == Negate(Diff(s))[k] {
        assert Negate(s)[k + 1] == -s[k + 1] && Negate(s)[k] == -s[k];
      }
      assert Diff(Negate(s)) == Negate(Diff(s));
      ForwardNegated(Diff(s));
    }
  }

  /** The differences of the reversed history are the reversed differences, negated. */
  lemma DiffReverse(s: seq<int>)
    requires |s| > 1
    ensures Diff(Reverse(s)) == Negate(Reverse(Diff(s)))
  {
    var r, d := Reverse(s), Diff(s);
    var rd := Reverse(d);
    var nrd := Negate(rd);
    assert |d| == |s| - 1;
    MirroredDiffs(s, r, d, rd, nrd);
    DiffIs(r, nrd);
  }

  /** A sequence one shorter than x holding the neighbouring differences of x is Diff(x). */
  lemma DiffIs(x: seq<int>, y: seq<int>)
    requires |x| > 0 && |y| == |x| - 1
    requires forall j :: 0 <= j < |y| ==> y[j] == x[j + 1] - x[j]
    ensures Diff(x) == y
  {
    var d := Diff(x);
    assert |d| == |y|;
    forall j | 0 <= j < |y| ensures d[j] == y[j] {
    }
  }

  /** The negated mirror image of the differences holds the differences of the mirror image r. */
  lemma MirroredDiffs(s: seq<int>, r: seq<int>, d: seq<int>, rd: seq<int>, nrd: seq<int>)
    requires |r| == |s| && forall j :: 0 <= j < |s| ==> r[j] == s[|s| - 1 - j]
    requires |s| > 1 && |d| == |s| - 1 && forall j :: 0 <= j < |d| ==> d[j] == s[j + 1] - s[j]
    requires |rd| == |d| && forall j :: 0 <= j < |d| ==> rd[j] == d[|d| - 1 - j]
    requires |nrd| == |rd| && forall j :: 0 <= j < |rd| ==> nrd[j] == -rd[j]
    ensures |nrd| == |r| - 1 && forall j :: 0 <= j < |nrd| ==> nrd[j] == r[j + 1] - r[j]
  {
    forall k | 0 <= k < |nrd| ensures nrd[k] == r[k + 1] - r[k] {
      var i := |s| - 2 - k;
      assert r[k + 1] == s[i] && r[k] == s[i + 1];
    }
  }

  /** Extrapolating backwards is extrapolating the reversed history forwards. */
  lemma {:induction false} BackwardIsReversedForward(s: seq<int>)
    requires |s| > 0
    ensures Backward(s) == Forward(Reverse(s))
    decreases |s|
  {
    if |s| > 1 {
      var r := Reverse(s);
      DiffReverse(s);
      assert r[|r| - 1] == s[0];
      BackwardIsReversedForward(Diff(s));
      ForwardNegated(Reverse(Diff(s)));
    }
  }

  /** Part 2's prediction is part 1's prediction of the reversed history. */
  lemma PredictIsReversedForward(s: seq<int>)
    requires |s| > 0
    ensures Predict(s) == Some(Forward(Reverse(s)))
  {
    PredictIsBackward(s);
    BackwardIsReversedForward(s);
  }

  // ---- run -------------------------------------------------------------------

  /** The predictions of all histories, or None when one of them is empty. */
  function Predictions(histories: seq<seq<int>>): Option<seq<int>>
  {
    if |histories| == 0 then Some([])
    else
      var last := histories[|histories| - 1];
      var init := histories[..|histories| - 1];
      match (Predictions(init), Predict(last))
      case (Some(ps), Some(p)) => Some(ps + [p])
      case _ => None
  }

  /** Predictions exist exactly when no history is empty, and then they are the histories' predictions in order. */
  lemma PredictionsMeans(histories: seq<seq<int>>)
    ensures Predictions(histories).Some? <==> forall k :: 0 <= k < |histories| ==> |histories[k]| > 0
    ensures Predictions(histories).Some? ==> |Predictions(histories).value| == |histories|
    ensures Predictions(histories).Some? ==>
      forall k :: 0 <= k < |histories| ==> Predict(histories[k]) == Some(Predictions(histories).value[k])
  {
    PredictionsSome(histories);
    if Predictions(histories).Some? {
      PredictionsValues(histories);
    }
  }

  lemma PredictionsSome(histories: seq<seq<int>>)
    ensures Predictions(histories).Some? <==> forall k :: 0 <= k < |histories| ==> |histories[k]| > 0
  {
    if forall k :: 0 <= k < |histories| ==> |histories[k]| > 0 {
      PredictionsFromNonEmpty(histories);
    } else {
      var k :| 0 <= k < |histories| && |histories[k]| == 0;
      PredictionsFromEmpty(histories, k);
    }
  }

  lemma {:induction false} PredictionsFromNonEmpty(histories: seq<seq<int>>)
    requires forall k :: 0 <= k < |histories| ==> |histories[k]| > 0
    ensures Predictions(histories).Some?
  {
    if |histories| > 0 {
      var init := histories[..|histories| - 1];
      forall k | 0 <= k < |init| ensures |init[k]| > 0 {
        assert init[k] == histories[k];
      }
      PredictionsFromNonEmpty(init);
      PredictionsStep(histories);
    }
  }

  lemma {:induction false} PredictionsFromEmpty(histories: seq<seq<int>>, k: nat)
    requires k < |histories| && |histories[k]| == 0
    ensures Predictions(histories).None?
  {
    var init := histories[..|histories| - 1];
    PredictionsStep(histories);
    if k < |init| {
      assert init[k] == histories[k];
      PredictionsFromEmpty(init, k);
    }
  }

  lemma {:induction false} PredictionsValues(histories: seq<seq<int>>)
    requires Predictions(histories).Some?
    ensures |Predictions(histories).value| == |histories|
    ensures forall k :: 0 <= k < |histories| ==> Predict(histories[k]) == Some(Predictions(histories).value[k])
  {
    if |histories| > 0 {
      var init, last := histories[..|histories| - 1], histories[|histories| - 1];
      var v := Predictions(histories).value;
      PredictionsStep(histories);
      PredictionsValues(init);
      var vi := Predictions(init).value;
      assert v == vi + [Predict(last).value];
      forall k | 0 <= k < |histories| ensures Predict(histories[k]) == Some(v[k]) {
        if k < |init| {
          assert histories[k] == init[k] && v[k] == vi[k];
        } else {
          assert histories[k] == last && v[k] == Predict(last).value;
        }
      }
    }
  }

  /** One history more: its prediction is appended, or there are none. */
  lemma PredictionsStep(histories: seq<seq<int>>)
    requires |histories| > 0
    ensures var init, last := histories[..|histories| - 1], histories[|histories| - 1];
      (Predictions(histories).Some? <==> Predictions(init).Some? && |last| > 0) &&
      (Predictions(histories).Some? ==> Predictions(histories).value == Predictions(init).value + [Predict(last).value])
  {
  }

  /** run after parsing: the sum of the predictions of every history. */
  method SumOfPredictions(histories: seq<seq<int>>) returns (result: Option<int>)
    ensures Predictions(histories).None? ==> result.None?
    ensures Predictions(histories).Some? ==> result == Some(Sum(Predictions(histories).value))
  {
    var totals: seq<int> := [];
    var n := 0;
    while n < |histories|
      invariant 0 <= n <= |histories|
      invariant Predictions(histories[..n]) == Some(totals)
    {
      assert histories[..n + 1][..n] == histories[..n];
      var prediction := Predict(histories[n]);
      if prediction.None? {
        PredictionsMeans(histories);
        return None;
      }
      totals := totals + [prediction.value];
      n := n + 1;
    }
    assert histories[..n] == histories;
    result := Some(Sum(totals));
  }
}
