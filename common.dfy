/** Small shared vocabulary: optional values, sums, digits and string splitting. */
module Common {

  /** A value that may be absent. */
  datatype Option<T> = None | Some(value: T)

  /** A computation that either produces a value or fails with an error. */
  datatype Result<T, E> = Ok(value: T) | Err(error: E)

  /** The sum of a sequence of integers. */
  function Sum(s: seq<int>): int
  {
    if |s| == 0 then 0 else Sum(s[..|s| - 1]) + s[|s| - 1]
  }

  lemma {:induction false} SumAppend(s: seq<int>, t: seq<int>)
    ensures Sum(s + t) == Sum(s) + Sum(t)
    decreases |t|
  {
    if |t| == 0 {
      assert s + t == s;
    } else {
      assert (s + t)[..|s + t| - 1] == s + t[..|t| - 1];
      SumAppend(s, t[..|t| - 1]);
    }
  }

  lemma SumSingleton(x: int)
    ensures Sum([x]) == x
  {
    assert [x][..0] == [];
  }

  /** A sum of natural numbers is a natural number. */
  lemma {:induction false} SumNonNegative(s: seq<int>)
    requires forall k :: 0 <= k < |s| ==> s[k] >= 0
    ensures Sum(s) >= 0
    decreases |s|
  {
    if |s| > 0 {
      SumNonNegative(s[..|s| - 1]);
    }
  }

  /** A sum of n numbers, each in 0..bound, lies in 0..n * bound. */
  lemma {:induction false} SumBounded(s: seq<int>, bound: nat)
    requires forall k :: 0 <= k < |s| ==> 0 <= s[k] <= bound
    ensures 0 <= Sum(s) <= |s| * bound
  {
    if |s| > 0 {
      SumBounded(s[..|s| - 1], bound);
      assert (|s| - 1) * bound + bound == |s| * bound;
    }
  }

  /** The ASCII decimal digits '0' to '9'. */
  predicate IsDigit(c: char)
  {
    '0' <= c <= '9'
  }

  /** The value of one ASCII digit. */
  function DigitValue(c: char): (d: nat)
    requires IsDigit(c)
    ensures d <= 9
  {
    c as int - '0' as int
  }

  /** Every character of text is an ASCII digit. */
  predicate AllDigits(text: string)
  {
    forall k :: 0 <= k < |text| ==> IsDigit(text[k])
  }

  /** int() of a string of decimal digits. */
  function Decimal(text: string): nat
    requires AllDigits(text)
  {
    if |text| == 0 then 0 else Decimal(text[..|text| - 1]) * 10 + DigitValue(text[|text| - 1])
  }

  function Min(a: int, b: int): int
  {
    if a <= b then a else b
  }

  function Max(a: int, b: int): int
  {
    if a >= b then a else b
  }

  /** reversed(s): the elements of s in the opposite order. */
  function Reverse<T>(s: seq<T>): (r: seq<T>)
    ensures |r| == |s| && forall k :: 0 <= k < |s| ==> r[k] == s[|s| - 1 - k]
  {
    seq(|s|, k requires 0 <= k < |s| => s[|s| - 1 - k])
  }

  /** str.split(sep): the pieces between separators, at least one and possibly empty. */
  function Split(s: string, sep: char): (pieces: seq<string>)
    ensures |pieces| >= 1
    ensures forall k :: 0 <= k < |pieces| ==> sep !in pieces[k]
  {
    if |s| == 0 then [""]
    else
      var rest := Split(s[1..], sep);
      if s[0] == sep then [""] + rest
      else [[s[0]] + rest[0]] + rest[1..]
  }

  /** sep.join(pieces). */
  function Join(pieces: seq<string>, sep: char): string
    requires |pieces| >= 1
  {
    if |pieces| == 1 then pieces[0] else pieces[0] + [sep] + Join(pieces[1..], sep)
  }

  /** Joining the pieces back with the separator gives the string. */
  lemma {:induction false} JoinSplit(s: string, sep: char)
    ensures Join(Split(s, sep), sep) == s
    decreases |s|
  {
    if |s| > 0 {
      var rest := Split(s[1..], sep);
      JoinSplit(s[1..], sep);
      if s[0] == sep {
        assert ([""] + rest)[1..] == rest;
        assert s == "" + [sep] + s[1..];
      } else if |rest| == 1 {
        assert s == [s[0]] + rest[0];
      } else {
        JoinSplitCons(s, sep, rest);
      }
    }
  }

  lemma JoinSplitCons(s: string, sep: char, rest: seq<string>)
    requires |s| > 0 && s[0] != sep && |rest| > 1
    requires rest == Split(s[1..], sep) && Join(rest, sep) == s[1..]
    ensures Join(Split(s, sep), sep) == s
  {
    JoinRecons(s[0], rest, sep);
    assert s == [s[0]] + s[1..];
  }

  /** Gluing c to the front of the first piece glues it to the front of the join. */
  lemma JoinRecons(c: char, rest: seq<string>, sep: char)
    requires |rest| > 1
    ensures Join([[c] + rest[0]] + rest[1..], sep) == [c] + Join(rest, sep)
  {
    var ps := [[c] + rest[0]] + rest[1..];
    assert ps[1..] == rest[1..];
    var tail := Join(rest[1..], sep);
    JoinFront(ps, sep);
    JoinFront(rest, sep);
    assert ([c] + rest[0]) + [sep] + tail == [c] + (rest[0] + [sep] + tail);
  }

  lemma JoinFront(pieces: seq<string>, sep: char)
    requires |pieces| > 1
    ensures Join(pieces, sep) == pieces[0] + [sep] + Join(pieces[1..], sep)
  {
  }

  /** Pieces free of the separator are recovered by splitting their join. */
  lemma {:induction false} SplitJoin(pieces: seq<string>, sep: char)
    requires |pieces| >= 1
    requires forall k :: 0 <= k < |pieces| ==> sep !in pieces[k]
    ensures Split(Join(pieces, sep), sep) == pieces
    decreases |pieces|, |pieces[0]|
  {
    var p := pieces[0];
    if |pieces| == 1 {
      SplitNoSeparator(p, sep);
    } else {
      var tail := Join(pieces[1..], sep);
      if |p| == 0 {
        assert Join(pieces, sep) == [sep] + tail;
        assert Join(pieces, sep)[1..] == tail;
        SplitJoin(pieces[1..], sep);
        assert pieces == [""] + pieces[1..];
      } else {
        var shorter := [p[1..]] + pieces[1..];
        assert shorter[1..] == pieces[1..];
        assert forall k :: 1 <= k < |shorter| ==> shorter[k] == pieces[k];
        assert sep !in shorter[0];
        assert Join(pieces, sep)[0] == p[0];
        assert Join(pieces, sep)[1..] == Join(shorter, sep);
        SplitJoin(shorter, sep);
        assert [p[0]] + p[1..] == p;
        assert pieces == [[p[0]] + shorter[0]] + shorter[1..];
      }
    }
  }

  lemma {:induction false} SplitNoSeparator(p: string, sep: char)
    requires sep !in p
    ensures Split(p, sep) == [p]
    decreases |p|
  {
    if |p| > 0 {
      assert sep !in p[1..];
      SplitNoSeparator(p[1..], sep);
      assert [p[0]] + p[1..] == p;
    }
  }
}
