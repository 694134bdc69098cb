/**
 * Tilting the platform north and weighing it (day14/part1.py). The
 * columns of the platform are read top to bottom. Each column is cut at
 * its cube rocks '#'; in every piece the round rocks 'O' roll to the top.
 * A round rock at index p of a column of length n carries load n - p,
 * and a piece whose top carries load `start` and holds r round rocks adds
 * start + (start - 1) + ... + (start - r + 1), which the code computes in
 * closed form.
 */
module Day14Tilt {
  import opened Common
  import Day13Mirrors

  // ---- one piece between cube rocks ---------------------------------------

  /** The number of round rocks in s: space.count("O"). */
  function Rocks(s: string): (r: nat)
    ensures r <= |s|
  {
    if |s| == 0 then 0 else (if s[0] == 'O' then 1 else 0) + Rocks(s[1..])
  }

  /** n copies of c. */
  function Repeat(c: char, n: nat): (s: string)
    ensures |s| == n
    ensures forall i :: 0 <= i < n ==> s[i] == c
  {
    if n == 0 then [] else [c] + Repeat(c, n - 1)
  }

  /** ("O" * rocks).ljust(len(space), "."): the round rocks at the top of the piece. */
  function TiltPiece(space: string): string
  {
    Repeat('O', Rocks(space)) + Repeat('.', |space| - Rocks(space))
  }

  lemma {:induction false} RocksAppend(a: string, b: string)
    ensures Rocks(a + b) == Rocks(a) + Rocks(b)
    decreases |a|
  {
    if |a| == 0 {
      assert a + b == b;
    } else {
      assert (a + b)[1..] == a[1..] + b;
      RocksAppend(a[1..], b);
    }
  }

  lemma {:induction false} RocksRepeat(c: char, n: nat)
    ensures Rocks(Repeat(c, n)) == if c == 'O' then n else 0
    decreases n
  {
    if n > 0 {
      assert Repeat(c, n)[1..] == Repeat(c, n - 1);
      RocksRepeat(c, n - 1);
    }
  }

  /**
   * A tilted piece keeps its length and its number of round rocks, has no
   * cube rock, and every round rock lies above every empty cell.
   */
  lemma TiltPieceShape(space: string)
    ensures |TiltPiece(space)| == |space|
    ensures Rocks(TiltPiece(space)) == Rocks(space)
    ensures '#' !in TiltPiece(space)
    ensures forall i, j :: 0 <= i < j < |space| && TiltPiece(space)[j] == 'O' ==> TiltPiece(space)[i] == 'O'
  {
    var r := Rocks(space);
    RocksAppend(Repeat('O', r), Repeat('.', |space| - r));
    RocksRepeat('O', r);
    RocksRepeat('.', |space| - r);
  }

  // ---- a whole column -------------------------------------------------------

  /** Every piece of the column tilted. */
  function TiltPieces(pieces: seq<string>): (ts: seq<string>)
    ensures |ts| == |pieces|
    ensures forall k :: 0 <= k < |pieces| ==> ts[k] == TiltPiece(pieces[k])
  {
    if |pieces| == 0 then [] else [TiltPiece(pieces[0])] + TiltPieces(pieces[1..])
  }

  /** "#".join(shifted): the column after tilting north. */
  function Tilt(column: string): string
  {
    Join(TiltPieces(Split(column, '#')), '#')
  }

  /** Two joins of pieces of equal lengths, none holding '#', have '#' at the same places. */
  lemma {:induction false} JoinSameShape(ps: seq<string>, qs: seq<string>)
    requires |ps| == |qs| >= 1
    requires forall k :: 0 <= k < |ps| ==> |ps[k]| == |qs[k]| && '#' !in ps[k] && '#' !in qs[k]
    ensures |Join(ps, '#')| == |Join(qs, '#')|
    ensures forall i :: 0 <= i < |Join(ps, '#')| ==> (Join(ps, '#')[i] == '#' <==> Join(qs, '#')[i] == '#')
    decreases |ps|
  {
    if |ps| > 1 {
      JoinSameShape(ps[1..], qs[1..]);
      var a := Join(ps, '#');
      var b := Join(qs, '#');
      var n := |ps[0]|;
      forall i | 0 <= i < |a| ensures a[i] == '#' <==> b[i] == '#' {
        if i < n {
          assert a[i] == ps[0][i] && b[i] == qs[0][i];
        } else if i > n {
          assert a[i] == Join(ps[1..], '#')[i - n - 1];
          assert b[i] == Join(qs[1..], '#')[i - n - 1];
        }
      }
    }
  }

  /**
   * Tilting keeps the column's length and every cube rock where it is, and
   * the pieces between cube rocks are exactly the tilted pieces, so each
   * piece keeps its number of round rocks and has them on top.
   */
  lemma TiltShape(column: string)
    ensures |Tilt(column)| == |column|
    ensures forall i :: 0 <= i < |column| ==> (Tilt(column)[i] == '#' <==> column[i] == '#')
    ensures Split(Tilt(column), '#') == TiltPieces(Split(column, '#'))
  {
    var ps := Split(column, '#');
    var ts := TiltPieces(ps);
    forall k | 0 <= k < |ps| ensures |ps[k]| == |ts[k]| && '#' !in ts[k] {
      TiltPieceShape(ps[k]);
    }
    JoinSameShape(ps, ts);
    JoinSplit(column, '#');
    SplitJoin(ts, '#');
  }

  /** Tilting twice is tilting once. */
  lemma TiltIdempotent(column: string)
    ensures Tilt(Tilt(column)) == Tilt(column)
  {
    TiltShape(column);
    var ts := TiltPieces(Split(column, '#'));
    assert TiltPieces(ts) == ts by {
      forall k | 0 <= k < |ts| ensures TiltPiece(ts[k]) == ts[k] {
        TiltPieceFixed(Split(column, '#')[k]);
      }
    }
  }

  lemma TiltPieceFixed(space: string)
    ensures TiltPiece(TiltPiece(space)) == TiltPiece(space)
  {
    TiltPieceShape(space);
  }

  // ---- load -----------------------------------------------------------------

  /** The load of the round rocks of t when its first cell carries load top and each next one one less. */
  function Weight(t: string, top: int): int
  {
    if |t| == 0 then 0 else (if t[0] == 'O' then top else 0) + Weight(t[1..], top - 1)
  }

  /** The load of a column: every round rock at index p carries len(column) - p. */
  function NorthLoad(column: string): int
  {
    Weight(column, |column|)
  }

  lemma {:induction false} WeightAppend(a: string, b: string, top: int)
    ensures Weight(a + b, top) == Weight(a, top) + Weight(b, top - |a|)
    decreases |a|
  {
    if |a| == 0 {
      assert a + b == b;
    } else {
      assert (a + b)[1..] == a[1..] + b;
      WeightAppend(a[1..], b, top - 1);
    }
  }

  /** start + (start - 1) + ... + (start - rocks + 1). */
  function Gauss(rocks: nat, start: int): int
  {
    if rocks == 0 then 0 else start + Gauss(rocks - 1, start - 1)
  }

  /** rocks * (2 * start - rocks + 1) is twice the sum. */
  lemma {:induction false} GaussDouble(rocks: nat, start: int)
    ensures 2 * Gauss(rocks, start) == rocks * (start * 2 - rocks + 1)
    decreases rocks
  {
    if rocks > 0 {
      var r := rocks - 1;
      GaussDouble(r, start - 1);
      var m := start * 2 - r;
      assert (start - 1) * 2 - r + 1 == m - 1;
      assert start * 2 - rocks + 1 == m;
      assert r * (m - 1) == r * m - r;
      assert (r + 1) * m == r * m + m;
    }
  }

  /** The product in run is even, so its halving is exact and gives the sum. */
  lemma GaussClosedForm(rocks: nat, start: int)
    ensures (rocks * (start * 2 - rocks + 1)) % 2 == 0
    ensures (rocks * (start * 2 - rocks + 1)) / 2 == Gauss(rocks, start)
  {
    GaussDouble(rocks, start);
    var x := rocks * (start * 2 - rocks + 1);
    assert x == 2 * Gauss(rocks, start);
  }

  lemma {:induction false} WeightRepeat(c: char, n: nat, top: int)
    ensures Weight(Repeat(c, n), top) == if c == 'O' then Gauss(n, top) else 0
    decreases n
  {
    if n > 0 {
      assert Repeat(c, n)[1..] == Repeat(c, n - 1);
      WeightRepeat(c, n - 1, top - 1);
    }
  }

  /** A tilted piece whose top carries load start weighs the Gaussian sum of its rocks. */
  lemma WeightTiltPiece(space: string, start: int)
    ensures Weight(TiltPiece(space), start) == Gauss(Rocks(space), start)
  {
    var r := Rocks(space);
    WeightAppend(Repeat('O', r), Repeat('.', |space| - r), start);
    WeightRepeat('O', r, start);
    WeightRepeat('.', |space| - r, start - r);
  }

  /** What the loop over the pieces adds up, the first piece's top carrying load start. */
  function PiecesLoad(pieces: seq<string>, start: int): int
  {
    if |pieces| == 0 then 0
    else Gauss(Rocks(pieces[0]), start) + PiecesLoad(pieces[1..], start - |pieces[0]| - 1)
  }

  /** The pieces' closed-form sums are the weight of the joined, tilted pieces. */
  lemma {:induction false} PiecesLoadIsWeight(pieces: seq<string>, start: int)
    requires |pieces| >= 1
    ensures PiecesLoad(pieces, start) == Weight(Join(TiltPieces(pieces), '#'), start)
    decreases |pieces|
  {
    var ts := TiltPieces(pieces);
    WeightTiltPiece(pieces[0], start);
    TiltPieceShape(pieces[0]);
    if |pieces| == 1 {
      assert PiecesLoad(pieces[1..], start - |pieces[0]| - 1) == 0;
    } else {
      assert ts[1..] == TiltPieces(pieces[1..]);
      var rest := Join(ts[1..], '#');
      PiecesLoadIsWeight(pieces[1..], start - |pieces[0]| - 1);
      WeightAppend(ts[0], ['#'] + rest, start);
      assert ts[0] + ['#'] + rest == ts[0] + (['#'] + rest);
      assert (['#'] + rest)[1..] == rest;
    }
  }

  /** The load run computes for a column is the load of the tilted column. */
  lemma ColumnLoadCorrect(column: string)
    ensures PiecesLoad(Split(column, '#'), |column|) == NorthLoad(Tilt(column))
  {
    PiecesLoadIsWeight(Split(column, '#'), |column|);
    TiltShape(column);
  }

  /** One piece more: its tilted form is appended and its load is taken off the rest. */
  lemma ColumnStep(spaces: seq<string>, n: nat, start: int)
    requires n < |spaces|
    ensures TiltPieces(spaces[..n + 1]) == TiltPieces(spaces[..n]) + [TiltPiece(spaces[n])]
    ensures PiecesLoad(spaces[n..], start) ==
      Gauss(Rocks(spaces[n]), start) + PiecesLoad(spaces[n + 1..], start - (|spaces[n]| + 1))
  {
    assert spaces[n..][1..] == spaces[n + 1..];
    assert spaces[..n + 1] == spaces[..n] + [spaces[n]];
  }

  /**
   * The body of the loop over columns in run: the pieces between cube rocks
   * are tilted one by one, each adding its closed-form load, while
   * load_start steps past the piece and the '#' after it.
   */
  method ColumnLoad(column: string) returns (shifted: string, load: int)
    ensures shifted == Tilt(column)
    ensures load == NorthLoad(Tilt(column))
  {
    var spaces := Split(column, '#');
    var pieces: seq<string> := [];
    load := 0;
    var loadStart := |column|;
    var n := 0;
    while n < |spaces|
      invariant 0 <= n <= |spaces|
      invariant pieces == TiltPieces(spaces[..n])
      invariant load + PiecesLoad(spaces[n..], loadStart) == PiecesLoad(spaces, |column|)
    {
      var space := spaces[n];
      var rocks := Rocks(space);
      pieces := pieces + [Repeat('O', rocks) + Repeat('.', |space| - rocks)];
      var gain := (rocks * (loadStart * 2 - rocks + 1)) / 2;
      GaussClosedForm(rocks, loadStart);
      assert gain == Gauss(rocks, loadStart);
      ColumnStep(spaces, n, loadStart);
      load := load + gain;
      loadStart := loadStart - (|space| + 1);
      n := n + 1;
    }
    assert spaces[..n] == spaces;
    shifted := Join(pieces, '#');
    ColumnLoadCorrect(column);
  }

  // ---- the platform -------------------------------------------------------

  /** The load of every column of the north-tilted platform, added up. */
  function TotalLoad(columns: seq<string>): int
  {
    if |columns| == 0 then 0 else NorthLoad(Tilt(columns[0])) + TotalLoad(columns[1..])
  }

  /** Weights are never negative when the top carries at least the length. */
  lemma {:induction false} WeightNonNegative(t: string, top: int)
    requires top >= |t|
    ensures Weight(t, top) >= 0
    decreases |t|
  {
    if |t| > 0 {
      WeightNonNegative(t[1..], top - 1);
    }
  }

  /**
   * run after reading the rows: transpose the platform into its columns
   * (an IndexError when there are no rows or a row is shorter than the
   * first), then add up every tilted column's load.
   */
  method PlatformLoad(shape: seq<string>) returns (total: Option<int>)
    ensures total.Some? <==> |shape| > 0 && Day13Mirrors.Covers(shape, |shape[0]|)
    ensures total.Some? ==> total.value == TotalLoad(Day13Mirrors.Transposed(shape, |shape[0]|))
    ensures total.Some? ==> total.value >= 0
  {
    if |shape| == 0 {
      return None;
    }
    var transposed := Day13Mirrors.Transpose(shape, |shape[0]|);
    if transposed.None? {
      return None;
    }
    var columns := transposed.value;
    var totalLoad := 0;
    var n := 0;
    while n < |columns|
      invariant 0 <= n <= |columns|
      invariant totalLoad >= 0
      invariant totalLoad + TotalLoad(columns[n..]) == TotalLoad(columns)
    {
      var shifted, load := ColumnLoad(columns[n]);
      TiltShape(columns[n]);
      WeightNonNegative(shifted, |shifted|);
      assert columns[n..][1..] == columns[n + 1..];
      totalLoad := totalLoad + load;
      n := n + 1;
    }
    total := Some(totalLoad);
  }
}
