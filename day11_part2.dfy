/**
 * Cosmic expansion (day11/part2.py). Galaxies '#' are read from the image;
 * every row and column of the image without a galaxy is EXPANSION times
 * as wide, which the code realises by moving galaxies in place, one empty
 * column (then row) at a time. The answer sums the Manhattan distances of
 * all unordered pairs of galaxies.
 */
module Day11Expansion {
  import opened Common

  const EXPANSION: int := 1000000

  datatype Position = Position(x: int, y: int)

  // ---- reading the image ------------------------------------------------------

  /** The galaxies among the first n cells of line y, left to right. */
  function RowGalaxies(line: string, y: int, n: nat): (gs: seq<Position>)
    requires n <= |line|
    ensures forall k :: 0 <= k < |gs| ==> gs[k].y == y && 0 <= gs[k].x < n && line[gs[k].x] == '#'
  {
    if n == 0 then []
    else RowGalaxies(line, y, n - 1) + (if line[n - 1] == '#' then [Position(n - 1, y)] else [])
  }

  /** The galaxies of the first m rows, row by row. */
  function GalaxiesOf(rows: seq<string>, m: nat): (gs: seq<Position>)
    requires m <= |rows|
    ensures forall k :: 0 <= k < |gs| ==>
      0 <= gs[k].y < m && 0 <= gs[k].x < |rows[gs[k].y]| && rows[gs[k].y][gs[k].x] == '#'
  {
    if m == 0 then [] else GalaxiesOf(rows, m - 1) + RowGalaxies(rows[m - 1], m - 1, |rows[m - 1]|)
  }

  /** Every '#' of the image is a galaxy. */
  lemma {:induction false} EveryGalaxyRead(rows: seq<string>, m: nat, x: int, y: int)
    requires m <= |rows| && 0 <= y < m && 0 <= x < |rows[y]| && rows[y][x] == '#'
    ensures Position(x, y) in GalaxiesOf(rows, m)
    decreases m
  {
    if y < m - 1 {
      EveryGalaxyRead(rows, m - 1, x, y);
    } else {
      RowGalaxyRead(rows[y], y, |rows[y]|, x);
    }
  }

  lemma {:induction false} RowGalaxyRead(line: string, y: int, n: nat, x: int)
    requires n <= |line| && 0 <= x < n && line[x] == '#'
    ensures Position(x, y) in RowGalaxies(line, y, n)
    decreases n
  {
    if x < n - 1 {
      RowGalaxyRead(line, y, n - 1, x);
    }
  }

  /** Some galaxy of gs has column x. */
  predicate HasColumn(gs: seq<Position>, x: int)
  {
    exists k :: 0 <= k < |gs| && gs[k].x == x
  }

  /** Some galaxy of gs has row y. */
  predicate HasRow(gs: seq<Position>, y: int)
  {
    exists k :: 0 <= k < |gs| && gs[k].y == y
  }

  /** Adding a galaxy adds its column and its row and no other. */
  lemma HasAppend(gs: seq<Position>, p: Position)
    ensures forall c :: HasColumn(gs + [p], c) <==> HasColumn(gs, c) || c == p.x
    ensures forall v :: HasRow(gs + [p], v) <==> HasRow(gs, v) || v == p.y
  {
    var r := gs + [p];
    assert r[|gs|] == p;
    forall c | HasColumn(r, c) ensures HasColumn(gs, c) || c == p.x {
      var k :| 0 <= k < |r| && r[k].x == c;
      if k < |gs| {
        assert gs[k].x == c;
      }
    }
    forall v | HasRow(r, v) ensures HasRow(gs, v) || v == p.y {
      var k :| 0 <= k < |r| && r[k].y == v;
      if k < |gs| {
        assert gs[k].y == v;
      }
    }
    forall c | HasColumn(gs, c) ensures HasColumn(r, c) {
      var k :| 0 <= k < |gs| && gs[k].x == c;
      assert r[k].x == c;
    }
    forall v | HasRow(gs, v) ensures HasRow(r, v) {
      var k :| 0 <= k < |gs| && gs[k].y == v;
      assert r[k].y == v;
    }
  }

  /** The loop over the characters of line y. */
  method ScanLine(line: string, y: int, galaxies0: seq<Position>, occupiedRows0: seq<int>,
                  occupiedColumns0: seq<int>)
    returns (galaxies: seq<Position>, occupiedRows: seq<int>, occupiedColumns: seq<int>)
    requires forall c :: c in occupiedColumns0 <==> HasColumn(galaxies0, c)
    requires forall v :: v in occupiedRows0 <==> HasRow(galaxies0, v)
    ensures galaxies == galaxies0 + RowGalaxies(line, y, |line|)
    ensures forall c :: c in occupiedColumns <==> HasColumn(galaxies, c)
    ensures forall v :: v in occupiedRows <==> HasRow(galaxies, v)
  {
    galaxies, occupiedRows, occupiedColumns := galaxies0, occupiedRows0, occupiedColumns0;
    var x := 0;
    while x < |line|
      invariant 0 <= x <= |line|
      invariant galaxies == galaxies0 + RowGalaxies(line, y, x)
      invariant forall c :: c in occupiedColumns <==> HasColumn(galaxies, c)
      invariant forall v :: v in occupiedRows <==> HasRow(galaxies, v)
    {
      if line[x] == '#' {
        if x !in occupiedColumns {
          occupiedColumns := occupiedColumns + [x];
        }
        if y !in occupiedRows {
          occupiedRows := occupiedRows + [y];
        }
        HasAppend(galaxies, Position(x, y));
        galaxies := galaxies + [Position(x, y)];
      }
      x := x + 1;
    }
  }

  /**
   * The reading loop: galaxies in row-major order, the columns and rows
   * that hold one, the width of the last line and the number of lines.
   */
  method Scan(rows: seq<string>) returns (galaxies: seq<Position>, occupiedRows: seq<int>,
                                          occupiedColumns: seq<int>, width: nat, height: nat)
    ensures galaxies == GalaxiesOf(rows, |rows|)
    ensures forall x :: x in occupiedColumns <==> HasColumn(galaxies, x)
    ensures forall y :: y in occupiedRows <==> HasRow(galaxies, y)
    ensures height == |rows|
    ensures width == if |rows| == 0 then 0 else |rows[|rows| - 1]|
  {
    galaxies := [];
    occupiedRows := [];
    occupiedColumns := [];
    width := 0;
    height := 0;
    var y := 0;
    while y < |rows|
      invariant 0 <= y <= |rows|
      invariant height == y
      invariant width == if y == 0 then 0 else |rows[y - 1]|
      invariant galaxies == GalaxiesOf(rows, y)
      invariant forall x :: x in occupiedColumns <==> HasColumn(galaxies, x)
      invariant forall v :: v in occupiedRows <==> HasRow(galaxies, v)
    {
      var line := rows[y];
      height := height + 1;
      width := |line|;
      galaxies, occupiedRows, occupiedColumns := ScanLine(line, y, galaxies, occupiedRows, occupiedColumns);
      y := y + 1;
    }
  }

  /** [x for x in range(n) if x not in occupied]. */
  function EmptyIndices(n: int, occupied: seq<int>): seq<int>
    decreases if n < 0 then 0 else n
  {
    if n <= 0 then []
    else EmptyIndices(n - 1, occupied) + (if n - 1 in occupied then [] else [n - 1])
  }

  /** The comprehension lists, in ascending order, exactly the indices below n that are not occupied. */
  lemma {:induction false} EmptyIndicesMeans(n: int, occupied: seq<int>)
    ensures forall k :: 0 <= k < |EmptyIndices(n, occupied)| ==> 0 <= EmptyIndices(n, occupied)[k] < n
    ensures forall v :: v in EmptyIndices(n, occupied) <==> 0 <= v < n && v !in occupied
    ensures forall i, j :: 0 <= i < j < |EmptyIndices(n, occupied)| ==>
      EmptyIndices(n, occupied)[i] < EmptyIndices(n, occupied)[j]
    decreases if n < 0 then 0 else n
  {
    if n > 0 {
      EmptyIndicesMeans(n - 1, occupied);
    }
  }

  // ---- expansion, one empty line at a time ---------------------------------

  /**
   * Where the loop over empty[..i] leaves a coordinate v: the i-th empty
   * line, already moved by the i lines before it, moves everything at or
   * beyond it by EXPANSION - 1.
   */
  function Shifted(v: int, empty: seq<int>, i: nat): int
    requires i <= |empty|
  {
    if i == 0 then v
    else
      var c := Shifted(v, empty, i - 1);
      if c < empty[i - 1] + (i - 1) * (EXPANSION - 1) then c else c + (EXPANSION - 1)
  }

  /** How many of the first i empty lines lie below v. */
  function CountBelow(empty: seq<int>, i: nat, v: int): (c: nat)
    requires i <= |empty|
    ensures c <= i
  {
    if i == 0 then 0 else CountBelow(empty, i - 1, v) + (if empty[i - 1] < v then 1 else 0)
  }

  /**
   * With ascending empty lines and v not one of them, the loop moves v by
   * EXPANSION - 1 for every empty line below it.
   */
  lemma {:induction false} ShiftedClosedForm(v: int, empty: seq<int>, i: nat)
    requires i <= |empty|
    requires forall a, b :: 0 <= a < b < |empty| ==> empty[a] < empty[b]
    requires v !in empty
    ensures Shifted(v, empty, i) == v + (EXPANSION - 1) * CountBelow(empty, i, v)
    decreases i
  {
    if i > 0 {
      ShiftedClosedForm(v, empty, i - 1);
      var e := empty[i - 1];
      var c := CountBelow(empty, i - 1, v);
      if e < v {
        assert c == i - 1 by {
          AllBelowCounted(empty, i - 1, v);
        }
      } else {
        assert e != v;
      }
    }
  }

  lemma {:induction false} AllBelowCounted(empty: seq<int>, i: nat, v: int)
    requires i < |empty|
    requires forall a, b :: 0 <= a < b < |empty| ==> empty[a] < empty[b]
    requires empty[i] < v
    ensures CountBelow(empty, i, v) == i
    decreases i
  {
    if i > 0 {
      AllBelowCounted(empty, i - 1, v);
    }
  }

  lemma {:induction false} CountBelowMonotone(empty: seq<int>, i: nat, v: int, w: int)
    requires i <= |empty| && v <= w
    ensures CountBelow(empty, i, v) <= CountBelow(empty, i, w)
    decreases i
  {
    if i > 0 {
      CountBelowMonotone(empty, i - 1, v, w);
    }
  }

  /** Expansion is order-preserving: coordinates keep their order and ties stay ties. */
  lemma ShiftedMonotone(v: int, w: int, empty: seq<int>)
    requires forall a, b :: 0 <= a < b < |empty| ==> empty[a] < empty[b]
    requires v !in empty && w !in empty
    ensures v < w ==> Shifted(v, empty, |empty|) < Shifted(w, empty, |empty|)
    ensures v == w ==> Shifted(v, empty, |empty|) == Shifted(w, empty, |empty|)
  {
    ShiftedClosedForm(v, empty, |empty|);
    ShiftedClosedForm(w, empty, |empty|);
    if v < w {
      CountBelowMonotone(empty, |empty|, v, w);
    }
  }

  /**
   * The distance of two expanded coordinates is their original distance
   * plus EXPANSION - 1 for every empty line between them.
   */
  lemma ExpandedGap(v: int, w: int, empty: seq<int>)
    requires forall a, b :: 0 <= a < b < |empty| ==> empty[a] < empty[b]
    requires v !in empty && w !in empty && v <= w
    ensures Shifted(w, empty, |empty|) - Shifted(v, empty, |empty|) ==
      (w - v) + (EXPANSION - 1) * (CountBelow(empty, |empty|, w) - CountBelow(empty, |empty|, v))
  {
    ShiftedClosedForm(v, empty, |empty|);
    ShiftedClosedForm(w, empty, |empty|);
  }

  /** A galaxy after both expansion loops. */
  function Expand(g: Position, emptyColumns: seq<int>, emptyRows: seq<int>): Position
  {
    Position(Shifted(g.x, emptyColumns, |emptyColumns|), Shifted(g.y, emptyRows, |emptyRows|))
  }

  /** One pass of the column loop: galaxies at or beyond the i-th empty column move right. */
  method ExpandColumns(galaxies: array<Position>, emptyColumns: seq<int>)
    modifies galaxies
    ensures forall k :: 0 <= k < galaxies.Length ==>
      galaxies[k] == old(galaxies[k]).(x := Shifted(old(galaxies[k]).x, emptyColumns, |emptyColumns|))
  {
    ghost var original := galaxies[..];
    var i := 0;
    while i < |emptyColumns|
      invariant 0 <= i <= |emptyColumns|
      invariant forall k :: 0 <= k < galaxies.Length ==>
        galaxies[k] == original[k].(x := Shifted(original[k].x, emptyColumns, i))
    {
      var x := emptyColumns[i];
      var k := 0;
      while k < galaxies.Length
        invariant 0 <= k <= galaxies.Length
        invariant forall j :: 0 <= j < k ==>
          galaxies[j] == original[j].(x := Shifted(original[j].x, emptyColumns, i + 1))
        invariant forall j :: k <= j < galaxies.Length ==>
          galaxies[j] == original[j].(x := Shifted(original[j].x, emptyColumns, i))
      {
        if galaxies[k].x >= x + i * (EXPANSION - 1) {
          galaxies[k] := galaxies[k].(x := galaxies[k].x + (EXPANSION - 1));
        }
        k := k + 1;
      }
      i := i + 1;
    }
  }

  /** The row loop, the same on y. */
  method ExpandRows(galaxies: array<Position>, emptyRows: seq<int>)
    modifies galaxies
    ensures forall k :: 0 <= k < galaxies.Length ==>
      galaxies[k] == old(galaxies[k]).(y := Shifted(old(galaxies[k]).y, emptyRows, |emptyRows|))
  {
    ghost var original := galaxies[..];
    var i := 0;
    while i < |emptyRows|
      invariant 0 <= i <= |emptyRows|
      invariant forall k :: 0 <= k < galaxies.Length ==>
        galaxies[k] == original[k].(y := Shifted(original[k].y, emptyRows, i))
    {
      var y := emptyRows[i];
      var k := 0;
      while k < galaxies.Length
        invariant 0 <= k <= galaxies.Length
        invariant forall j :: 0 <= j < k ==>
          galaxies[j] == original[j].(y := Shifted(original[j].y, emptyRows, i + 1))
        invariant forall j :: k <= j < galaxies.Length ==>
          galaxies[j] == original[j].(y := Shifted(original[j].y, emptyRows, i))
      {
        if galaxies[k].y >= y + i * (EXPANSION - 1) {
          galaxies[k] := galaxies[k].(y := galaxies[k].y + (EXPANSION - 1));
        }
        k := k + 1;
      }
      i := i + 1;
    }
  }

  // ---- distances ----------------------------------------------------------

  function Abs(v: int): nat
  {
    if v < 0 then -v else v
  }

  /** abs(a.x - b.x) + abs(a.y - b.y). */
  function Distance(a: Position, b: Position): nat
  {
    Abs(a.x - b.x) + Abs(a.y - b.y)
  }

  /** The distances from a to every galaxy of rest, in order. */
  function DistancesFrom(a: Position, rest: seq<Position>): (ds: seq<int>)
    ensures |ds| == |rest|
    ensures forall j :: 0 <= j < |rest| ==> ds[j] == Distance(a, rest[j])
  {
    if |rest| == 0 then [] else [Distance(a, rest[0])] + DistancesFrom(a, rest[1..])
  }

  /** The distances list of run: pairs (i, j) with i < j, i outermost. */
  function AllDistances(gs: seq<Position>): seq<int>
  {
    if |gs| == 0 then [] else DistancesFrom(gs[0], gs[1..]) + AllDistances(gs[1..])
  }

  /** There is one distance per unordered pair: n(n-1)/2 of them. */
  lemma {:induction false} AllDistancesCount(gs: seq<Position>)
    ensures 2 * |AllDistances(gs)| == |gs| * (|gs| - 1)
    decreases |gs|
  {
    if |gs| > 0 {
      AllDistancesCount(gs[1..]);
      var n := |gs| - 1;
      assert 2 * |AllDistances(gs)| == 2 * n + n * (n - 1);
      assert (n + 1) * n == 2 * n + n * (n - 1);
    }
  }

  /** The sum over pairs (i, j), i < j, grouped by the later galaxy j instead. */
  function PairTotal(gs: seq<Position>): int
  {
    if |gs| == 0 then 0
    else PairTotal(gs[..|gs| - 1]) + Sum(DistancesFrom(gs[|gs| - 1], gs[..|gs| - 1]))
  }

  lemma DistancesFromSnoc(a: Position, s: seq<Position>, z: Position)
    ensures Sum(DistancesFrom(a, s + [z])) == Sum(DistancesFrom(a, s)) + Distance(a, z)
  {
    DistancesFromAppend(a, s, z);
    SumAppend(DistancesFrom(a, s), [Distance(a, z)]);
    SumSingleton(Distance(a, z));
  }

  lemma DistancesFromAppend(a: Position, s: seq<Position>, z: Position)
    ensures DistancesFrom(a, s + [z]) == DistancesFrom(a, s) + [Distance(a, z)]
  {
  }

  /** One more galaxy in the inner loop appends its distance. */
  lemma DistancesStep(done: seq<int>, a: Position, galaxies: seq<Position>, from: nat, j: nat)
    requires from <= j < |galaxies|
    ensures done + DistancesFrom(a, galaxies[from..j + 1]) ==
      (done + DistancesFrom(a, galaxies[from..j])) + [Distance(a, galaxies[j])]
  {
    assert galaxies[from..j + 1] == galaxies[from..j] + [galaxies[j]];
    DistancesFromAppend(a, galaxies[from..j], galaxies[j]);
  }

  lemma SumCons(x: int, s: seq<int>)
    ensures Sum([x] + s) == x + Sum(s)
  {
    SumAppend([x], s);
    SumSingleton(x);
  }

  /** One more galaxy at the end adds its distances to all galaxies before it. */
  lemma {:induction false} AllDistancesSnoc(gs: seq<Position>, z: Position)
    ensures Sum(AllDistances(gs + [z])) == Sum(AllDistances(gs)) + Sum(DistancesFrom(z, gs))
    decreases |gs|
  {
    if |gs| == 0 {
      assert AllDistances([z]) == DistancesFrom(z, []) + AllDistances([]);
    } else {
      var g := gs[0];
      var rest := gs[1..];
      assert (gs + [z])[0] == g && (gs + [z])[1..] == rest + [z];
      AllDistancesSnoc(rest, z);
      SumAppend(DistancesFrom(g, rest + [z]), AllDistances(rest + [z]));
      SumAppend(DistancesFrom(g, rest), AllDistances(rest));
      DistancesFromSnoc(g, rest, z);
      assert DistancesFrom(z, gs) == [Distance(z, g)] + DistancesFrom(z, rest);
      SumCons(Distance(z, g), DistancesFrom(z, rest));
    }
  }

  /** Summing the distances in the order run produces them gives the pairwise total. */
  lemma {:induction false} SumAllDistances(gs: seq<Position>)
    ensures Sum(AllDistances(gs)) == PairTotal(gs)
    decreases |gs|
  {
    if |gs| > 0 {
      var init := gs[..|gs| - 1];
      SumAllDistances(init);
      assert gs == init + [gs[|gs| - 1]];
      AllDistancesSnoc(init, gs[|gs| - 1]);
    }
  }

  /** The inner distance loop: galaxy a against every galaxy from index from on. */
  method AddDistances(distances0: seq<int>, a: Position, galaxies: seq<Position>, from: nat)
    returns (distances: seq<int>)
    requires from <= |galaxies|
    ensures distances == distances0 + DistancesFrom(a, galaxies[from..])
  {
    distances := distances0;
    var j := from;
    while j < |galaxies|
      invariant from <= j <= |galaxies|
      invariant distances == distances0 + DistancesFrom(a, galaxies[from..j])
    {
      var distance := Abs(a.x - galaxies[j].x) + Abs(a.y - galaxies[j].y);
      DistancesStep(distances0, a, galaxies, from, j);
      distances := distances + [distance];
      j := j + 1;
    }
    assert galaxies[from..j] == galaxies[from..];
  }

  lemma AllDistancesStep(gs: seq<Position>, i: nat, done: seq<int>)
    requires i < |gs|
    ensures done + AllDistances(gs[i..]) ==
      (done + DistancesFrom(gs[i], gs[i + 1..])) + AllDistances(gs[i + 1..])
  {
    assert gs[i..][1..] == gs[i + 1..];
  }

  /** The distance loops of run. */
  method TotalDistance(galaxies: seq<Position>) returns (result: int)
    ensures result == Sum(AllDistances(galaxies))
  {
    var distances: seq<int> := [];
    var i := 0;
    while i < |galaxies|
      invariant 0 <= i <= |galaxies|
      invariant distances + AllDistances(galaxies[i..]) == AllDistances(galaxies)
    {
      AllDistancesStep(galaxies, i, distances);
      distances := AddDistances(distances, galaxies[i], galaxies, i + 1);
      i := i + 1;
    }
    assert galaxies[i..] == [];
    assert distances + [] == distances;
    result := Sum(distances);
  }

  // ---- run ------------------------------------------------------------------

  /** The column of every galaxy. */
  function Columns(gs: seq<Position>): (xs: seq<int>)
    ensures forall x :: x in xs <==> HasColumn(gs, x)
  {
    var xs := seq(|gs|, k requires 0 <= k < |gs| => gs[k].x);
    assert forall x :: HasColumn(gs, x) ==> x in xs by {
      forall x | HasColumn(gs, x) ensures x in xs {
        var k :| 0 <= k < |gs| && gs[k].x == x;
        assert xs[k] == x;
      }
    }
    xs
  }

  /** The row of every galaxy. */
  function Rows(gs: seq<Position>): (ys: seq<int>)
    ensures forall y :: y in ys <==> HasRow(gs, y)
  {
    var ys := seq(|gs|, k requires 0 <= k < |gs| => gs[k].y);
    assert forall y :: HasRow(gs, y) ==> y in ys by {
      forall y | HasRow(gs, y) ensures y in ys {
        var k :| 0 <= k < |gs| && gs[k].y == y;
        assert ys[k] == y;
      }
    }
    ys
  }

  /** Only membership in the occupied list matters to the comprehension. */
  lemma {:induction false} EmptyIndicesMembership(n: int, a: seq<int>, b: seq<int>)
    requires forall v :: v in a <==> v in b
    ensures EmptyIndices(n, a) == EmptyIndices(n, b)
    decreases if n < 0 then 0 else n
  {
    if n > 0 {
      EmptyIndicesMembership(n - 1, a, b);
    }
  }

  /** The width run ends with: the length of the last line. */
  function Width(rows: seq<string>): nat
  {
    if |rows| == 0 then 0 else |rows[|rows| - 1]|
  }

  function EmptyColumnsOf(rows: seq<string>): seq<int>
  {
    EmptyIndices(Width(rows), Columns(GalaxiesOf(rows, |rows|)))
  }

  function EmptyRowsOf(rows: seq<string>): seq<int>
  {
    EmptyIndices(|rows|, Rows(GalaxiesOf(rows, |rows|)))
  }

  /** The galaxies of the image after both expansion loops. */
  function ExpandedGalaxies(rows: seq<string>): (gs: seq<Position>)
    ensures |gs| == |GalaxiesOf(rows, |rows|)|
  {
    var original := GalaxiesOf(rows, |rows|);
    seq(|original|, k requires 0 <= k < |original| => Expand(original[k], EmptyColumnsOf(rows), EmptyRowsOf(rows)))
  }

  /**
   * After expansion every galaxy has moved right by EXPANSION - 1 for every
   * empty column left of it and down by EXPANSION - 1 for every empty row
   * above it.
   */
  lemma ExpandedGalaxiesMeans(rows: seq<string>, k: nat)
    requires k < |GalaxiesOf(rows, |rows|)|
    ensures ExpandedGalaxies(rows)[k].x == GalaxiesOf(rows, |rows|)[k].x +
      (EXPANSION - 1) * CountBelow(EmptyColumnsOf(rows), |EmptyColumnsOf(rows)|, GalaxiesOf(rows, |rows|)[k].x)
    ensures ExpandedGalaxies(rows)[k].y == GalaxiesOf(rows, |rows|)[k].y +
      (EXPANSION - 1) * CountBelow(EmptyRowsOf(rows), |EmptyRowsOf(rows)|, GalaxiesOf(rows, |rows|)[k].y)
  {
    var gs := GalaxiesOf(rows, |rows|);
    assert HasColumn(gs, gs[k].x) && HasRow(gs, gs[k].y);
    EmptyIndicesMeans(Width(rows), Columns(gs));
    EmptyIndicesMeans(|rows|, Rows(gs));
    ShiftedClosedForm(gs[k].x, EmptyColumnsOf(rows), |EmptyColumnsOf(rows)|);
    ShiftedClosedForm(gs[k].y, EmptyRowsOf(rows), |EmptyRowsOf(rows)|);
  }

  /** The answer of run after reading the image lines. */
  method Run(rows: seq<string>) returns (result: int)
    ensures result == PairTotal(ExpandedGalaxies(rows))
  {
    var galaxies, occupiedRows, occupiedColumns, width, height := Scan(rows);
    var emptyColumns := EmptyIndices(width, occupiedColumns);
    var emptyRows := EmptyIndices(height, occupiedRows);
    EmptyIndicesMeans(width, occupiedColumns);
    EmptyIndicesMeans(height, occupiedRows);
    EmptyIndicesMembership(width, occupiedColumns, Columns(galaxies));
    EmptyIndicesMembership(height, occupiedRows, Rows(galaxies));
    var positions := new Position[|galaxies|](k requires 0 <= k < |galaxies| => galaxies[k]);
    ExpandColumns(positions, emptyColumns);
    ExpandRows(positions, emptyRows);
    assert positions[..] == ExpandedGalaxies(rows);
    result := TotalDistance(positions[..]);
    SumAllDistances(positions[..]);
  }
}
