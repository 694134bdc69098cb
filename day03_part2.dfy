/**
 * Engine schematic gear ratios (day03/part2.py). The scan is the one of
 * part 1; a '*' symbol touching exactly two numbers is a gear, its ratio is
 * the product of the two, and the answer is the sum of all ratios, every
 * other symbol contributing 0.
 */
module Day03Gears {
  import opened Common
  import opened Day03Parts

  /** The indices, in ascending order, of those of the first n numbers that sym touches. */
  function AdjacentIndices(numbers: seq<Number>, sym: Symbol, n: nat): (idx: seq<nat>)
    requires n <= |numbers|
    ensures forall k :: 0 <= k < |idx| ==> idx[k] < n
  {
    if n == 0 then []
    else if Adjacent(numbers[n - 1], sym) then AdjacentIndices(numbers, sym, n - 1) + [n - 1]
    else AdjacentIndices(numbers, sym, n - 1)
  }

  /** adjacent_numbers: the touching numbers in the order of numbers. */
  function AdjacentOf(numbers: seq<Number>, sym: Symbol): seq<Number>
  {
    var idx := AdjacentIndices(numbers, sym, |numbers|);
    seq(|idx|, k requires 0 <= k < |idx| => numbers[idx[k]])
  }

  predicate Ascending(s: seq<nat>)
  {
    forall a, b :: 0 <= a < b < |s| ==> s[a] < s[b]
  }

  /** The index list holds each touching number once, in ascending order, and nothing else. */
  lemma {:induction false} AdjacentIndicesMeans(numbers: seq<Number>, sym: Symbol, n: nat)
    requires n <= |numbers|
    ensures Ascending(AdjacentIndices(numbers, sym, n))
    ensures forall j :: j in AdjacentIndices(numbers, sym, n) <==> 0 <= j < n && Adjacent(numbers[j], sym)
  {
    if n > 0 {
      AdjacentIndicesMeans(numbers, sym, n - 1);
      var prev := AdjacentIndices(numbers, sym, n - 1);
      var idx := AdjacentIndices(numbers, sym, n);
      if Adjacent(numbers[n - 1], sym) {
        assert idx == prev + [n - 1];
        forall a, b | 0 <= a < b < |idx|
          ensures idx[a] < idx[b]
        {
          if b < |prev| {
            assert idx[a] == prev[a] && idx[b] == prev[b];
          } else {
            assert idx[a] == prev[a] && prev[a] < n - 1;
          }
        }
      }
    }
  }

  /** The gear_ratio a symbol ends with. */
  function GearRatio(numbers: seq<Number>, sym: Symbol): nat
  {
    var adjacent := AdjacentOf(numbers, sym);
    if sym.value == '*' && |adjacent| == 2 then adjacent[0].value * adjacent[1].value else 0
  }

  /** A '*' touching exactly the two numbers i < j has their product as its ratio. */
  lemma GearRatioOfPair(numbers: seq<Number>, sym: Symbol, i: nat, j: nat)
    requires i < j < |numbers| && sym.value == '*'
    requires Adjacent(numbers[i], sym) && Adjacent(numbers[j], sym)
    requires forall k :: 0 <= k < |numbers| && Adjacent(numbers[k], sym) ==> k == i || k == j
    ensures GearRatio(numbers, sym) == numbers[i].value * numbers[j].value
  {
    PairIndices(numbers, sym, i, j, |numbers|);
  }

  lemma {:induction false} PairIndices(numbers: seq<Number>, sym: Symbol, i: nat, j: nat, n: nat)
    requires i < j < |numbers| && n <= |numbers|
    requires Adjacent(numbers[i], sym) && Adjacent(numbers[j], sym)
    requires forall k :: 0 <= k < |numbers| && Adjacent(numbers[k], sym) ==> k == i || k == j
    ensures AdjacentIndices(numbers, sym, n) == (if i < n then [i] else []) + (if j < n then [j] else [])
  {
    if n > 0 {
      PairIndices(numbers, sym, i, j, n - 1);
    }
  }

  /** A nonzero ratio belongs to a '*' touching exactly two numbers i < j, and is their product. */
  lemma GearRatioNonzero(numbers: seq<Number>, sym: Symbol)
    requires GearRatio(numbers, sym) != 0
    ensures sym.value == '*'
    ensures exists i, j ::
      (0 <= i < j < |numbers| && Adjacent(numbers[i], sym) && Adjacent(numbers[j], sym) &&
       (forall k :: 0 <= k < |numbers| && Adjacent(numbers[k], sym) ==> k == i || k == j) &&
       GearRatio(numbers, sym) == numbers[i].value * numbers[j].value)
  {
    var idx := AdjacentIndices(numbers, sym, |numbers|);
    AdjacentIndicesMeans(numbers, sym, |numbers|);
    assert |idx| == 2;
    var i, j := idx[0], idx[1];
    assert idx[0] in idx && idx[1] in idx;
    assert i < j;
    forall k | 0 <= k < |numbers| && Adjacent(numbers[k], sym)
      ensures k == i || k == j
    {
      assert k in idx;
    }
    assert GearRatio(numbers, sym) == numbers[i].value * numbers[j].value;
  }

  /** Any other symbol keeps ratio 0. */
  lemma GearRatioZero(numbers: seq<Number>, sym: Symbol)
    requires sym.value != '*' || |AdjacentIndices(numbers, sym, |numbers|)| != 2
    ensures GearRatio(numbers, sym) == 0
  {
  }

  /** The ratio of every symbol, in order. */
  function Ratios(numbers: seq<Number>, symbols: seq<Symbol>): (rs: seq<int>)
    ensures |rs| == |symbols|
  {
    if |symbols| == 0 then []
    else Ratios(numbers, symbols[..|symbols| - 1]) + [GearRatio(numbers, symbols[|symbols| - 1])]
  }

  /** The s-th ratio is the one of the s-th symbol. */
  lemma {:induction false} RatiosMeans(numbers: seq<Number>, symbols: seq<Symbol>)
    ensures forall s :: 0 <= s < |symbols| ==> Ratios(numbers, symbols)[s] == GearRatio(numbers, symbols[s])
  {
    if |symbols| > 0 {
      RatiosMeans(numbers, symbols[..|symbols| - 1]);
    }
  }

  /** No ratio is negative, so neither is their sum. */
  lemma RatiosSumNonNegative(numbers: seq<Number>, symbols: seq<Symbol>)
    ensures Sum(Ratios(numbers, symbols)) >= 0
  {
    RatiosMeans(numbers, symbols);
    SumNonNegative(Ratios(numbers, symbols));
  }

  /** The inner loop for one symbol: collects adjacent_numbers and sets the is_partnumber flags. */
  method CollectAdjacent(numbers: seq<Number>, sym: Symbol, isPart: array<bool>) returns (adjacent: seq<Number>)
    requires isPart.Length == |numbers|
    modifies isPart
    ensures adjacent == AdjacentOf(numbers, sym)
    ensures forall j :: 0 <= j < |numbers| ==> isPart[j] == (old(isPart[j]) || Adjacent(numbers[j], sym))
  {
    adjacent := [];
    ghost var idx: seq<nat> := [];
    var j := 0;
    while j < |numbers|
      invariant 0 <= j <= |numbers|
      invariant idx == AdjacentIndices(numbers, sym, j)
      invariant adjacent == seq(|idx|, k requires 0 <= k < |idx| => numbers[idx[k]])
      invariant forall i :: 0 <= i < j ==> isPart[i] == (old(isPart[i]) || Adjacent(numbers[i], sym))
      invariant forall i :: j <= i < |numbers| ==> isPart[i] == old(isPart[i])
    {
      var num := numbers[j];
      if !(num.y < sym.y - 1 || num.y > sym.y + 1) && !(num.x2 < sym.x - 1 || num.x1 > sym.x + 1) {
        isPart[j] := true;
        adjacent := adjacent + [num];
        idx := idx + [j];
      }
      j := j + 1;
    }
  }

  /** One more symbol adds its ratio. */
  lemma RatiosStep(numbers: seq<Number>, symbols: seq<Symbol>, s: nat)
    requires s < |symbols|
    ensures Ratios(numbers, symbols[..s + 1]) == Ratios(numbers, symbols[..s]) + [GearRatio(numbers, symbols[s])]
  {
    assert symbols[..s + 1][..s] == symbols[..s];
  }

  /** One more symbol touches the numbers it is adjacent to. */
  lemma TouchedStep(numbers: seq<Number>, symbols: seq<Symbol>, s: nat)
    requires s < |symbols|
    ensures forall j :: 0 <= j < |numbers| ==>
      Touched(numbers[j], symbols[..s + 1]) == (Touched(numbers[j], symbols[..s]) || Adjacent(numbers[j], symbols[s]))
  {
    assert symbols[..s + 1][..s] == symbols[..s];
  }

  /** The symbol loop: ratios[s] is the gear_ratio field of symbols[s], isPart[j] the flag of numbers[j]. */
  method GearRatios(numbers: seq<Number>, symbols: seq<Symbol>) returns (ratios: array<int>, isPart: array<bool>)
    ensures fresh(ratios) && fresh(isPart)
    ensures ratios.Length == |symbols| && isPart.Length == |numbers|
    ensures ratios[..] == Ratios(numbers, symbols)
    ensures forall j :: 0 <= j < |numbers| ==> isPart[j] == Touched(numbers[j], symbols)
  {
    ratios := new int[|symbols|](_ => 0);
    isPart := new bool[|numbers|](_ => false);
    var s := 0;
    while s < |symbols|
      invariant 0 <= s <= |symbols|
      invariant ratios[..s] == Ratios(numbers, symbols[..s])
      invariant forall k :: s <= k < |symbols| ==> ratios[k] == 0
      invariant forall j :: 0 <= j < |numbers| ==> isPart[j] == Touched(numbers[j], symbols[..s])
    {
      var sym := symbols[s];
      ghost var done := ratios[..s];
      var adjacent := CollectAdjacent(numbers, sym, isPart);
      if sym.value == '*' && |adjacent| == 2 {
        ratios[s] := adjacent[0].value * adjacent[1].value;
      }
      assert ratios[s] == GearRatio(numbers, sym);
      assert ratios[..s + 1] == done + [ratios[s]];
      RatiosStep(numbers, symbols, s);
      TouchedStep(numbers, symbols, s);
      s := s + 1;
    }
    assert symbols[..s] == symbols;
    assert ratios[..] == ratios[..s];
  }

  /** build_schematic after reading the lines: scan, compute the ratios, add them up. */
  method Run(lines: seq<string>) returns (total: int)
    ensures total == Sum(Ratios(AllNumbers(lines, |lines|), AllSymbols(lines, |lines|)))
    ensures total >= 0
  {
    var numbers, symbols := BuildSchematic(lines);
    var ratios, isPart := GearRatios(numbers, symbols);
    total := Sum(ratios[..]);
    RatiosSumNonNegative(numbers, symbols);
  }
}
