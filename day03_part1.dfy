/**
 * Engine schematic part numbers (day03/part1.py). Every line of the file is
 * scanned for runs of digits (numbers) and for symbols; a number touching a
 * symbol in any of the eight directions is a part number, and the answer is
 * the sum of the part numbers.
 */
module Day03Parts {
  import opened Common

  /** A run of digits on row y from column x1 to column x2, both included. */
  datatype Number = Number(x1: int, x2: int, y: int, value: nat)

  /** A symbol character at column x of row y. */
  datatype Symbol = Symbol(x: int, y: int, value: char)

  /** Characters recorded as symbols: everything but digits, '.' and the line break. */
  predicate IsSymbolChar(c: char)
  {
    !IsDigit(c) && c != '.' && c != '\n'
  }

  // ---------------------------------------------------------------------
  // Scanning one line
  // ---------------------------------------------------------------------

  /** Columns a..b-1 of the line are all digits. */
  predicate DigitRun(line: string, a: int, b: int)
    requires 0 <= a <= b <= |line|
  {
    forall k :: a <= k < b ==> IsDigit(line[k])
  }

  /** A digit run starting at column a has nothing but a non-digit, or the line start, before it. */
  predicate RunStarts(line: string, a: int)
    requires 0 <= a <= |line|
  {
    a == 0 || !IsDigit(line[a - 1])
  }

  /** The decimal value of the digits in columns a..b-1. */
  function RunValue(line: string, a: int, b: int): nat
    requires 0 <= a <= b <= |line| && DigitRun(line, a, b)
  {
    Decimal(line[a..b])
  }

  /** The length of the digit run just before column x: the pending digit buffer. */
  function Pending(line: string, x: nat): (p: nat)
    requires x <= |line|
    ensures p <= x
    ensures DigitRun(line, x - p, x)
    ensures RunStarts(line, x - p)
  {
    if x == 0 || !IsDigit(line[x - 1]) then 0 else Pending(line, x - 1) + 1
  }

  /** A maximal digit run starting at a ends where its digits end. */
  lemma {:induction false} PendingExact(line: string, a: nat, x: nat)
    requires a <= x <= |line|
    requires DigitRun(line, a, x) && RunStarts(line, a)
    ensures Pending(line, x) == x - a
  {
    if x > a {
      PendingExact(line, a, x - 1);
    }
  }

  /** The numbers recorded after the scan has seen the first n characters of row y. */
  function NumbersUpTo(line: string, y: int, n: nat): seq<Number>
    requires n <= |line|
  {
    if n == 0 then []
    else
      var p := Pending(line, n - 1);
      if !IsDigit(line[n - 1]) && p > 0 then
        NumbersUpTo(line, y, n - 1) + [ClosedAt(line, y, n - 1)]
      else NumbersUpTo(line, y, n - 1)
  }

  /** The symbols recorded after the scan has seen the first n characters of row y. */
  function SymbolsUpTo(line: string, y: int, n: nat): seq<Symbol>
    requires n <= |line|
  {
    if n == 0 then []
    else if IsSymbolChar(line[n - 1]) then SymbolsUpTo(line, y, n - 1) + [Symbol(n - 1, y, line[n - 1])]
    else SymbolsUpTo(line, y, n - 1)
  }

  /**
   * num is a maximal digit run of row y that a non-digit closes before
   * column n, carrying the decimal value of its digits.
   */
  predicate IsClosedRun(line: string, y: int, num: Number, n: nat)
    requires n <= |line|
  {
    num.y == y && 0 <= num.x1 <= num.x2 && num.x2 + 1 < n &&
    DigitRun(line, num.x1, num.x2 + 1) && RunStarts(line, num.x1) &&
    !IsDigit(line[num.x2 + 1]) &&
    num.value == RunValue(line, num.x1, num.x2 + 1)
  }

  /** The numbers found are exactly the digit runs closed by a following character. */
  lemma {:induction false} NumbersUpToMeans(line: string, y: int, n: nat, num: Number)
    requires n <= |line|
    ensures num in NumbersUpTo(line, y, n) <==> IsClosedRun(line, y, num, n)
  {
    if num in NumbersUpTo(line, y, n) {
      NumbersUpToSound(line, y, n, num);
    }
    if IsClosedRun(line, y, num, n) {
      NumbersUpToComplete(line, y, n, num);
    }
  }

  /** The number a non-digit at column x closes, when a digit run ends just before it. */
  function ClosedAt(line: string, y: int, x: nat): Number
    requires x < |line| && Pending(line, x) > 0
  {
    var x1, x2 := x - Pending(line, x), x - 1;
    Number(x1, x2, y, RunValue(line, x1, x2 + 1))
  }

  /** One more character appends the number it closes, if any. */
  lemma NumbersUpToStep(line: string, y: int, n: nat)
    requires 0 < n <= |line|
    ensures NumbersUpTo(line, y, n) == NumbersUpTo(line, y, n - 1) +
      (if !IsDigit(line[n - 1]) && Pending(line, n - 1) > 0 then [ClosedAt(line, y, n - 1)] else [])
  {
  }

  lemma {:induction false} NumbersUpToSound(line: string, y: int, n: nat, num: Number)
    requires n <= |line| && num in NumbersUpTo(line, y, n)
    ensures IsClosedRun(line, y, num, n)
  {
    var x := n - 1;
    NumbersUpToStep(line, y, n);
    if !IsDigit(line[x]) && Pending(line, x) > 0 && num == ClosedAt(line, y, x) {
      ClosedAtIsClosedRun(line, y, x);
    } else {
      NumbersUpToSound(line, y, x, num);
      ClosedRunLater(line, y, num, x);
    }
  }

  lemma {:induction false} NumbersUpToComplete(line: string, y: int, n: nat, num: Number)
    requires n <= |line| && IsClosedRun(line, y, num, n)
    ensures num in NumbersUpTo(line, y, n)
  {
    var x := n - 1;
    NumbersUpToStep(line, y, n);
    if num.x2 + 1 < x {
      ClosedRunEarlier(line, y, num, n);
      NumbersUpToComplete(line, y, x, num);
    } else {
      ClosedRunIsClosedAt(line, y, num, n);
    }
  }

  /** The number closed at x is a closed run before x + 1. */
  lemma ClosedAtIsClosedRun(line: string, y: int, x: nat)
    requires x < |line| && !IsDigit(line[x]) && Pending(line, x) > 0
    ensures IsClosedRun(line, y, ClosedAt(line, y, x), x + 1)
  {
    ClosedAtFields(line, y, x);
  }

  /** The columns and value of the number closed at x. */
  lemma ClosedAtFields(line: string, y: int, x: nat)
    requires x < |line| && Pending(line, x) > 0
    ensures var num := ClosedAt(line, y, x);
      num.y == y && num.x1 == x - Pending(line, x) && num.x2 + 1 == x &&
      DigitRun(line, num.x1, num.x2 + 1) && RunStarts(line, num.x1) &&
      num.value == RunValue(line, num.x1, num.x2 + 1)
  {
  }

  /** A run closed before n is closed before any later column. */
  lemma ClosedRunLater(line: string, y: int, num: Number, n: nat)
    requires n < |line| && IsClosedRun(line, y, num, n)
    ensures IsClosedRun(line, y, num, n + 1)
  {
  }

  /** A run closed before n whose closing character is before n - 1 is closed before n - 1. */
  lemma ClosedRunEarlier(line: string, y: int, num: Number, n: nat)
    requires 0 < n <= |line| && IsClosedRun(line, y, num, n) && num.x2 + 1 < n - 1
    ensures IsClosedRun(line, y, num, n - 1)
  {
  }

  /** A run closed by the character at n - 1 is the number closed there. */
  lemma ClosedRunIsClosedAt(line: string, y: int, num: Number, n: nat)
    requires 0 < n <= |line| && IsClosedRun(line, y, num, n) && num.x2 + 1 == n - 1
    ensures !IsDigit(line[n - 1]) && Pending(line, n - 1) > 0 && num == ClosedAt(line, y, n - 1)
  {
    PendingExact(line, num.x1, n - 1);
  }

  /** The symbols found are exactly the symbol characters of the row, each at its own column. */
  lemma {:induction false} SymbolsUpToMeans(line: string, y: int, n: nat, s: Symbol)
    requires n <= |line|
    ensures s in SymbolsUpTo(line, y, n) <==>
      s.y == y && 0 <= s.x < n && s.value == line[s.x] && IsSymbolChar(s.value)
  {
    if n > 0 {
      SymbolsUpToMeans(line, y, n - 1, s);
    }
  }

  /** A run of digits still open at the end of the line is never recorded: every number ends before it. */
  lemma UnclosedRunDropped(line: string, y: int, num: Number)
    requires num in NumbersUpTo(line, y, |line|)
    ensures num.x2 < |line| - Pending(line, |line|)
  {
    NumbersUpToMeans(line, y, |line|, num);
  }

  /** One more character appends the symbol it is, if it is one. */
  lemma SymbolsUpToStep(line: string, y: int, n: nat)
    requires 0 < n <= |line|
    ensures SymbolsUpTo(line, y, n) == SymbolsUpTo(line, y, n - 1) +
      (if IsSymbolChar(line[n - 1]) then [Symbol(n - 1, y, line[n - 1])] else [])
  {
  }

  /** A digit extends the pending run by one character; anything else empties it. */
  lemma PendingStep(line: string, x: nat)
    requires x < |line|
    ensures IsDigit(line[x]) ==> (Pending(line, x + 1) == Pending(line, x) + 1 &&
      line[x + 1 - Pending(line, x + 1)..x + 1] == line[x - Pending(line, x)..x] + [line[x]])
    ensures !IsDigit(line[x]) ==> Pending(line, x + 1) == 0
  {
  }

  /** The number closed at x, spelled with the pending digits. */
  lemma ClosedAtValue(line: string, y: int, x: nat)
    requires x < |line| && Pending(line, x) > 0
    ensures ClosedAt(line, y, x) == Number(x - Pending(line, x), x - 1, y, Decimal(line[x - Pending(line, x)..x]))
  {
    ClosedAtFields(line, y, x);
  }

  /** After x characters: the digit buffer holds the pending run, and the numbers and symbols are those found so far. */
  predicate Scanned(line: string, y: int, x: nat, current: string, numbers: seq<Number>, symbols: seq<Symbol>)
    requires x <= |line|
  {
    current == line[x - Pending(line, x)..x] &&
    numbers == NumbersUpTo(line, y, x) &&
    symbols == SymbolsUpTo(line, y, x)
  }

  /** The buffer of a scan holds digits only. */
  lemma ScannedDigits(line: string, y: int, x: nat, current: string, numbers: seq<Number>, symbols: seq<Symbol>)
    requires x <= |line| && Scanned(line, y, x, current, numbers, symbols)
    ensures AllDigits(current)
  {
    assert forall k :: 0 <= k < |current| ==> current[k] == line[x - Pending(line, x) + k];
  }

  /** A digit goes into the buffer. */
  lemma ScanDigit(line: string, y: int, x: nat, current: string, numbers: seq<Number>, symbols: seq<Symbol>)
    requires x < |line| && IsDigit(line[x]) && Scanned(line, y, x, current, numbers, symbols)
    ensures Scanned(line, y, x + 1, current + [line[x]], numbers, symbols)
  {
    PendingStep(line, x);
    NumbersUpToStep(line, y, x + 1);
    SymbolsUpToStep(line, y, x + 1);
  }

  /** Any other character closes the buffered number, if there is one, and may be a symbol. */
  lemma ScanOther(line: string, y: int, x: nat, current: string, numbers: seq<Number>, symbols: seq<Symbol>)
    requires x < |line| && !IsDigit(line[x]) && Scanned(line, y, x, current, numbers, symbols)
    requires AllDigits(current)
    ensures Scanned(line, y, x + 1, [],
      numbers + (if |current| > 0 then [Number(x - |current|, x - 1, y, Decimal(current))] else []),
      symbols + (if line[x] != '.' && line[x] != '\n' then [Symbol(x, y, line[x])] else []))
  {
    PendingStep(line, x);
    NumbersUpToStep(line, y, x + 1);
    SymbolsUpToStep(line, y, x + 1);
    if |current| > 0 {
      ClosedAtValue(line, y, x);
    }
  }

  /** The character loop over one row, with its digit buffer. */
  method ScanLine(line: string, y: int) returns (numbers: seq<Number>, symbols: seq<Symbol>)
    ensures numbers == NumbersUpTo(line, y, |line|)
    ensures symbols == SymbolsUpTo(line, y, |line|)
  {
    numbers, symbols := [], [];
    var current: string := [];
    var x := 0;
    while x < |line|
      invariant 0 <= x <= |line|
      invariant Scanned(line, y, x, current, numbers, symbols)
    {
      var c := line[x];
      if IsDigit(c) {
        ScanDigit(line, y, x, current, numbers, symbols);
        current := current + [c];
      } else {
        ScannedDigits(line, y, x, current, numbers, symbols);
        ScanOther(line, y, x, current, numbers, symbols);
        if |current| > 0 {
          var value := Decimal(current);
          numbers := numbers + [Number(x - |current|, x - 1, y, value)];
          current := [];
        }
        if c != '.' && c != '\n' {
          symbols := symbols + [Symbol(x, y, c)];
        }
      }
      x := x + 1;
    }
  }

  // ---------------------------------------------------------------------
  // The whole schematic
  // ---------------------------------------------------------------------

  /** The numbers of the first m rows, row by row. */
  function AllNumbers(lines: seq<string>, m: nat): seq<Number>
    requires m <= |lines|
  {
    if m == 0 then [] else AllNumbers(lines, m - 1) + NumbersUpTo(lines[m - 1], m - 1, |lines[m - 1]|)
  }

  /** The symbols of the first m rows, row by row. */
  function AllSymbols(lines: seq<string>, m: nat): seq<Symbol>
    requires m <= |lines|
  {
    if m == 0 then [] else AllSymbols(lines, m - 1) + SymbolsUpTo(lines[m - 1], m - 1, |lines[m - 1]|)
  }

  /** Every number of the schematic is a closed digit run of its own row, and every such run is found. */
  lemma {:induction false} AllNumbersMeans(lines: seq<string>, m: nat, num: Number)
    requires m <= |lines|
    ensures num in AllNumbers(lines, m) <==>
      0 <= num.y < m && IsClosedRun(lines[num.y], num.y, num, |lines[num.y]|)
  {
    if m > 0 {
      var row := lines[m - 1];
      AllNumbersMeans(lines, m - 1, num);
      NumbersUpToMeans(row, m - 1, |row|, num);
      assert AllNumbers(lines, m) == AllNumbers(lines, m - 1) + NumbersUpTo(row, m - 1, |row|);
      if num.y != m - 1 {
        assert num !in NumbersUpTo(row, m - 1, |row|);
      }
    }
  }

  /** Every symbol of the schematic sits at its own row and column, and every symbol character is found. */
  lemma {:induction false} AllSymbolsMeans(lines: seq<string>, m: nat, s: Symbol)
    requires m <= |lines|
    ensures s in AllSymbols(lines, m) <==>
      0 <= s.y < m && 0 <= s.x < |lines[s.y]| && s.value == lines[s.y][s.x] && IsSymbolChar(s.value)
  {
    if m > 0 {
      AllSymbolsMeans(lines, m - 1, s);
      SymbolsUpToMeans(lines[m - 1], m - 1, |lines[m - 1]|, s);
    }
  }

  /** The line loop of build_schematic. */
  method BuildSchematic(lines: seq<string>) returns (numbers: seq<Number>, symbols: seq<Symbol>)
    ensures numbers == AllNumbers(lines, |lines|)
    ensures symbols == AllSymbols(lines, |lines|)
  {
    numbers, symbols := [], [];
    var y := 0;
    while y < |lines|
      invariant 0 <= y <= |lines|
      invariant numbers == AllNumbers(lines, y)
      invariant symbols == AllSymbols(lines, y)
    {
      var ns, ss := ScanLine(lines[y], y);
      numbers := numbers + ns;
      symbols := symbols + ss;
      y := y + 1;
    }
  }

  // ---------------------------------------------------------------------
  // Part numbers
  // ---------------------------------------------------------------------

  /** The two skip tests of the marking loop both fail. */
  predicate Adjacent(num: Number, sym: Symbol)
  {
    !(num.y < sym.y - 1 || num.y > sym.y + 1) && !(num.x2 < sym.x - 1 || num.x1 > sym.x + 1)
  }

  /** Whether some symbol of syms touches num. */
  function Touched(num: Number, syms: seq<Symbol>): (t: bool)
    ensures t <==> exists k :: 0 <= k < |syms| && Adjacent(num, syms[k])
  {
    if |syms| == 0 then false
    else Touched(num, syms[..|syms| - 1]) || Adjacent(num, syms[|syms| - 1])
  }

  /** Adjacency is being within one row, with the column span widened by one each side covering the symbol. */
  lemma AdjacentMeans(num: Number, sym: Symbol)
    ensures Adjacent(num, sym) <==>
      -1 <= num.y - sym.y <= 1 && num.x1 <= sym.x + 1 && sym.x - 1 <= num.x2
  {
  }

  /** The inner marking loop: flags the numbers that sym touches. */
  method MarkAdjacent(numbers: seq<Number>, sym: Symbol, isPart: array<bool>)
    requires isPart.Length == |numbers|
    modifies isPart
    ensures forall j :: 0 <= j < |numbers| ==> isPart[j] == (old(isPart[j]) || Adjacent(numbers[j], sym))
  {
    var j := 0;
    while j < |numbers|
      invariant 0 <= j <= |numbers|
      invariant forall i :: 0 <= i < j ==> isPart[i] == (old(isPart[i]) || Adjacent(numbers[i], sym))
      invariant forall i :: j <= i < |numbers| ==> isPart[i] == old(isPart[i])
    {
      var num := numbers[j];
      if !(num.y < sym.y - 1 || num.y > sym.y + 1) && !(num.x2 < sym.x - 1 || num.x1 > sym.x + 1) {
        isPart[j] := true;
      }
      j := j + 1;
    }
  }

  /** The symbol loop: isPart[j] is the is_partnumber flag of numbers[j]. */
  method MarkPartNumbers(numbers: seq<Number>, symbols: seq<Symbol>) returns (isPart: array<bool>)
    ensures fresh(isPart) && isPart.Length == |numbers|
    ensures forall j :: 0 <= j < |numbers| ==> isPart[j] == Touched(numbers[j], symbols)
  {
    isPart := new bool[|numbers|](_ => false);
    var s := 0;
    while s < |symbols|
      invariant 0 <= s <= |symbols|
      invariant forall j :: 0 <= j < |numbers| ==> isPart[j] == Touched(numbers[j], symbols[..s])
    {
      MarkAdjacent(numbers, symbols[s], isPart);
      assert symbols[..s + 1][..s] == symbols[..s];
      s := s + 1;
    }
    assert symbols[..s] == symbols;
  }

  /** The sum of the part numbers, each counted once. */
  function PartSum(numbers: seq<Number>, symbols: seq<Symbol>): int
  {
    if |numbers| == 0 then 0
    else
      var last := numbers[|numbers| - 1];
      PartSum(numbers[..|numbers| - 1], symbols) + (if Touched(last, symbols) then last.value else 0)
  }

  function Values(numbers: seq<Number>): (vs: seq<int>)
    ensures |vs| == |numbers|
    ensures forall k :: 0 <= k < |numbers| ==> vs[k] == numbers[k].value
  {
    if |numbers| == 0 then [] else Values(numbers[..|numbers| - 1]) + [numbers[|numbers| - 1].value]
  }

  /** The answer lies between 0 and the sum of all numbers; it is all of them exactly when all are touched. */
  lemma {:induction false} PartSumBounds(numbers: seq<Number>, symbols: seq<Symbol>)
    ensures 0 <= PartSum(numbers, symbols) <= Sum(Values(numbers))
    ensures (forall j :: 0 <= j < |numbers| ==> Touched(numbers[j], symbols)) ==>
      PartSum(numbers, symbols) == Sum(Values(numbers))
    ensures (forall j :: 0 <= j < |numbers| ==> !Touched(numbers[j], symbols)) ==>
      PartSum(numbers, symbols) == 0
  {
    if |numbers| > 0 {
      var init := numbers[..|numbers| - 1];
      PartSumBounds(init, symbols);
      assert Values(numbers)[..|numbers| - 1] == Values(init);
    }
  }

  /** A further symbol touching only numbers already touched changes nothing: no number is counted twice. */
  lemma {:induction false} PartSumCountsOnce(numbers: seq<Number>, symbols: seq<Symbol>, s: Symbol)
    requires forall j :: 0 <= j < |numbers| ==> Adjacent(numbers[j], s) ==> Touched(numbers[j], symbols)
    ensures PartSum(numbers, symbols + [s]) == PartSum(numbers, symbols)
  {
    if |numbers| > 0 {
      var last := numbers[|numbers| - 1];
      assert (symbols + [s])[..|symbols|] == symbols;
      assert Touched(last, symbols + [s]) == Touched(last, symbols);
      PartSumCountsOnce(numbers[..|numbers| - 1], symbols, s);
    }
  }

  /** build_schematic after reading the lines: scan, mark, add up the flagged values. */
  method Run(lines: seq<string>) returns (total: int)
    ensures total == PartSum(AllNumbers(lines, |lines|), AllSymbols(lines, |lines|))
    ensures total >= 0
  {
    var numbers, symbols := BuildSchematic(lines);
    var isPart := MarkPartNumbers(numbers, symbols);
    total := 0;
    var j := 0;
    while j < |numbers|
      invariant 0 <= j <= |numbers|
      invariant total == PartSum(numbers[..j], symbols)
    {
      assert numbers[..j + 1][..j] == numbers[..j];
      if isPart[j] {
        total := total + numbers[j].value;
      }
      j := j + 1;
    }
    assert numbers[..j] == numbers;
    PartSumBounds(numbers, symbols);
  }
}
