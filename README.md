# Advent of Code 2023 solvers, modelled in Dafny

The repository solves the puzzles of Advent of Code 2023, one Python
script per puzzle part (`dayNN/partM.py`), each with a `run(path)` function
that reads a puzzle input and returns the answer as a string. This project
models the solving logic of those scripts in Dafny and proves what each
part computes. The model works on input that has already been parsed.

One Dafny module per script, in one file each:

| file | module | puzzle |
|---|---|---|
| common.dfy | Common | shared vocabulary: `Option`, `Result`, `Sum`, ASCII digits, `str.split`/`join`, `reversed` |
| day01_part1.dfy | Day01Trebuchet | calibration value from the first and last digit of each line |
| day01_part2.dfy | Day01Words | the same with the overlapping words `one` .. `nine` |
| day02_part1.dfy | Day02Cubes | games possible with 12 red, 13 green and 14 blue cubes |
| day02_part2.dfy | Day02Power | the fewest cubes of each colour and the power of each game |
| day03_part1.dfy | Day03Parts | numbers of the engine schematic that touch a symbol |
| day03_part2.dfy | Day03Gears | `*` symbols touching exactly two numbers, and their gear ratios |
| day04_part1.dfy | Day04Points | scratchcard points, doubling for each further match |
| day04_part2.dfy | Day04Instances | scratchcards that win copies of the cards after them |
| day05_part1.dfy | Day05Points | single seeds through the chain of almanac mappers |
| day05_part2.dfy | Day05Ranges | seed ranges split and shifted through the same chain |
| day07_part2.dfy | Day07Jokers | Camel Cards hand types with jokers, ordering and winnings |
| day08_part1.dfy | Day08Network | the walk from `AAA` to `ZZZ` along the L/R instructions |
| day08_part2.dfy | Day08Ghosts | the lockstep walk of all `..A` nodes and the lcm of their counts |
| day09_part2.dfy | Day09History | extrapolating a history backwards through its differences |
| day10_part1.dfy | Day10Pipes | the pipe loop through the start tile and its farthest point |
| day10_part2.dfy | Day10Enclosed | tiles enclosed by the loop, by crossing parity |
| day11_part2.dfy | Day11Expansion | galaxy distances after the empty rows and columns expand |
| day12_part1.dfy | Day12Springs | arrangements of damaged springs via candidate offsets |
| day13_part1.dfy | Day13Mirrors | the line of reflection of a pattern |
| day13_part2.dfy | Day13Smudges | the line of reflection with exactly one smudge |
| day14_part1.dfy | Day14Tilt | rolling the round rocks north and the load on the north beams |
| day15_part1.dfy | Day15Hash | the HASH algorithm over the initialization sequence |
| day15_part2.dfy | Day15Boxes | the HASHMAP procedure over 256 lens boxes and its focusing power |

The scripts take three forms, and the model follows each.

- A loop that updates variables becomes a Dafny `method` with a `while`
  or `for` loop. Its invariants tie it to a reference function, and
  lemmas state what that function means.
- An object whose fields the script changes in place becomes a `class`
  with `modifies` clauses, or an `array` of records. Examples are the
  scratchcards, the maze and the galaxy positions.
- Pure expressions, comprehensions and recursion become functions and
  lemmas.

Where the script raises an exception, the model returns `None` or an
`Err` value instead.

## Model

| member | source | states |
|---|---|---|
| Common.Split | day14/part1.py:29 | str.split gives at least one piece and no piece holds the separator |
| Common.JoinSplit | day14/part1.py:29-36 | joining the pieces of a split with the separator gives back the string |
| Common.SplitJoin | day14/part1.py:36 | pieces free of the separator are recovered by splitting their join |
| Day01Trebuchet.HitsEmpty | day01/part1.py:13-18 | nothing is found in a line exactly when no character of it is a digit |
| Day01Trebuchet.HitsFirst | day01/part1.py:16-17 | first_digit is the value at the earliest position that has one, with nothing before it |
| Day01Trebuchet.HitsLast | day01/part1.py:18 | last_digit is the value at the latest position that has one, with nothing after it |
| Day01Trebuchet.FirstLastStep | day01/part1.py:14-18 | setting first_digit only while it is None and last_digit on every digit keeps both equal to the first and last value found so far |
| Day01Trebuchet.FirstLastDone | day01/part1.py:19-22 | at the end of the line the two variables give None, or 10 * first + last |
| Day01Trebuchet.CalibrationNone | day01/part1.py:19-21 | a line has no value, and is skipped, exactly when none of its positions holds a digit |
| Day01Trebuchet.CalibrationMeans | day01/part1.py:13-22 | a line value is 10 times the value at the earliest position holding one plus the value at the latest, with nothing before the first and nothing after the last |
| Day01Trebuchet.CalibrationFromEnds | day01/part1.py:13-22 | conversely, the earliest and latest positions holding a value determine the line value |
| Day01Trebuchet.CalibrationBounded | day01/part1.py:22 | with single-digit values the line value is at most 99 |
| Day01Trebuchet.SingleHit | day01/part1.py:16-22 | a line whose only digit is d has the value 11 * d |
| Day01Trebuchet.DigitHits | day01/part1.py:14-15 | one entry per character: the digit's value where c.isnumeric() holds, nothing elsewhere |
| Day01Trebuchet.LineValue | day01/part1.py:13-22 | the character loop returns the line value of the digits found, None when there is none |
| Day01Trebuchet.LineValuesBounded | day01/part1.py:19-24 | every collected number is in 0..99 and there are at most as many as lines |
| Day01Trebuchet.Run | day01/part1.py:11-25 | the total is the sum of the values of the lines that have a digit, and at most 99 per line |
| Day01Words.IndexOf | day01/part2.py:29 | list.index returns a position holding the text with no earlier one |
| Day01Words.StrNumbersDistinct | day01/part2.py:8-19 | no entry of STR_NUMBERS is repeated |
| Day01Words.StrNumbersShape | day01/part2.py:8-19 | every entry has at least three characters and does not start with a digit |
| Day01Words.IndexOfEntry | day01/part2.py:29 | in a list without repeats, list.index finds each entry at its own position |
| Day01Words.ConvertWord | day01/part2.py:10-29 | convert_number maps each word "one" to "nine" to its index 1 to 9 |
| Day01Words.ConvertDigit | day01/part2.py:26-28 | convert_number maps a single digit, which is not in STR_NUMBERS, to int() of it |
| Day01Words.WordHits | day01/part2.py:34-37 | the matches of the lookahead pattern, one per position of the line, in order |
| Day01Words.WordsUnique | day01/part2.py:34 | no two different words can start at the same position |
| Day01Words.FirstWordSound | day01/part2.py:34 | the alternative matched at a position is a word that starts there |
| Day01Words.FirstWordComplete | day01/part2.py:34 | any word that starts at a position is the one matched there |
| Day01Words.HitMeans | day01/part2.py:34-40 | a position yields v exactly when the digit v is there or the word for v starts there, so overlapping matches all count |
| Day01Words.MatchConverts | day01/part2.py:26-40 | every matched text converts to a value of at most 9, so convert_number never raises on a match |
| Day01Words.NoWordsAsDigits | day01/part2.py:34 | on a line without any spelled-out word the matches are the digits found by part 1 |
| Day01Words.NoHitAt | day01/part2.py:34-37 | a position with neither a digit nor the start of a word yields no match |
| Day01Words.TwoneWords | day01/part2.py:34 | in "twone" the word two starts at 0, one starts at 2, and no word starts anywhere else |
| Day01Words.TwoneFound | day01/part2.py:37-40 | "twone" yields 2 at position 0 and 1 at position 2 |
| Day01Words.TwoneGaps | day01/part2.py:37 | "twone" yields nothing at positions 1, 3 and 4 |
| Day01Words.TwoneValue | day01/part2.py:44 | matches 2, none, 1, none, none give the line value 21 |
| Day01Words.Twone | day01/part2.py:34-44 | overlapping matches count: "twone" has first 2 and last 1, so its value is 21 |
| Day01Words.HitsBounded | day01/part2.py:26-29 | every match yields a value of at most 9 |
| Day01Words.LineValue | day01/part2.py:36-44 | the match loop returns the line value of the matches, None when there is none |
| Day01Words.LineValuesBounded | day01/part2.py:41-46 | every collected number is in 0..99 and there are at most as many as lines |
| Day01Words.Run | day01/part2.py:33-47 | the total is the sum of the values of the lines that have a match, and at most 99 per line |
| Day02Cubes.DrawsMeans | day02/part1.py:26-27 | a draw is visited exactly when it belongs to one of the game's hands |
| Day02Cubes.AllWithinAppend | day02/part1.py:30-31 | one more draw keeps the game within the limits exactly when that draw is within its colour's limit |
| Day02Cubes.PossibleMeans | day02/part1.py:11-31 | a game is possible exactly when every draw of every hand is at most 12 red, 13 green or 14 blue |
| Day02Cubes.OneOverLimit | day02/part1.py:30-31 | a single draw over its colour's limit makes the game impossible |
| Day02Cubes.OrderIndependent | day02/part1.py:25-31 | the verdict depends only on the multiset of draws, not on their order or grouping into hands |
| Day02Cubes.IsImpossible | day02/part1.py:25-31 | impossible_hand ends up raised exactly when the game is not possible |
| Day02Cubes.PossibleIdsMeans | day02/part1.py:33-35 | possible_games holds an ID exactly when some possible game has that ID |
| Day02Cubes.Run | day02/part1.py:21-36 | the answer is the sum of the IDs of the possible games, in order |
| Day02Power.MaxDrawnMeans | day02/part2.py:28 | a colour's maximum bounds every draw of that colour and is either 0 or one of those draws |
| Day02Power.MaximaStep | day02/part2.py:28 | max_colours[colour] = max(max_colours[colour], number) keeps each colour's maximum over one more draw |
| Day02Power.MaxDrawnNone | day02/part2.py:19-23 | a colour never drawn keeps its initial maximum 0 |
| Day02Power.Fewest | day02/part2.py:24-28 | a bag allows every draw exactly when it holds at least each colour's maximum, so the maxima are the fewest cubes that allow the game |
| Day02Power.PossibleIffMaxima | day02/part2.py:24-28 | a game is possible in the sense of part 1 exactly when each colour's maximum is within its limit |
| Day02Power.PowerZero | day02/part2.py:19-31 | a colour never drawn makes the power 0 |
| Day02Power.FewestCubes | day02/part2.py:19-28 | the hand loops leave red, green and blue each holding the largest number drawn of that colour |
| Day02Power.GamePower | day02/part2.py:19-31 | one game's power is the product of its three maxima |
| Day02Power.ProductOfColours | day02/part2.py:29-31 | multiplying the dict's values in order gives red max * green max * blue max |
| Day02Power.Powers | day02/part2.py:33 | one power per game, in order |
| Day02Power.Run | day02/part2.py:15-34 | the answer is the sum of the games' powers, and it is not negative |
| Day03Parts.Pending | day03/part1.py:36-51 | current_number holds exactly the digits of the run just before column x |
| Day03Parts.PendingExact | day03/part1.py:38-40 | a run of digits starting at column a leaves x - a digits in the buffer |
| Day03Parts.NumbersUpToMeans | day03/part1.py:38-51 | a Number is recorded exactly for a maximal digit run followed by a non-digit, with x1 and x2 its first and last columns and its decimal value |
| Day03Parts.SymbolsUpToMeans | day03/part1.py:52-60 | a Symbol is recorded exactly for each character that is not a digit, '.' or the line break, at its own column |
| Day03Parts.UnclosedRunDropped | day03/part1.py:36-51 | a digit run still open at the end of the line, with no character after it, is never recorded |
| Day03Parts.ScanLine | day03/part1.py:36-60 | the character loop over one row yields exactly the numbers and symbols described above, in column order |
| Day03Parts.AllNumbersMeans | day03/part1.py:35-51 | every number of the schematic is a closed digit run of its own row, and every such run is found |
| Day03Parts.AllSymbolsMeans | day03/part1.py:35-60 | every symbol sits at its own row and column, and every symbol character is found |
| Day03Parts.BuildSchematic | day03/part1.py:32-60 | the line loop collects the numbers and symbols of all rows, row by row |
| Day03Parts.Touched | day03/part1.py:61-68 | a number is flagged exactly when some symbol is adjacent to it |
| Day03Parts.AdjacentMeans | day03/part1.py:64-67 | adjacency: the rows differ by at most one and the symbol's column lies within the number's columns widened by one on each side |
| Day03Parts.MarkAdjacent | day03/part1.py:63-68 | the inner loop sets is_partnumber on exactly the numbers this symbol touches and leaves the other flags unchanged |
| Day03Parts.MarkPartNumbers | day03/part1.py:61-68 | after the symbol loop each flag is set exactly when some symbol touches the number |
| Day03Parts.Values | day03/part1.py:71 | the values of the numbers, in order |
| Day03Parts.PartSumBounds | day03/part1.py:71-72 | the answer lies between 0 and the sum of all numbers; it is all of them when every number is touched, and 0 when none is |
| Day03Parts.PartSumCountsOnce | day03/part1.py:61-71 | a further symbol touching only numbers already flagged changes nothing, so no number is counted twice |
| Day03Parts.Run | day03/part1.py:31-72 | the answer is the sum of the values of the numbers a symbol touches |
| Day03Gears.AdjacentIndices | day03/part2.py:64-70 | the positions of the numbers a symbol touches, each below the number of numbers scanned |
| Day03Gears.AdjacentIndicesMeans | day03/part2.py:63-70 | adjacent_numbers holds each touching number once, in list order, and nothing else |
| Day03Gears.GearRatioOfPair | day03/part2.py:71-72 | a '*' touching exactly the two numbers i < j gets their product as its gear ratio |
| Day03Gears.PairIndices | day03/part2.py:63-70 | when only numbers i < j touch the symbol, the collected list is exactly those of them scanned so far |
| Day03Gears.GearRatioNonzero | day03/part2.py:71-72 | a nonzero ratio belongs to a '*' touching exactly two numbers, and is their product |
| Day03Gears.GearRatioZero | day03/part2.py:70-71 | a symbol that is not '*', or touches other than two numbers, keeps gear_ratio 0 |
| Day03Gears.RatiosMeans | day03/part2.py:74 | one gear ratio per symbol, in order |
| Day03Gears.CollectAdjacent | day03/part2.py:63-70 | the inner loop collects exactly the adjacent numbers and also sets their is_partnumber flags, leaving the others unchanged |
| Day03Gears.GearRatios | day03/part2.py:62-72 | after the symbol loop each symbol's gear_ratio field is its ratio and each number's flag says whether some symbol touches it |
| Day03Gears.Run | day03/part2.py:32-75 | the answer is the sum of the gear ratios of all symbols, and it is not negative |
| Day04Points.Card.constructor | day04/part1.py:12-16 | a new card keeps its id and both number lists and starts with score 0 |
| Day04Points.Matches | day04/part1.py:34-35 | the number of owned entries found among the winning numbers, repeats counted each time, is at most the number of owned entries |
| Day04Points.DoubledPower | day04/part1.py:36-39 | doubling a power of two m times gives the power m higher |
| Day04Points.DoubledFromZero | day04/part1.py:16-39 | from score 0, m matches give 0 when m is 0 and 2^(m-1) otherwise |
| Day04Points.MatchesRemove | day04/part1.py:34-35 | dropping one owned entry lowers the match count by one exactly when that entry is a winning number |
| Day04Points.MatchesIgnoresOrder | day04/part1.py:34-35 | the match count depends only on the multiset of owned numbers, not on their order |
| Day04Points.ScoreCard | day04/part1.py:34-39 | the inner loop sets a card's score to its old score doubled once per match, starting at 1 from 0 |
| Day04Points.DoubledStep | day04/part1.py:36-39 | one more match turns 0 into 1 and doubles any other score |
| Day04Points.MakeCards | day04/part1.py:24-32 | one fresh, distinct card per parsed line, with that line's id and numbers and score 0 |
| Day04Points.AllPoints | day04/part1.py:41 | one score per card, in order, each 0 or 2^(matches-1) |
| Day04Points.Run | day04/part1.py:22-44 | the result is the sum of the cards' scores, and it is not negative |
| Day04Instances.Card.constructor | day04/part2.py:12-17 | a new card keeps its id and both number lists and starts with score 0 and one instance |
| Day04Instances.CopiesMeans | day04/part2.py:35-40 | handing out copies fails, with an IndexError, exactly when the wins reach past the last card; otherwise only cards i+1..i+score gain, each by card i's own instance count |
| Day04Instances.Process | day04/part2.py:34-40 | processing the cards in order gives one count per card whenever it succeeds |
| Day04Instances.ProcessFails | day04/part2.py:39-40 | processing fails exactly when some processed card wins past the last card |
| Day04Instances.ProcessPositive | day04/part2.py:17-40 | every card keeps at least its original instance |
| Day04Instances.ProcessStep | day04/part2.py:39-40 | processing card k leaves the counts of cards 0..k alone and never lowers a count |
| Day04Instances.ProcessRecurrence | day04/part2.py:34-40 | after k cards, card j holds its original instance plus what each of the first min(j, k) cards won of it |
| Day04Instances.TotalInstancesMeans | day04/part2.py:34-43 | the result fails exactly when some card wins past the last card; otherwise it equals the sum of the independently defined instance counts, and is at least one per card |
| Day04Instances.CountMatches | day04/part2.py:36-38 | the matching loop adds the card's match count to its score and leaves its instances alone |
| Day04Instances.ShareCopies | day04/part2.py:39-40 | the copying loop adds the snapshot to cards i+1..i+score, and reports failure exactly when that reaches past the last card; cards already reached keep their extra instances |
| Day04Instances.MakeCards | day04/part2.py:25-33 | one fresh, distinct card per parsed line, with score 0 and one instance |
| Day04Instances.ProcessCard | day04/part2.py:34-40 | one pass of the card loop: the snapshot of card i's instances, its matches counted, the copies handed out |
| Day04Instances.Run | day04/part2.py:23-45 | the result is the total number of instances of all cards, or failure when a card wins past the last one |
| Day05Points.Get | day05/part1.py:22-23 | a value moves by the section's offset: w - dest == index - src |
| Day05Points.Lookup | day05/part1.py:19-39 | as written, with the inclusive test: the first section in list order that holds v decides its image, and v maps to itself when no section holds it |
| Day05Points.LookupIntended | day05/part1.py:19-39 | the corrected lookup: the first section with src <= v < src + size decides v's image, and v maps to itself when none holds it |
| Day05Points.LookupEmpty | day05/part1.py:35-39 | a mapper without sections is the identity |
| Day05Points.SeedLocation | day05/part1.py:78-80 | the inner loop ends with the seed looked up in every mapper of the chain in turn |
| Day05Points.Min | day05/part1.py:84 | min() returns an element of the list that is at most every element |
| Day05Points.ClosestLocation | day05/part1.py:76-84 | the result is the location of some seed and at most the location of every seed; with no seeds min() fails, modelled as None |
| Day05Points.AsSections | day05/part2.py:119-122 | the rule lines of part 1 as part 2's sections: end = src + size - 1 and offset = dest - src |
| Day05Points.LookupIntendedAgrees | day05/part1.py:19-39 | with the exclusive bound src <= v < src + size, the lookup equals part 2's point mapping of the same rules |
| Day05Points.InclusiveBoundMapsOnePastTheEnd | day05/part1.py:19-20 | the membership test as written also holds src + size: with the rule "50 98 2", seed 100 maps to 52 instead of staying 100 |
| Day05Points.BoundsDifferOnlyAtTheEnd | day05/part1.py:19-20 | the written and the intended tests disagree only on the value src + size |
| Day05Points.ChainAsSections | day05/part2.py:119-122 | each mapper of the chain turned into part 2's sections, in order |
| Day05Points.LocationIntended | day05/part1.py:77-81 | the corrected location of a seed: a chain whose mappers have no sections leaves the seed where it is |
| Day05Points.LocationIntendedAppend | day05/part1.py:77-81 | with the intended bound, the inner loop applies the mappers one at a time in chain order: the mapper appended last is looked up last |
| Day05Points.LocationIntendedAgrees | day05/part1.py:77-81 | with the intended bound, a seed's location is part 2's chained point mapping of the same almanac |
| Day05Ranges.Intersect | day05/part2.py:31-54 | None exactly when the input lies wholly below or wholly above the section; otherwise element 0 is the overlap shifted by the offset and the rest are the parts below and above the section |
| Day05Ranges.CountAppend | day05/part2.py:76-78 | counting how often a value is covered distributes over list concatenation |
| Day05Ranges.TotalWidthAppend | day05/part2.py:78 | the widths of two lists of ranges add up under concatenation |
| Day05Ranges.IntersectPartition | day05/part2.py:35-53 | every value of the input lies in exactly one of the overlap, the part below and the part above, and the overlap lies in the section |
| Day05Ranges.IntersectWidth | day05/part2.py:35-53 | a well-formed input splits into well-formed pieces whose widths add up to the input's width |
| Day05Ranges.IntersectEmptyInput | day05/part2.py:35-53 | an input holding no value leaves no remainder |
| Day05Ranges.MissNoValue | day05/part2.py:32-54 | when intersect returns None the input holds no value of the section |
| Day05Ranges.FirstHit | day05/part2.py:72-79 | the section loop stops at the first section, in list order, that the range intersects, or passes them all |
| Day05Ranges.EmitShrinks | day05/part2.py:69-79 | each pop moves at least one value into results and puts back the rest, so the queue's width strictly decreases |
| Day05Ranges.ResolveUnfold | day05/part2.py:69-81 | the worklist result is the result of its first pop followed by the result of the queue that remains |
| Day05Ranges.FirstHitUnique | day05/part2.py:72-79 | the first section hit is the only one with no hit before it and a hit at it |
| Day05Ranges.MapValue | day05/part2.py:66-82 | map_value's worklist loop returns the reference result MapRanges of its sections and input |
| Day05Ranges.PopStep | day05/part2.py:70-81 | one pop of the worklist keeps results followed by the rest of the work equal to the whole result |
| Day05Ranges.PopShrinks | day05/part2.py:69-79 | one pop makes the queue narrower, or as wide and shorter, so the loop ends |
| Day05Ranges.MapPointFirst | day05/part1.py:35-39 | a single value moves by the offset of the first section holding it, or stays when none holds it |
| Day05Ranges.EmitExact | day05/part2.py:72-81 | the piece a pop emits moves each of its values as the point mapping does, and with the remainders it covers the popped range's values exactly once |
| Day05Ranges.ResolveExact | day05/part2.py:67-81 | every output piece shifts its values as the first containing section says, and the pieces' sources cover each input value exactly as often as the input does |
| Day05Ranges.ResolveWellFormed | day05/part2.py:67-81 | the pieces of a well-formed queue are never empty |
| Day05Ranges.MapRangesEmptyMapper | day05/part2.py:66-82 | a mapper without sections returns its input unchanged and in order |
| Day05Ranges.CountCovered | day05/part2.py:82 | a value is counted by a list of ranges exactly when some range of the list holds it |
| Day05Ranges.MapRangesCoverage | day05/part2.py:66-82 | a value is covered by the output exactly when it is the point image of a value covered by the input |
| Day05Ranges.MapRangesWellFormed | day05/part2.py:66-82 | a well-formed input gives a well-formed output |
| Day05Ranges.ChainCoverage | day05/part2.py:138-140 | running the chain on ranges covers exactly the chained point images of the covered values |
| Day05Ranges.ChainWellFormed | day05/part2.py:138-140 | the chain keeps well-formed ranges well-formed |
| Day05Ranges.SeedRanges | day05/part2.py:100-110 | pairs (start, count) become [start, start + count - 1], in order; an odd number of values fails, as seed_array[i + 1] does |
| Day05Ranges.Rule | day05/part2.py:119-127 | a rule line "dest src size" holds exactly src <= v < src + size and moves each such v to dest + (v - src) |
| Day05Ranges.MinStart | day05/part2.py:144 | min() over the starts gives some range's start that is at most every start |
| Day05Ranges.ClosestLocation | day05/part2.py:134-144 | the result is the smallest start of all chained outputs of all seed ranges; it fails on an odd seed list or when there is no output |
| Day05Ranges.LocationsCoverage | day05/part2.py:135-141 | the collected locations cover exactly the chained images of the seed values |
| Day05Ranges.CoveredAppend | day05/part2.py:141 | extending the location list covers the union |
| Day05Ranges.LocationsWellFormed | day05/part2.py:135-141 | with non-empty seed ranges the collected locations are well-formed |
| Day05Ranges.ClosestLocationIsLowest | day05/part2.py:134-144 | when every seed count is at least 1, the answer is the location of some seed value and no seed value has a lower location |
| Day07Jokers.Occurrences | day07/part2.py:21 | hand.count("J") is the number of times the card occurs in the hand |
| Day07Jokers.Without | day07/part2.py:22 | hand.replace("J", "") removes every joker and keeps every other card as often as before |
| Day07Jokers.Values | day07/part2.py:29 | card_count.values() lists the counts in the dictionary's insertion order |
| Day07Jokers.Bump | day07/part2.py:25-28 | one card raises its own count by one, appending it with count 1 when it is new, and changes no other count |
| Day07Jokers.BumpTotal | day07/part2.py:25-28 | each counted card adds one to the sum of the counts |
| Day07Jokers.TallyOfCounts | day07/part2.py:23-28 | after the loop each card's count is its number of occurrences, the keys are distinct and the counts positive |
| Day07Jokers.TallyOfKeys | day07/part2.py:23-28 | the dictionary's keys are exactly the cards of the hand |
| Day07Jokers.TallyOfTotal | day07/part2.py:23-28 | the counts add up to the number of cards counted |
| Day07Jokers.CountCards | day07/part2.py:23-28 | the counting loop builds exactly that dictionary |
| Day07Jokers.BumpAt | day07/part2.py:25-28 | a known card's entry is updated in place; a new card is appended at the end |
| Day07Jokers.SameCountsSameValues | day07/part2.py:29 | two dictionaries with the same count for every card hold the same multiset of counts |
| Day07Jokers.SortDescending | day07/part2.py:29 | sorted(..., reverse=True) gives a descending permutation of the counts |
| Day07Jokers.DescendingUnique | day07/part2.py:29 | two descending lists with the same elements are equal, so number_of_cards depends only on the counts |
| Day07Jokers.HandStrength | day07/part2.py:20-50 | the method returns the reference strength of the hand, with None where an index into number_of_cards would fail |
| Day07Jokers.ProfileFacts | day07/part2.py:21-29 | the sorted counts are descending and positive, and with the jokers they add up to the hand's length |
| Day07Jokers.ClassifyFive | day07/part2.py:30-50 | for five cards the branches agree with the usual hand types once the jokers join the largest group |
| Day07Jokers.StrengthOfFiveCards | day07/part2.py:20-50 | for a five-card hand hand_strength never fails, is an index into HAND_TYPES, and is the usual type once the jokers join the largest group (five jokers make five of a kind) |
| Day07Jokers.StrengthWithoutJokers | day07/part2.py:30-50 | without jokers the strength is the usual type: five of a kind 6, four 5, full house 4, three 3, two pair 2, one pair 1, high card 0 |
| Day07Jokers.StrengthIgnoresOrder | day07/part2.py:21-29 | the strength depends only on the multiset of cards, not on their order |
| Day07Jokers.CardIndex | day07/part2.py:84 | CARD_STRENGTH.index(c) is the position of c, and fails exactly when c is not a card |
| Day07Jokers.CardStrengths | day07/part2.py:84 | the card strengths are the index of every card in turn, and fail exactly when some card is not in CARD_STRENGTH |
| Day07Jokers.LexLessStrict | day07/part2.py:68 | list comparison of card strengths is irreflexive, transitive and total on different lists |
| Day07Jokers.LessIsStrictTotal | day07/part2.py:65-68 | __lt__ is a strict total order: irreflexive, transitive, and any two players with different strength or card strengths are ordered |
| Day07Jokers.JokerIsWeakest | day07/part2.py:8 | J has the lowest index of every card |
| Day07Jokers.InsertPlayer | day07/part2.py:88 | inserting one player keeps the list sorted by __lt__ and adds exactly that player |
| Day07Jokers.AppendNotLess | day07/part2.py:88 | appending a player that is below none of the list keeps it sorted |
| Day07Jokers.InsertBeforeLast | day07/part2.py:88 | the last player stays last when a smaller player is inserted into the rest |
| Day07Jokers.LessOrderLemma | day07/part2.py:65-68 | if a < b and not c < b then a < c |
| Day07Jokers.SortPlayers | day07/part2.py:88 | sorted(players) is a permutation of the players ordered by __lt__ |
| Day07Jokers.RankPlayers | day07/part2.py:87-91 | the k-th player of the sorted list gets rank k + 1 and winnings rank * bid, and the result is their total |
| Day07Jokers.TotalWinnings | day07/part2.py:71-95 | the answer is the sum of rank * bid over the sorted players, and fails when a hand has an unknown card or an index error |
| Day08Network.Lookup | day08/part1.py:40-46 | nodes[name] is the entry with that name, and fails with KeyError exactly when no entry has it |
| Day08Network.InsertMeans | day08/part1.py:38 | nodes[node.name] = node keeps the names distinct, makes the name find the new node and leaves every other name alone |
| Day08Network.BuildMeans | day08/part1.py:25-38 | in the dictionary built from the parsed nodes every name finds the last node parsed with it |
| Day08Network.Next | day08/part1.py:43-48 | L follows the left exit, R the right exit, and any other instruction raises KeyError; a missing exit node raises KeyError too |
| Day08Network.Phase | day08/part1.py:41-42 | the position in the instruction string of move k is below the string's length |
| Day08Network.PhaseNext | day08/part1.py:41-42 | the position advances by one with every move and starts again at 0 after the last instruction |
| Day08Network.ScanFinds | day08/part1.py:41-53 | a walk that stops after n moves stands on the goal after n moves and on no earlier count |
| Day08Network.ScanExhausts | day08/part1.py:41-53 | a walk that runs out of moves never stood on the goal within the limit |
| Day08Network.ScanFails | day08/part1.py:43-48 | a failed walk fails at some move within the limit, with every move before it off the goal |
| Day08Network.OutcomeMeans | day08/part1.py:39-53 | a result n means the walk from AAA stands on ZZZ after n moves and on no earlier count; running out of passes means no move stood on ZZZ; a missing node or a bad instruction is the error of some move, every earlier move being off ZZZ |
| Day08Network.ScanMove | day08/part1.py:42-51 | off the goal and within the limit, the walk makes the next move with the instruction at its position |
| Day08Network.Run | day08/part1.py:39-53 | the while/for loops from AAA return the reference outcome: the number of moves to ZZZ, stopping mid-string as soon as it is reached |
| Day08Ghosts.LcmFrom | day08/part2.py:72 | the search returns a common multiple of a and b between m and a*b |
| Day08Ghosts.LcmFromLeast | day08/part2.py:72 | the search from m skips no common multiple at or above m |
| Day08Ghosts.LeastDivides | day08/part2.py:72 | the least positive common multiple divides every common multiple |
| Day08Ghosts.LcmMeans | day08/part2.py:72 | math.lcm of two positive numbers is a positive common multiple, no smaller positive number is one, and it divides every common multiple |
| Day08Ghosts.LcmAllMeans | day08/part2.py:72 | math.lcm(*steps) of positive counts is positive, divisible by every count and divides every common multiple; a zero count gives 0 |
| Day08Ghosts.StartsMeans | day08/part2.py:50 | instances are exactly the nodes of the dict whose name ends in A |
| Day08Ghosts.Follow | day08/part2.py:57-65 | an instance on a node ending in Z stays; any other takes the left or right exit, a bad direction or missing node raising KeyError |
| Day08Ghosts.AdvanceAll | day08/part2.py:55-68 | a successful advance keeps one entry per instance |
| Day08Ghosts.AdvanceAllMeans | day08/part2.py:55-68 | next_nodes is built exactly when every instance's move succeeds, and then holds those moves in order; a failure is the failure of some instance's move |
| Day08Ghosts.Bump | day08/part2.py:57-66 | steps[index] counts one more move exactly for the instances not on an end node |
| Day08Ghosts.GhostScanMove | day08/part2.py:53-70 | with some instance off an end node and moves left, the lockstep walk advances every instance with the next instruction |
| Day08Ghosts.Zeros | day08/part2.py:51 | steps starts as one 0 per instance |
| Day08Ghosts.TracksOneStep | day08/part2.py:56-66 | one lockstep move keeps each instance on its own walk from its start node, with its count the first arrival at an end node once it has one |
| Day08Ghosts.TracksStep | day08/part2.py:55-68 | the move of all instances keeps that for every instance |
| Day08Ghosts.GhostScanMeans | day08/part2.py:53-70 | once every instance stands on an end node, steps[i] is the first arrival of start node i's own walk at an end node |
| Day08Ghosts.OutcomeMeans | day08/part2.py:48-72 | a result means every start node's own walk reaches an end node, and the result is the lcm of those first-arrival counts; no start nodes give math.lcm() == 1 |
| Day08Ghosts.AdvanceInstances | day08/part2.py:55-66 | the loop over instances builds next_nodes as the reference advance and adds one to steps exactly for the instances that moved, changing nothing else |
| Day08Ghosts.GlueStep | day08/part2.py:56-66 | one more instance handled: its move joins next_nodes, or its failure ends the loop |
| Day08Ghosts.Pass | day08/part2.py:54-70 | one pass of the for loop over the instructions agrees with the lockstep walk, stopping as soon as every instance is on an end node |
| Day08Ghosts.ProgressStep | day08/part2.py:53-70 | a pass that neither fails nor finishes keeps the loop invariant with one pass fewer left |
| Day08Ghosts.Run | day08/part2.py:48-72 | the while loop returns the reference outcome: the lcm of the steps of every start instance to its first end node |
| Day09History.Diff | day09/part2.py:9 | the difference row has one entry per neighbouring pair: one fewer than the history, none for an empty one |
| Day09History.DiffIs | day09/part2.py:9 | any row one shorter than the history holding y - x for each neighbouring pair (x, y) is the difference row |
| Day09History.Predict | day09/part2.py:8-13 | predict gives a value exactly when the history is non-empty (sequence[0] of an empty list raises IndexError) |
| Day09History.BackwardOfZeros | day09/part2.py:10-13 | extrapolating a history of zeros backwards gives 0 |
| Day09History.PredictIsBackward | day09/part2.py:8-13 | stopping at the first all-zero difference row gives the same value as subtracting down to the last row |
| Day09History.BackwardAdditive | day09/part2.py:8-13 | backward extrapolation of a sum of histories is the sum of the extrapolations |
| Day09History.PredictAdditive | day09/part2.py:8-13 | the prediction of the sum of two equally long histories is the sum of their predictions |
| Day09History.ArithmeticDiff | day09/part2.py:9 | the differences of an arithmetic history are constant |
| Day09History.PredictArithmetic | day09/part2.py:8-13 | an arithmetic history start, start + step, ... predicts start - step |
| Day09History.ForwardNegated | day09/part2.py:8-13 | forward extrapolation commutes with negation |
| Day09History.DiffReverse | day09/part2.py:9 | the differences of the reversed history are the reversed differences negated |
| Day09History.BackwardIsReversedForward | day09/part2.py:8-13 | extrapolating backwards is extrapolating the reversed history forwards |
| Day09History.PredictIsReversedForward | day09/part2.py:8-13 | the prediction before the first value is the forward prediction of the reversed history |
| Day09History.PredictionsMeans | day09/part2.py:19-26 | totals holds every history's prediction in order, and exists exactly when no history is empty |
| Day09History.SumOfPredictions | day09/part2.py:17-27 | the answer is the sum of the predictions, none when some history is empty |
| Day10Pipes.InverseInvolution | day10/part1.py:17-27 | inverse of inverse is the direction itself, and no direction is its own inverse |
| Day10Pipes.MovedInverse | day10/part1.py:45-54 | moving one way and then the inverse way returns to the tile, and a move always leaves the tile |
| Day10Pipes.ExitsDistinct | day10/part1.py:30-37 | every pipe shape connects two different directions |
| Day10Pipes.FollowOtherExit | day10/part1.py:66-72 | a pipe entered through one exit is left through the other, to the tile beside it, whose way back leads into the pipe |
| Day10Pipes.WalkPrefix | day10/part1.py:95-106 | a walk that has stopped stays stopped |
| Day10Pipes.Trail | day10/part1.py:95-103 | the tiles of the first n steps of a walk, one per step |
| Day10Pipes.BlockedNeverCloses | day10/part1.py:95-106 | a walk that is blocked before returning to the start never closes a loop |
| Day10Pipes.ClosesUnique | day10/part1.py:104-105 | heading one way, at most one loop length returns to the start |
| Day10Pipes.WalkedStep | day10/part1.py:95-103 | passing one more enterable pipe not passed before keeps every pipe of the walk distinct |
| Day10Pipes.WalkStateStep | day10/part1.py:96-103 | passing through an enterable pipe not yet numbered, other than the start, extends the walk by one step |
| Day10Pipes.MarkStateStep | day10/part1.py:101-102 | numbering a pipe with depth extends the numbered path by it and leaves one pipe fewer to number |
| Day10Pipes.WalkFrom | day10/part1.py:93-106 | the while loop of follow numbers the pipes of the walk 1, 2, ... and stops with complete exactly when it returns to the start, the depth being the number of pipes passed; shapes are unchanged |
| Day10Pipes.Maze.constructor | day10/part1.py:76-80 | a new maze is 1 by 1, has no pipes and no start |
| Day10Pipes.Maze.AddTile | day10/part1.py:82-90 | 'S' records the start, a pipe shape adds an unnumbered pipe and widens the bounds, any other character changes nothing |
| Day10Pipes.Maze.Follow | day10/part1.py:92-106 | follow numbers the pipes along the walk from the start and reports whether the walk came back, keeping every shape and the start |
| Day10Pipes.Maze.Reset | day10/part1.py:108-110 | every depth is set back to 0 and nothing else changes |
| Day10Pipes.FirstBlank | day10/part1.py:133-136 | reading stops at the first empty row, or after the last row |
| Day10Pipes.ShapesOfMeans | day10/part1.py:133-138 | a tile is a pipe of the maze exactly when its character is a pipe shape, with that shape |
| Day10Pipes.StartOfMeans | day10/part1.py:83-85 | there is no start exactly when no tile is 'S'; otherwise the start is the last 'S' read |
| Day10Pipes.LoadRow | day10/part1.py:137-138 | the inner reading loop adds every character of the row as a tile |
| Day10Pipes.Load | day10/part1.py:130-138 | the reading loop builds a maze whose pipes and start are those of the rows up to the first empty one, none numbered |
| Day10Pipes.FollowOnUnmarked | day10/part1.py:92-106 | on a maze with no pipe numbered, follow either closes a loop of the depth it returns or is blocked there |
| Day10Pipes.FindLoop | day10/part1.py:146-157 | the direction loop stops at the first direction, in enum order, whose walk closes a loop, and then depth is that loop's length; if no direction closes one, every depth is back to 0 |
| Day10Pipes.Run | day10/part1.py:129-162 | an answer exists exactly when there is a start and some direction closes a loop; the answer is then the length of the loop of the first closing direction in north, south, east, west order, halved and rounded up; otherwise the source raises |
| Day10Enclosed.UnflaggedShrinks | day10/part2.py:99-101 | setting an unflagged pipe's is_loop leaves one pipe fewer to flag, so the walk ends |
| Day10Enclosed.FlagStateStep | day10/part2.py:99-102 | flagging a pipe not yet flagged extends the flagged path by it |
| Day10Enclosed.MarkFrom | day10/part2.py:93-103 | the while loop for one start direction flags the pipes of the walk and stops with complete exactly when the walk returns to the start; shapes are unchanged |
| Day10Enclosed.FlagNext | day10/part2.py:101-103 | one pass of the loop body flags the pipe and follows it, either closing the walk or extending it |
| Day10Enclosed.MarkOnUnflagged | day10/part2.py:93-103 | on a maze with no pipe flagged, the walk either closes a loop of the length flagged or is blocked there |
| Day10Enclosed.ShapeOrderArePipes | day10/part2.py:29-36 | the keys of PIPE_EXITS in order are exactly the pipe shapes |
| Day10Enclosed.FirstShapeMeans | day10/part2.py:108-111 | two different directions are the exits of exactly one shape and the search over PIPE_EXITS finds it; a shape found has both as exits |
| Day10Enclosed.ChooseStartShape | day10/part2.py:108-111 | the for loop over PIPE_EXITS picks the first shape with both directions as exits |
| Day10Enclosed.MovesDiffer | day10/part2.py:44-53 | moving one tile in two different directions reaches two different tiles |
| Day10Enclosed.NoSinglePipeLoop | day10/part2.py:95-103 | no walk returns to the start after a single pipe |
| Day10Enclosed.ArrivalDiffers | day10/part2.py:103-111 | a closed loop comes back into the start from a side other than the one it left by, so the start always gets a shape |
| Day10Enclosed.KeptPipesMeans | day10/part2.py:103-111 | after a loop closes, the pipes kept are exactly the loop's tiles and the start, all flagged, the loop's tiles keeping their shapes |
| Day10Enclosed.TrailInShapes | day10/part2.py:95-96 | every tile of a closed loop is a pipe |
| Day10Enclosed.KeptStartShape | day10/part2.py:108-110 | the start's new pipe has as exits the start direction and the side the loop came back in by |
| Day10Enclosed.FlaggedIsTrail | day10/part2.py:95-103 | on a maze with nothing flagged before, the walk flags exactly the tiles of its trail |
| Day10Enclosed.NorthCrossingsCount | day10/part2.py:118-125 | vertical counts the pipes with a north exit among the tiles west of the position in its row |
| Day10Enclosed.EastCrossingsCount | day10/part2.py:129-136 | horizontal counts the pipes with an east exit among the tiles north of the position in its column |
| Day10Enclosed.BoxCountMeans | day10/part2.py:155-162 | the count over the box is the number of tiles in the box that pass the test |
| Day10Enclosed.EnclosedCountMeans | day10/part2.py:155-162 | result counts exactly the tiles of the box that are not pipes and are inside |
| Day10Enclosed.Maze.constructor | day10/part2.py:75-79 | a new maze is 1 by 1, has no pipes and no start |
| Day10Enclosed.Maze.AddTile | day10/part2.py:81-89 | 'S' records the start, a pipe shape adds an unflagged pipe and widens the bounds, any other character changes nothing |
| Day10Enclosed.Maze.Prune | day10/part2.py:104-107 | every pipe not flagged is deleted and the flagged ones stay as they are |
| Day10Enclosed.Maze.ClearFlags | day10/part2.py:113-114 | every is_loop flag is cleared and nothing else changes |
| Day10Enclosed.Maze.KeepLoop | day10/part2.py:103-112 | once back at the start, the pipes become the loop's pipes plus the start with the shape joining its two loop directions |
| Day10Enclosed.Maze.FindLoop | day10/part2.py:91-115 | find_loop keeps the loop of the first direction, in enum order, that closes one; it fails, as the source raises, exactly when none does |
| Day10Enclosed.Maze.IsInside | day10/part2.py:117-137 | is_inside is true exactly when an odd number of north-exit pipes lie west of the tile in its row, or an odd number of east-exit pipes lie north of it in its column |
| Day10Enclosed.CountRow | day10/part2.py:157-165 | the x loop adds to result the number of tiles of row y that are not pipes and are inside |
| Day10Enclosed.CountEnclosed | day10/part2.py:153-165 | the y and x loops count the enclosed tiles of the box 1..width by 1..height |
| Day10Enclosed.BoxCoversPipes | day10/part2.py:87-88 | width and height are at least 1 and the box they span holds every pipe read |
| Day10Enclosed.LoadRow | day10/part2.py:148-149 | the inner reading loop adds every character of the row as a tile |
| Day10Enclosed.Load | day10/part2.py:141-149 | the reading loop builds the maze of the rows up to the first empty one |
| Day10Enclosed.Run | day10/part2.py:140-169 | an answer exists exactly when there is a start and some direction closes a loop, and it is then the enclosed count of the box with only the first closing loop's pipes kept |
| Day11Expansion.RowGalaxies | day11/part2.py:31-38 | the galaxies of one line are its '#' cells, left to right |
| Day11Expansion.GalaxiesOf | day11/part2.py:25-38 | the galaxies of the image are its '#' cells in row-major order |
| Day11Expansion.EveryGalaxyRead | day11/part2.py:31-38 | every '#' of the image is a galaxy |
| Day11Expansion.HasAppend | day11/part2.py:34-38 | appending a galaxy occupies its column and its row and no other |
| Day11Expansion.ScanLine | day11/part2.py:31-38 | the character loop appends the line's galaxies, and a column or row is in occupied_columns or occupied_rows exactly when some galaxy has it |
| Day11Expansion.Scan | day11/part2.py:24-38 | the reading loop collects the image's galaxies, the occupied columns and rows, the width of the last line and the number of lines |
| Day11Expansion.EmptyIndicesMeans | day11/part2.py:40-41 | empty_columns and empty_rows list, in ascending order, exactly the indices below the width or height that are not occupied |
| Day11Expansion.CountBelow | day11/part2.py:43-53 | the number of empty lines below a coordinate is at most the number of empty lines |
| Day11Expansion.ShiftedClosedForm | day11/part2.py:43-53 | the loop moves a coordinate by EXPANSION - 1 for every empty line below it, the threshold x + i * (EXPANSION - 1) accounting for the earlier moves |
| Day11Expansion.ShiftedMonotone | day11/part2.py:43-53 | expansion keeps coordinates in order and ties as ties |
| Day11Expansion.ExpandedGap | day11/part2.py:43-58 | the gap between two expanded coordinates is the original gap plus EXPANSION - 1 for every empty line between them |
| Day11Expansion.ExpandColumns | day11/part2.py:43-47 | the column loop moves every galaxy's x to its expanded value and leaves y |
| Day11Expansion.ExpandRows | day11/part2.py:49-53 | the row loop moves every galaxy's y to its expanded value and leaves x |
| Day11Expansion.DistancesFrom | day11/part2.py:57-59 | the inner loop's distances are the Manhattan distances from a to each later galaxy, in order |
| Day11Expansion.AllDistancesCount | day11/part2.py:56-59 | there is one distance per unordered pair, n(n-1)/2 of them |
| Day11Expansion.AllDistancesSnoc | day11/part2.py:56-59 | one more galaxy at the end adds its distances to all galaxies before it |
| Day11Expansion.SumAllDistances | day11/part2.py:56-62 | the sum of distances in the order run produces them is the total over all pairs i < j |
| Day11Expansion.AddDistances | day11/part2.py:57-59 | the inner loop appends the distances from a to every galaxy after it |
| Day11Expansion.TotalDistance | day11/part2.py:55-62 | the distance loops sum the distances of every pair once |
| Day11Expansion.Columns | day11/part2.py:34-35 | the list of galaxy columns holds exactly the occupied columns |
| Day11Expansion.Rows | day11/part2.py:36-37 | the list of galaxy rows holds exactly the occupied rows |
| Day11Expansion.EmptyIndicesMembership | day11/part2.py:40-41 | the comprehension depends only on which indices are occupied, not on the order of the list |
| Day11Expansion.ExpandedGalaxiesMeans | day11/part2.py:43-53 | after expansion each galaxy has moved right by EXPANSION - 1 per empty column left of it and down by EXPANSION - 1 per empty row above it |
| Day11Expansion.Run | day11/part2.py:17-64 | the answer is the sum of the Manhattan distances of all pairs of expanded galaxies |
| Day12Springs.GapsOkMeans | day12/part1.py:9-11 | the first loop passes exactly when every group ends at least one cell before the next one starts |
| Day12Springs.InGroupMeans | day12/part1.py:16-19 | is_group is set exactly when some group covers the position |
| Day12Springs.CellsOkMeans | day12/part1.py:12-21 | the second loop passes exactly when every cell that is not '?' is '#' if and only if a group covers it |
| Day12Springs.IsPossibleLayoutMeans | day12/part1.py:8-22 | a layout is accepted exactly when the groups are separated and every '#' and '.' of the record agrees with them, '?' being free |
| Day12Springs.CheckLayout | day12/part1.py:8-22 | the loops with early returns accept exactly the layouts of the reference predicate |
| Day12Springs.UnknownNeverRejects | day12/part1.py:13-14 | turning a known cell into '?' never rejects an accepted layout |
| Day12Springs.Candidates | day12/part1.py:40-47 | every candidate offset lies in start..end |
| Day12Springs.CandidatesMeans | day12/part1.py:40-47 | positions holds, ascending, exactly the offsets in range with no '#' just before or just after the window and no '.' inside it |
| Day12Springs.RangeInBounds | day12/part1.py:38-39 | every index the offset loop reads lies inside the record |
| Day12Springs.CandidateLists | day12/part1.py:35-48 | group_positions holds one candidate list per group, in group order |
| Day12Springs.OffsetCandidates | day12/part1.py:40-47 | the offset loop builds the reference candidate list |
| Day12Springs.GroupPositions | day12/part1.py:35-48 | the group loop builds the candidate list of every group |
| Day12Springs.Prepend | day12/part1.py:51 | an element put in front of every tuple, one tuple each |
| Day12Springs.ProductMembers | day12/part1.py:51 | itertools.product holds exactly the tuples that pick one element of every list |
| Day12Springs.ProductDistinct | day12/part1.py:51 | lists without repeats give a product without repeated tuples |
| Day12Springs.Accepted | day12/part1.py:51-53 | the number accepted is at most the number of tuples |
| Day12Springs.CountArrangements | day12/part1.py:35-53 | record_arrangements is the number of tuples of the candidates' product that is_possible_layout accepts |
| Day12Springs.CountedAreArrangements | day12/part1.py:35-53 | every tuple counted puts one group per candidate inside the record, separated, covering every '#' and no '.', and no tuple is counted twice |
| Day12Springs.Run | day12/part1.py:25-58 | total_arrangements is the sum of the arrangements of every line, never negative |
| Common.Reverse | day13/part1.py:14 | reversed(s) holds the elements of s in the opposite order |
| Day13Mirrors.TopMirrorMeans | day13/part1.py:13-15 | shape[:i] == reversed(shape[i:i+i]) exactly when the line after row i is a line of reflection |
| Day13Mirrors.BottomMirrorMeans | day13/part1.py:17-20 | shape[j:] == reversed(shape[j-i:j]) exactly when the line after row height - i is a line of reflection |
| Day13Mirrors.NoMirrorAtAll | day13/part1.py:12-21 | a loop that tries every count without success has passed over every line of reflection there is, so there is none |
| Day13Mirrors.SearchFromSound | day13/part1.py:12-21 | a line the loop returns is a line of reflection; finding none means there is no line of reflection |
| Day13Mirrors.FirstMirrorCorrect | day13/part1.py:11-21 | the search returns a line of reflection and none the loop would have tried earlier, and returns nothing exactly when the pattern has no line of reflection |
| Day13Mirrors.RankInjective | day13/part1.py:12-21 | the order in which the loop tries the lines is a strict order: no two lines share a rank |
| Day13Mirrors.CompareTop | day13/part1.py:13-15 | the top == bottom comparison for the top candidate tells whether it is a line of reflection |
| Day13Mirrors.CompareBottom | day13/part1.py:17-20 | the top == bottom comparison for the bottom candidate tells whether it is a line of reflection |
| Day13Mirrors.SearchLines | day13/part1.py:11-21 | the search loop returns the reference first line of reflection |
| Day13Mirrors.Transposed | day13/part1.py:23-28 | transposed has one string per column, each as long as the pattern, with transposed[x][y] == shape[y][x] |
| Day13Mirrors.Transpose | day13/part1.py:23-28 | the nested append loops build the transposition, and raise IndexError exactly when some row is shorter than the first |
| Day13Mirrors.FindMirror | day13/part1.py:7-42 | find_mirror with its loops returns the reference result |
| Day13Mirrors.FindMirrorMeans | day13/part1.py:7-42 | the result is 100 times a horizontal line of reflection, or else a vertical one when no horizontal one exists; RuntimeError exactly when there is neither |
| Day13Mirrors.Summarize | day13/part1.py:54-62 | result is the sum of find_mirror over the non-empty patterns, and a failing pattern's error is the outcome |
| Day13Smudges.PartialAtMost | day13/part2.py:9-17 | the differences counted part way through the zipped rows never exceed the total |
| Day13Smudges.NoDiffsMeansEqual | day13/part2.py:10-12 | zipped strings without a difference agree at every zipped position |
| Day13Smudges.CompareLists | day13/part2.py:7-20 | without smudged the lists compare equal exactly when no zipped cell differs; with smudged exactly when one cell differs |
| Day13Smudges.DiffsSymmetric | day13/part2.py:9-12 | the number of differing cells does not depend on the order of the two strings |
| Day13Smudges.TopForm | day13/part2.py:29-31 | the top-anchored comparison counts the differences between the rows mirrored across line i |
| Day13Smudges.BottomForm | day13/part2.py:33-36 | the bottom-anchored comparison counts the differences between the rows mirrored across line height - i |
| Day13Smudges.NoSmudgeAtAll | day13/part2.py:28-37 | a loop that tries every count without success leaves no line with exactly one smudge |
| Day13Smudges.SearchFromSound | day13/part2.py:28-37 | a line the loop returns has exactly one smudge; finding none means no line has |
| Day13Smudges.FirstSmudgeCorrect | day13/part2.py:27-37 | the search returns a line with exactly one smudge and none the loop would have tried earlier, nothing exactly when no line has one |
| Day13Smudges.CompareTop | day13/part2.py:29-31 | compare_lists(smudged=True) on the top candidate tells whether line i has exactly one smudge |
| Day13Smudges.CompareBottom | day13/part2.py:33-36 | compare_lists(smudged=True) on the bottom candidate tells whether line height - i has exactly one smudge |
| Day13Smudges.SearchLines | day13/part2.py:27-37 | the search loop returns the reference first line with exactly one smudge |
| Day13Smudges.FindMirror | day13/part2.py:23-58 | find_mirror with its loops returns the reference result |
| Day13Smudges.FindMirrorMeans | day13/part2.py:23-58 | the result is 100 times a horizontal line with exactly one smudge, or else such a vertical line when no horizontal one exists; RuntimeError exactly when there is neither |
| Day13Smudges.Summarize | day13/part2.py:70-78 | result is the sum of find_mirror over the non-empty patterns, and a failing pattern's error is the outcome |
| Day14Tilt.Rocks | day14/part1.py:30 | space.count("O") is at most the length of the piece |
| Day14Tilt.Repeat | day14/part1.py:31 | "O" * rocks and the ljust padding: n copies of one character |
| Day14Tilt.RocksAppend | day14/part1.py:30 | the round rocks of two joined strings are those of each added up |
| Day14Tilt.TiltPieceShape | day14/part1.py:31 | a tilted piece keeps its length and its round rocks, has no cube rock, and has every round rock above every empty cell |
| Day14Tilt.TiltPieces | day14/part1.py:29-31 | shifted holds every piece of the column tilted, in order |
| Day14Tilt.TiltShape | day14/part1.py:29-36 | "#".join(shifted) keeps the column's length and every cube rock in place, and its pieces are the tilted pieces |
| Day14Tilt.TiltIdempotent | day14/part1.py:29-36 | tilting a tilted column changes nothing |
| Day14Tilt.WeightAppend | day14/part1.py:33-34 | the load of two joined strings is the load of the first plus that of the second with its top lowered by the first's length |
| Day14Tilt.GaussDouble | day14/part1.py:33 | twice the load of rocks stacked from load_start down is rocks * (load_start * 2 - rocks + 1) |
| Day14Tilt.GaussClosedForm | day14/part1.py:33 | rocks * (load_start * 2 - rocks + 1) is even, so int(... / 2) is exact and equals the load of rocks stacked from load_start down |
| Day14Tilt.WeightTiltPiece | day14/part1.py:31-33 | a tilted piece whose top carries load_start weighs the Gaussian sum of its rocks |
| Day14Tilt.PiecesLoadIsWeight | day14/part1.py:29-34 | adding the pieces' closed-form loads as load_start steps past each piece and its '#' gives the load of the tilted column |
| Day14Tilt.ColumnLoadCorrect | day14/part1.py:27-34 | the load run computes for a column is the north load of the tilted column |
| Day14Tilt.ColumnLoad | day14/part1.py:26-35 | the loop over the pieces builds the tilted column and its north load |
| Day14Tilt.WeightNonNegative | day14/part1.py:33 | a load is never negative when the top carries at least the length |
| Day14Tilt.PlatformLoad | day14/part1.py:17-39 | the answer exists exactly when there is a row and no row is shorter than the first (else IndexError), and is then the sum of the tilted columns' north loads, never negative |
| Day15Hash.Step | day15/part1.py:15-17 | one character of the HASH loop keeps the value below 256 |
| Day15Hash.Hash | day15/part1.py:13-17 | the HASH of a step is below 256 |
| Day15Hash.HashEmpty | day15/part1.py:13 | the empty step hashes to 0 |
| Day15Hash.HashAppend | day15/part1.py:14-17 | one more character is one more step of the loop |
| Day15Hash.HashConcat | day15/part1.py:14-17 | hashing s + t is hashing s and carrying on over t from that value |
| Day15Hash.HashIsFold | day15/part1.py:13-17 | the front-to-back fold from 0 is the HASH |
| Day15Hash.HashOf | day15/part1.py:13-17 | the character loop computes the HASH of the step, in 0..255 |
| Day15Hash.Hashes | day15/part1.py:11-18 | every step of the comma-split line is hashed, in order |
| Day15Hash.TotalOf | day15/part1.py:10-18 | total is the sum of the hashes of the steps, at most 255 per step |
| Day15Boxes.Labels | day15/part2.py:15-36 | the labels of a box in slot order, one per lens |
| Day15Boxes.IndexOf | day15/part2.py:30-32 | the slot of the first lens with the label, or the box's length when there is none |
| Day15Boxes.Find | day15/part2.py:30-31 | a focal length is stored under the label exactly when the label is in the box |
| Day15Boxes.Delete | day15/part2.py:32 | del leaves no lens with the label and never grows the box |
| Day15Boxes.DeleteSlot | day15/part2.py:32 | in a box with distinct labels, del takes out exactly that label's slot, and the lenses before and after it keep their order |
| Day15Boxes.DeleteAt | day15/part2.py:32 | when only slot k holds the label, removing it gives the box without slot k, with the rest in order |
| Day15Boxes.DeleteNone | day15/part2.py:31 | removing a label no lens holds gives back the same box |
| Day15Boxes.AssignSlots | day15/part2.py:30 | an existing label keeps its slot with the new focal length and the other lenses stay; a new label goes last |
| Day15Boxes.FindAssigned | day15/part2.py:30 | after boxes[box_id][label] = f the label finds f |
| Day15Boxes.FindAssignedOther | day15/part2.py:30 | putting one label leaves every other label's lens as it was |
| Day15Boxes.AssignDistinct | day15/part2.py:30 | putting keeps the labels of a box distinct |
| Day15Boxes.FindDeleted | day15/part2.py:32 | after del the label is gone |
| Day15Boxes.FindDeletedOther | day15/part2.py:32 | removing one label leaves every other label's lens as it was |
| Day15Boxes.DeleteDistinct | day15/part2.py:32 | removing keeps the labels distinct, and only lenses of the box remain |
| Day15Boxes.DeleteAbsent | day15/part2.py:31 | removing a label that is absent changes nothing |
| Day15Boxes.DeleteUndoesNewAssign | day15/part2.py:30-32 | putting a new label and removing it again gives back the box |
| Day15Boxes.AssignTwice | day15/part2.py:30 | putting the same label twice keeps only the second focal length, in the first one's slot |
| Day15Boxes.BoxOf | day15/part2.py:22-26 | the box of a label is its HASH, below 256 |
| Day15Boxes.ApplyOthers | day15/part2.py:27-32 | one step changes only the box of its label |
| Day15Boxes.RemoveAbsent | day15/part2.py:31 | a '-' step for a label not in its box, or for a box never created, changes nothing |
| Day15Boxes.ApplyWellFormed | day15/part2.py:27-32 | every step keeps each box under its own number with distinct labels |
| Day15Boxes.ArrangeLastPut | day15/part2.py:27-30 | right after an '=' step, the label's box holds that focal length for it |
| Day15Boxes.Run | day15/part2.py:17-32 | the step loop builds the reference arrangement of boxes, which stays well formed |
| Day15Boxes.BoxPowerNonNegative | day15/part2.py:36-38 | the power of a box is never negative |
| Day15Boxes.EmptyBoxPower | day15/part2.py:35-38 | an emptied box adds nothing, like one never created |
| Day15Boxes.TotalPower | day15/part2.py:34-38 | the total loop adds (box_id + 1) * slot * focal_length over every lens of every box |
| Day15Boxes.FocusingPowerOf | day15/part2.py:11-40 | the answer is the focusing power after applying every step |

## Left out

- Input and output. Opening and reading the file, `str.strip`, the regular expressions that parse lines, every `print`, and the `__main__` handling of `sys.argv` are not modelled. Each model takes the parsed values as parameters: lines, records, rule lines, games, cards, nodes or steps.
- `Maze.render` (day10/part1.py:112-126): it only builds text for display.
- day06: not modelled. It finds quadratic roots with floating-point `math.sqrt` and a 0.1 fudge term, which has no exact counterpart on integers.
- Floating point elsewhere is written on integers.
  - `ceil(float(depth) / 2.0)` (day10/part1.py:159) becomes `(depth + 1) / 2`.
  - `int(rocks * (...) / 2)` (day14/part1.py:33) becomes exact halving. Day14Tilt.GaussClosedForm proves the product is even.
- `str.isnumeric` and `int()` read ASCII `0`-`9` only. Day01Words.ConvertNumber returns None where `int()` would raise, and its other Unicode digits are not modelled.
- The regular expression with lookahead in day01/part2.py:34,37 becomes a scan over every position of the line, trying a digit first and then the words in STR_NUMBERS order.
- The chain in day05/part1.py:71-73 and day05/part2.py:130-132 is taken as given. It is the list of mappers built by following `maps[...].dest`. The `KeyError` of a missing `maps["seed"]` is not modelled.
- Day05Ranges.MapValue: requires every section to span at least one value (`ValidSections`). A rule line with size 0 or a negative size is therefore not modelled; such a section has no well-founded measure for the worklist. Input ranges may be empty or malformed, and those are handled.
- The day05 mappers are not checked for overlapping sections, as the code does not check either. The first section in list order decides.
- Day07Jokers.SortPlayers: the contract states that the result is ordered by `__lt__` and is a permutation of the players. It does not state that `sorted` is stable. `InsertPlayer` places a player after every player that is not greater, so equal hands keep their input order, but no lemma states this. Players tie only when they hold the same cards. Their bids can still differ, so the order chosen between them changes the total.
- Day07Jokers.TotalWinnings: the ranking loop (day07/part2.py:87-91) sets `player.rank` and `player.winnings` on shared objects. The model rebuilds the players as new values and returns the sum, so aliasing of the player objects is not modelled. `sorted(players)` is modelled as a stable insertion sort by `__lt__`; its result is proved sorted and a permutation.
- The day08 walks (day08/part1.py:41-53, day08/part2.py:53-70) can loop forever.
  - Both take a `fuel` bound on the number of passes over the instructions and report `OutOfFuel` when it runs out. Empty instructions run out at once, where the code would loop forever.
  - A missing node and a bad direction both raise `KeyError` in the code. The model keeps them apart as `MissingNode` and `BadDirection`.
- Day08Ghosts.OutcomeMeans: states that the answer is the lcm of each instance's first arrival at a `..Z` node. It does not claim that this is the first step at which all instances stand on `..Z` nodes together. That holds only for the special structure of the puzzle input, which the code neither checks nor promises.
- The dict `nodes` in day08 becomes a sequence of nodes in insertion order. A repeated name replaces the entry in place, and `nodes.values()` keeps that order.
- The `Pipe` objects in day10 become entries of the `pipes` map. Setting `depth` or `is_loop` replaces the entry, so aliasing of pipe objects is not modelled.
- The follow and find_loop walks in day10 are methods on the map value (`WalkFrom`, `MarkFrom`). The `Maze` method calls them and stores the result.
- The day10 models return None where the code fails.
  - A maze without a start tile fails with `AttributeError` in the code.
  - A maze where no direction closes a loop fails with `RuntimeError`.
- The day03 number, symbol and gear records become datatypes. Their `is_partnumber` and `gear_ratio` fields are arrays indexed like the lists.
- The day11 `Position` objects become the elements of an array that the expansion loops update in place.
- The day11 and day14 models take the image rows up to the first empty line, as the reading loops stop there.
- The day12 group sizes are natural numbers. `int()` of a negative size is not modelled.
- Day09History.PredictAdditive: linearity is stated as additivity. Scaling a history by a constant is left out, because it needs nonlinear arithmetic.
- Day13Mirrors.FindMirrorMeans and Day13Smudges.FindMirrorMeans: stated for patterns whose rows are all at least as long as the first. For other patterns the model still follows the code: the row search runs, then the transposition fails with `IndexError`, as Transpose states. No lemma describes that outcome further.
- The `matches is None` case of day15/part2.py:19-21 is not modelled. Steps come already parsed as `Put(label, focal)` or `Remove(label)`.
- Day15Boxes.TotalPower: visits box numbers 0..255 in ascending order. The code visits `boxes` in insertion order of the box numbers. The sum is the same, but the order of additions differs.
- Concurrency, timing and file encodings play no part in any script.

## Findings

| source | as written | input that shows it | evidently intended | confidence | as-written member | corrected member |
|---|---|---|---|---|---|---|
| day05/part1.py:19-20 | `value >= self.src and value <= self.src + self.size` also admits `src + size` | rule line `50 98 2` and seed 100: the code maps 100 to 52, although the rule covers only 98 and 99 | `src <= value < src + size`, as part 2 uses (day05/part2.py:119-127) | not executed | Day05Points.InclusiveBoundMapsOnePastTheEnd | Day05Points.LookupIntendedAgrees |

The seed loop of part 1 is modelled as written (`Day05Points.Lookup`,
`Day05Points.ClosestLocation`). The intended test exists as
`Day05Points.LookupIntended` and `Day05Points.LocationIntended`. Lemmas
prove that these agree with part 2's point mapping of the same rules
(`Day05Points.LookupIntendedAgrees`, `Day05Points.LocationIntendedAgrees`).
`Day05Points.BoundsDifferOnlyAtTheEnd` shows that the two tests differ on
the single value `src + size`.
