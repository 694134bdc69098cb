/**
 * Scratchcard points (day04/part1.py). A card is worth 1 point for its
 * first owned number that is also a winning number and doubles for every
 * further one.
 */
module Day04Points {
  import opened Common

  /** A scratchcard; its score is filled in by the scoring loop. */
  class Card {
    const cardId: int
    const winningNumbers: seq<int>
    const ownedNumbers: seq<int>
    var score: int

    constructor (cardId: int, winningNumbers: seq<int>, ownedNumbers: seq<int>)
      ensures this.cardId == cardId
      ensures this.winningNumbers == winningNumbers && this.ownedNumbers == ownedNumbers
      ensures score == 0
    {
      this.cardId := cardId;
      this.winningNumbers := winningNumbers;
      this.ownedNumbers := ownedNumbers;
      score := 0;
    }
  }

  /** How many owned entries appear among the winning numbers, repeats counted each time. */
  function Matches(winning: seq<int>, owned: seq<int>): (m: nat)
    ensures m <= |owned|
  {
    if |owned| == 0 then 0
    else Matches(winning, owned[..|owned| - 1]) + (if owned[|owned| - 1] in winning then 1 else 0)
  }

  /** The score after m more matches, starting from score s: 1 on the first, doubled on every next one. */
  function Doubled(s: int, m: nat): int
    decreases m
  {
    if m == 0 then s else Doubled(if s == 0 then 1 else s * 2, m - 1)
  }

  function Pow2(n: nat): (p: nat)
    ensures p >= 1
  {
    if n == 0 then 1 else 2 * Pow2(n - 1)
  }

  /** The value of a card with m matches: 0, or 2^(m-1). */
  function Points(m: nat): nat
  {
    if m == 0 then 0 else Pow2(m - 1)
  }

  lemma {:induction false} DoubledPower(n: nat, m: nat)
    ensures Doubled(Pow2(n), m) == Pow2(n + m)
    decreases m
  {
    if m > 0 {
      DoubledPower(n + 1, m - 1);
    }
  }

  /** From a fresh card, the doubling loop ends at 0 for no match and at 2^(m-1) otherwise. */
  lemma DoubledFromZero(m: nat)
    ensures Doubled(0, m) == Points(m)
  {
    if m > 0 {
      DoubledPower(0, m - 1);
    }
  }

  /** Matches of the owned entries without the one at index k. */
  lemma {:induction false} MatchesRemove(winning: seq<int>, owned: seq<int>, k: nat)
    requires k < |owned|
    ensures Matches(winning, owned) ==
      Matches(winning, owned[..k] + owned[k + 1..]) + (if owned[k] in winning then 1 else 0)
    decreases |owned|
  {
    var rest := owned[..k] + owned[k + 1..];
    if k < |owned| - 1 {
      var init := owned[..|owned| - 1];
      MatchesRemove(winning, init, k);
      assert rest[..|rest| - 1] == init[..k] + init[k + 1..];
      assert rest[|rest| - 1] == owned[|owned| - 1];
    } else {
      assert rest == owned[..|owned| - 1];
    }
  }

  /** The score depends only on which entries are owned, not on their order. */
  lemma {:induction false} MatchesIgnoresOrder(winning: seq<int>, owned: seq<int>, other: seq<int>)
    requires multiset(owned) == multiset(other)
    ensures Matches(winning, owned) == Matches(winning, other)
    decreases |owned|
  {
    if |owned| > 0 {
      var init := owned[..|owned| - 1];
      var x := owned[|owned| - 1];
      assert x in multiset(other);
      var k :| 0 <= k < |other| && other[k] == x;
      var rest := other[..k] + other[k + 1..];
      MultisetRemove(other, k);
      MultisetRemove(owned, |owned| - 1);
      assert init + owned[|owned|..] == init;
      assert multiset(init) == multiset(rest);
      MatchesIgnoresOrder(winning, init, rest);
      MatchesRemove(winning, other, k);
      MatchesRemove(winning, owned, |owned| - 1);
    } else {
      assert |multiset(other)| == 0;
    }
  }

  lemma MultisetRemove(s: seq<int>, k: nat)
    requires k < |s|
    ensures multiset(s[..k] + s[k + 1..]) == multiset(s) - multiset{s[k]}
  {
    assert s == s[..k] + [s[k]] + s[k + 1..];
    assert multiset(s) == multiset(s[..k]) + multiset{s[k]} + multiset(s[k + 1..]);
  }

  /** The inner loop of run for one card. */
  method ScoreCard(c: Card)
    modifies c
    ensures c.score == Doubled(old(c.score), Matches(c.winningNumbers, c.ownedNumbers))
  {
    ghost var start := c.score;
    var n := 0;
    while n < |c.ownedNumbers|
      invariant 0 <= n <= |c.ownedNumbers|
      invariant c.score == Doubled(start, Matches(c.winningNumbers, c.ownedNumbers[..n]))
    {
      var number := c.ownedNumbers[n];
      assert c.ownedNumbers[..n + 1][..n] == c.ownedNumbers[..n];
      DoubledStep(start, Matches(c.winningNumbers, c.ownedNumbers[..n]));
      if number in c.winningNumbers {
        if c.score == 0 {
          c.score := 1;
        } else {
          c.score := c.score * 2;
        }
      }
      n := n + 1;
    }
    assert c.ownedNumbers[..n] == c.ownedNumbers;
  }

  /** One more match: 0 becomes 1, anything else doubles. */
  lemma {:induction false} DoubledStep(s: int, m: nat)
    ensures Doubled(s, m + 1) == if Doubled(s, m) == 0 then 1 else Doubled(s, m) * 2
    decreases m
  {
    if m > 0 {
      DoubledStep(if s == 0 then 1 else s * 2, m - 1);
    }
  }

  /** The cards of the input, one parsed (id, winning, owned) line each. */
  method MakeCards(lines: seq<(int, seq<int>, seq<int>)>) returns (cards: seq<Card>)
    ensures |cards| == |lines|
    ensures forall i :: 0 <= i < |cards| ==> fresh(cards[i])
    ensures forall i, j :: 0 <= i < j < |cards| ==> cards[i] != cards[j]
    ensures forall i :: 0 <= i < |cards| ==>
      cards[i].score == 0 && cards[i].cardId == lines[i].0 && cards[i].winningNumbers == lines[i].1 && cards[i].ownedNumbers == lines[i].2
  {
    cards := [];
    var n := 0;
    while n < |lines|
      invariant 0 <= n <= |lines| && |cards| == n
      invariant forall i :: 0 <= i < n ==> fresh(cards[i])
      invariant forall i, j :: 0 <= i < j < n ==> cards[i] != cards[j]
      invariant forall i :: 0 <= i < n ==>
        cards[i].score == 0 && cards[i].cardId == lines[i].0 && cards[i].winningNumbers == lines[i].1 && cards[i].ownedNumbers == lines[i].2
    {
      var c := new Card(lines[n].0, lines[n].1, lines[n].2);
      cards := cards + [c];
      n := n + 1;
    }
  }

  /** The points of every line, in order. */
  function AllPoints(lines: seq<(int, seq<int>, seq<int>)>): (ps: seq<int>)
    ensures |ps| == |lines|
    ensures forall i :: 0 <= i < |lines| ==> ps[i] == Points(Matches(lines[i].1, lines[i].2))
  {
    if |lines| == 0 then []
    else AllPoints(lines[..|lines| - 1]) + [Points(Matches(lines[|lines| - 1].1, lines[|lines| - 1].2))]
  }

  /** run after parsing: score every card, then add up the scores. */
  method Run(lines: seq<(int, seq<int>, seq<int>)>) returns (result: int)
    ensures result == Sum(AllPoints(lines))
    ensures result >= 0
  {
    var cards := MakeCards(lines);
    var n := 0;
    while n < |cards|
      invariant 0 <= n <= |cards|
      invariant forall i :: 0 <= i < |cards| ==>
        cards[i].cardId == lines[i].0 && cards[i].winningNumbers == lines[i].1 && cards[i].ownedNumbers == lines[i].2
      invariant forall i :: 0 <= i < n ==> cards[i].score == Points(Matches(lines[i].1, lines[i].2))
      invariant forall i :: n <= i < |cards| ==> cards[i].score == 0
    {
      ScoreCard(cards[n]);
      DoubledFromZero(Matches(lines[n].1, lines[n].2));
      n := n + 1;
    }
    var scores := seq(|cards|, i requires 0 <= i < |cards| reads cards => cards[i].score);
    assert scores == AllPoints(lines);
    SumNonNegative(scores);
    result := Sum(scores);
  }
}
