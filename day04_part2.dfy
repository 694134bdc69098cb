/**
 * Scratchcard copies (day04/part2.py). Every card starts as one instance;
 * a card with m matches wins one copy of each of the next m cards for every
 * instance of itself, and the answer is the number of instances in the end.
 * A card whose wins reach past the last card makes the program fail.
 */
module Day04Instances {
  import opened Common
  import Day04Points

  /** A scratchcard with its match count and how many instances of it are held. */
  class Card {
    const cardId: int
    const winningNumbers: seq<int>
    const ownedNumbers: seq<int>
    var score: int
    var instances: int

    constructor (cardId: int, winningNumbers: seq<int>, ownedNumbers: seq<int>)
      ensures this.cardId == cardId
      ensures this.winningNumbers == winningNumbers && this.ownedNumbers == ownedNumbers
      ensures score == 0 && instances == 1
    {
      this.cardId := cardId;
      this.winningNumbers := winningNumbers;
      this.ownedNumbers := ownedNumbers;
      score := 0;
      instances := 1;
    }
  }

  // ---------------------------------------------------------------------
  // The propagation on instance counts
  // ---------------------------------------------------------------------

  /**
   * Processing card i with the given score: card i's instance count is
   * added to each of the next score cards; None when that runs past the end.
   */
  function Copies(inst: seq<int>, i: nat, score: nat): Option<seq<int>>
    requires i < |inst|
  {
    if i + score >= |inst| then None
    else Some(seq(|inst|, j requires 0 <= j < |inst| => if i < j <= i + score then inst[j] + inst[i] else inst[j]))
  }

  /** Step i fails exactly when its wins reach past the last card; otherwise only cards i+1..i+score gain, by the snapshot of card i. */
  lemma CopiesMeans(inst: seq<int>, i: nat, score: nat)
    requires i < |inst|
    ensures Copies(inst, i, score).None? <==> i + score >= |inst|
    ensures Copies(inst, i, score).Some? ==>
      var r := Copies(inst, i, score).value;
      |r| == |inst| && r[..i + 1] == inst[..i + 1] &&
      (forall j :: 0 <= j < |inst| ==> r[j] == inst[j] + (if i < j <= i + score then inst[i] else 0)) &&
      (inst[i] >= 0 ==> forall j :: 0 <= j < |inst| ==> r[j] >= inst[j])
  {
  }

  /** The instance counts after the first k cards are processed, ms being the match counts. */
  function Process(ms: seq<nat>, k: nat): (r: Option<seq<int>>)
    requires k <= |ms|
    ensures r.Some? ==> |r.value| == |ms|
  {
    if k == 0 then Some(seq(|ms|, _ => 1))
    else
      match Process(ms, k - 1)
      case None => None
      case Some(inst) => Copies(inst, k - 1, ms[k - 1])
  }

  /** The propagation fails exactly when some processed card wins past the last card. */
  lemma {:induction false} ProcessFails(ms: seq<nat>, k: nat)
    requires k <= |ms|
    ensures Process(ms, k).None? <==> exists i :: 0 <= i < k && i + ms[i] >= |ms|
  {
    if k > 0 {
      ProcessFails(ms, k - 1);
      if Process(ms, k - 1).Some? {
        CopiesMeans(Process(ms, k - 1).value, k - 1, ms[k - 1]);
      }
    }
  }

  /** Every card always holds at least its original instance. */
  lemma {:induction false} ProcessPositive(ms: seq<nat>, k: nat)
    requires k <= |ms|
    ensures Process(ms, k).Some? ==> forall j :: 0 <= j < |ms| ==> Process(ms, k).value[j] >= 1
  {
    if k > 0 {
      ProcessPositive(ms, k - 1);
      if Process(ms, k - 1).Some? {
        CopiesMeans(Process(ms, k - 1).value, k - 1, ms[k - 1]);
      }
    }
  }

  /** Step k leaves cards 0..k alone and never lowers a count. */
  lemma ProcessStep(ms: seq<nat>, k: nat)
    requires k < |ms|
    requires Process(ms, k + 1).Some?
    ensures Process(ms, k).Some?
    ensures Process(ms, k + 1).value[..k + 1] == Process(ms, k).value[..k + 1]
    ensures forall j :: 0 <= j < |ms| ==> Process(ms, k + 1).value[j] >= Process(ms, k).value[j]
  {
    ProcessPositive(ms, k);
    CopiesMeans(Process(ms, k).value, k, ms[k]);
  }

  /** What cards 0..k-1 won of card j, counted with the instance counts in r. */
  function Contributions(ms: seq<nat>, r: seq<int>, j: nat, k: nat): int
    requires k <= |ms| && k <= |r|
  {
    if k == 0 then 0
    else Contributions(ms, r, j, k - 1) + (if k - 1 + ms[k - 1] >= j then r[k - 1] else 0)
  }

  lemma {:induction false} ContributionsFrame(ms: seq<nat>, r: seq<int>, r': seq<int>, j: nat, k: nat)
    requires k <= |ms| && k <= |r| && k <= |r'|
    requires r[..k] == r'[..k]
    ensures Contributions(ms, r, j, k) == Contributions(ms, r', j, k)
  {
    if k > 0 {
      assert r[k - 1] == r[..k][k - 1] == r'[..k][k - 1] == r'[k - 1];
      assert r[..k - 1] == r[..k][..k - 1] == r'[..k][..k - 1] == r'[..k - 1];
      ContributionsFrame(ms, r, r', j, k - 1);
    }
  }

  /** After k steps card j holds its original plus what the first min(j, k) cards won of it. */
  lemma {:induction false} ProcessRecurrence(ms: seq<nat>, k: nat)
    requires k <= |ms|
    ensures Process(ms, k).Some? ==>
      forall j :: 0 <= j < |ms| ==>
        Process(ms, k).value[j] == 1 + Contributions(ms, Process(ms, k).value, j, Min(j, k))
  {
    if k > 0 && Process(ms, k).Some? {
      ProcessRecurrence(ms, k - 1);
      var inst := Process(ms, k - 1).value;
      var r := Process(ms, k).value;
      CopiesMeans(inst, k - 1, ms[k - 1]);
      forall j | 0 <= j < |ms|
        ensures r[j] == 1 + Contributions(ms, r, j, Min(j, k))
      {
        if j < k {
          assert r[..j] == inst[..j] by {
            assert r[..j] == r[..k][..j];
            assert inst[..j] == inst[..k][..j];
          }
          ContributionsFrame(ms, r, inst, j, j);
        } else {
          assert r[..k - 1] == inst[..k - 1] by {
            assert r[..k - 1] == r[..k][..k - 1];
            assert inst[..k - 1] == inst[..k][..k - 1];
          }
          ContributionsFrame(ms, r, inst, j, k - 1);
          assert r[k - 1] == inst[k - 1];
        }
      }
    }
  }

  // ---------------------------------------------------------------------
  // An independent reference count
  // ---------------------------------------------------------------------

  /** The instances of card j: one original plus one per instance of every earlier card whose wins reach j. */
  function Count(ms: seq<nat>, j: nat): int
    requires j < |ms|
    decreases j, 1
  {
    1 + Reach(ms, j, j)
  }

  /** The copies of card j won by cards 0..k-1. */
  function Reach(ms: seq<nat>, j: nat, k: nat): int
    requires k <= j < |ms|
    decreases j, 0, k
  {
    if k == 0 then 0
    else Reach(ms, j, k - 1) + (if k - 1 + ms[k - 1] >= j then Count(ms, k - 1) else 0)
  }

  lemma {:induction false} ContributionsReach(ms: seq<nat>, r: seq<int>, j: nat, k: nat)
    requires k <= j < |ms| && |r| == |ms|
    requires forall i :: 0 <= i < k ==> r[i] == Count(ms, i)
    ensures Contributions(ms, r, j, k) == Reach(ms, j, k)
  {
    if k > 0 {
      ContributionsReach(ms, r, j, k - 1);
    }
  }

  lemma {:induction false} CountAgrees(ms: seq<nat>, r: seq<int>, j: nat)
    requires j < |ms| && |r| == |ms|
    requires forall i :: 0 <= i < |ms| ==> r[i] == 1 + Contributions(ms, r, i, i)
    ensures r[j] == Count(ms, j)
    decreases j
  {
    forall i | 0 <= i < j
      ensures r[i] == Count(ms, i)
    {
      CountAgrees(ms, r, i);
    }
    ContributionsReach(ms, r, j, j);
  }

  /** The match count of every parsed card line. */
  function MatchCounts(lines: seq<(int, seq<int>, seq<int>)>): (ms: seq<nat>)
    ensures |ms| == |lines|
  {
    seq(|lines|, k requires 0 <= k < |lines| => Day04Points.Matches(lines[k].1, lines[k].2))
  }

  /** The answer: the total number of instances, None when a card wins past the end. */
  function TotalInstances(lines: seq<(int, seq<int>, seq<int>)>): Option<int>
  {
    match Process(MatchCounts(lines), |lines|)
    case None => None
    case Some(r) => Some(Sum(r))
  }

  lemma {:induction false} SumAtLeastLength(s: seq<int>)
    requires forall k :: 0 <= k < |s| ==> s[k] >= 1
    ensures Sum(s) >= |s|
    decreases |s|
  {
    if |s| > 0 {
      SumAtLeastLength(s[..|s| - 1]);
    }
  }

  /**
   * The answer fails exactly when some card's wins reach past the last card;
   * otherwise it is the sum of the reference counts, and at least one per card.
   */
  lemma TotalInstancesMeans(lines: seq<(int, seq<int>, seq<int>)>)
    ensures var ms := MatchCounts(lines);
      TotalInstances(lines).None? <==> exists i :: 0 <= i < |ms| && i + ms[i] >= |ms|
    ensures var ms := MatchCounts(lines);
      TotalInstances(lines).Some? ==>
        TotalInstances(lines).value == Sum(seq(|ms|, j requires 0 <= j < |ms| => Count(ms, j))) &&
        TotalInstances(lines).value >= |lines|
  {
    var ms := MatchCounts(lines);
    ProcessFails(ms, |ms|);
    if Process(ms, |ms|).Some? {
      var r := Process(ms, |ms|).value;
      ProcessRecurrence(ms, |ms|);
      forall i | 0 <= i < |ms|
        ensures r[i] == 1 + Contributions(ms, r, i, i)
      {
        assert Min(i, |ms|) == i;
      }
      forall j | 0 <= j < |ms|
        ensures r[j] == Count(ms, j)
      {
        CountAgrees(ms, r, j);
      }
      assert r == seq(|ms|, j requires 0 <= j < |ms| => Count(ms, j));
      ProcessPositive(ms, |ms|);
      SumAtLeastLength(r);
    }
  }

  // ---------------------------------------------------------------------
  // The cards loop
  // ---------------------------------------------------------------------

  /** The match-counting loop for one card. */
  method CountMatches(c: Card)
    modifies c
    ensures c.score == old(c.score) + Day04Points.Matches(c.winningNumbers, c.ownedNumbers)
    ensures c.instances == old(c.instances)
  {
    ghost var start := c.score;
    var n := 0;
    while n < |c.ownedNumbers|
      invariant 0 <= n <= |c.ownedNumbers|
      invariant c.score == start + Day04Points.Matches(c.winningNumbers, c.ownedNumbers[..n])
      invariant c.instances == old(c.instances)
    {
      assert c.ownedNumbers[..n + 1][..n] == c.ownedNumbers[..n];
      if c.ownedNumbers[n] in c.winningNumbers {
        c.score := c.score + 1;
      }
      n := n + 1;
    }
    assert c.ownedNumbers[..n] == c.ownedNumbers;
  }

  /** The instance counts of the cards, in order. */
  function InstancesOf(cards: seq<Card>): seq<int>
    reads cards
  {
    seq(|cards|, k requires 0 <= k < |cards| reads cards => cards[k].instances)
  }

  /**
   * The copying loop of card i: amount is added to cards i+1..i+score. It
   * reports false when it reaches past the last card; the cards it had
   * already reached keep their extra instances.
   */
  method ShareCopies(cards: seq<Card>, i: nat, amount: int) returns (ok: bool)
    requires i < |cards| && cards[i].score >= 0
    requires forall a, b :: 0 <= a < b < |cards| ==> cards[a] != cards[b]
    modifies cards
    ensures ok <==> i + old(cards[i].score) < |cards|
    ensures forall k :: 0 <= k < |cards| ==> cards[k].score == old(cards[k].score)
    ensures forall k :: 0 <= k < |cards| ==>
      cards[k].instances == old(cards[k].instances) +
        (if i < k && (!ok || k <= i + old(cards[i].score)) then amount else 0)
  {
    var score := cards[i].score;
    var offset := 1;
    while offset <= score
      invariant 1 <= offset <= score + 1
      invariant i + offset - 1 < |cards|
      invariant forall k :: 0 <= k < |cards| ==> cards[k].score == old(cards[k].score)
      invariant forall k :: 0 <= k < |cards| ==>
        cards[k].instances == old(cards[k].instances) + (if i < k < i + offset then amount else 0)
    {
      if i + offset >= |cards| {
        return false;
      }
      cards[i + offset].instances := cards[i + offset].instances + amount;
      offset := offset + 1;
    }
    return true;
  }

  /** The cards of the input, one parsed (id, winning, owned) line each. */
  method MakeCards(lines: seq<(int, seq<int>, seq<int>)>) returns (cards: seq<Card>)
    ensures |cards| == |lines|
    ensures forall i :: 0 <= i < |cards| ==> fresh(cards[i])
    ensures forall i, j :: 0 <= i < j < |cards| ==> cards[i] != cards[j]
    ensures forall i :: 0 <= i < |cards| ==>
      cards[i].score == 0 && cards[i].instances == 1 &&
      cards[i].cardId == lines[i].0 && cards[i].winningNumbers == lines[i].1 && cards[i].ownedNumbers == lines[i].2
  {
    cards := [];
    var n := 0;
    while n < |lines|
      invariant 0 <= n <= |lines| && |cards| == n
      invariant forall i :: 0 <= i < n ==> fresh(cards[i])
      invariant forall i, j :: 0 <= i < j < n ==> cards[i] != cards[j]
      invariant forall i :: 0 <= i < n ==>
        cards[i].score == 0 && cards[i].instances == 1 &&
        cards[i].cardId == lines[i].0 && cards[i].winningNumbers == lines[i].1 && cards[i].ownedNumbers == lines[i].2
    {
      var c := new Card(lines[n].0, lines[n].1, lines[n].2);
      cards := cards + [c];
      n := n + 1;
    }
  }

  /** One pass of the cards loop: snapshot the instances of card i, count its matches, hand out copies. */
  method ProcessCard(cards: seq<Card>, i: nat) returns (ok: bool)
    requires i < |cards| && cards[i].score == 0
    requires forall a, b :: 0 <= a < b < |cards| ==> cards[a] != cards[b]
    modifies cards
    ensures var m := Day04Points.Matches(cards[i].winningNumbers, cards[i].ownedNumbers);
      (ok <==> i + m < |cards|) &&
      (ok ==> Copies(old(InstancesOf(cards)), i, m) == Some(InstancesOf(cards)))
    ensures forall k :: 0 <= k < |cards| && k != i ==> cards[k].score == old(cards[k].score)
  {
    ghost var before := InstancesOf(cards);
    var c := cards[i];
    var instances := c.instances;
    CountMatches(c);
    ghost var m := c.score;
    ghost var mid := InstancesOf(cards);
    assert mid == before;
    ok := ShareCopies(cards, i, instances);
    if ok {
      CopiesMeans(before, i, m);
      forall k | 0 <= k < |cards|
        ensures InstancesOf(cards)[k] == Copies(before, i, m).value[k]
      {
        assert mid[k] == before[k];
      }
      assert InstancesOf(cards) == Copies(before, i, m).value;
    }
  }

  /** run after parsing: count matches and hand out copies card by card, then add up the instances. */
  method Run(lines: seq<(int, seq<int>, seq<int>)>) returns (result: Option<int>)
    ensures result == TotalInstances(lines)
  {
    var cards := MakeCards(lines);
    ghost var ms := MatchCounts(lines);
    assert InstancesOf(cards) == seq(|ms|, _ => 1);
    var i := 0;
    while i < |cards|
      invariant 0 <= i <= |cards|
      invariant forall k :: 0 <= k < |cards| ==>
        cards[k].winningNumbers == lines[k].1 && cards[k].ownedNumbers == lines[k].2
      invariant forall k :: i <= k < |cards| ==> cards[k].score == 0
      invariant Process(ms, i) == Some(InstancesOf(cards))
    {
      var ok := ProcessCard(cards, i);
      if !ok {
        assert i + ms[i] >= |ms|;
        ProcessFails(ms, |ms|);
        return None;
      }
      i := i + 1;
    }
    result := Some(Sum(InstancesOf(cards)));
  }
}
