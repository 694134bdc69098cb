/**
 * Camel Cards with jokers (day07/part2.py): the type of a hand, the
 * ordering of players and the total winnings.
 */
module Day07Jokers {
  import opened Common

  /** Card faces from weakest to strongest; the joker J is the weakest. */
  const CardStrength: string := "J23456789TQKA"

  const HandTypes: seq<string> := ["High Card", "One Pair", "Two Pair", "Three of a Kind",
    "Full House", "Four of a Kind", "Five of a Kind"]

  /** How many times c occurs in s (str.count). */
  function Occurrences(s: string, c: char): (n: nat)
    ensures n == multiset(s)[c]
  {
    if |s| == 0 then 0
    else
      assert s == s[..|s| - 1] + [s[|s| - 1]];
      Occurrences(s[..|s| - 1], c) + (if s[|s| - 1] == c then 1 else 0)
  }

  /** s with every c removed (str.replace(c, "")). */
  function Without(s: string, c: char): (r: string)
    ensures c !in r
    ensures forall d :: d != c ==> multiset(r)[d] == multiset(s)[d]
    ensures |r| + Occurrences(s, c) == |s|
  {
    if |s| == 0 then ""
    else
      assert s == s[..|s| - 1] + [s[|s| - 1]];
      Without(s[..|s| - 1], c) + (if s[|s| - 1] == c then "" else [s[|s| - 1]])
  }

  /** The card_count dictionary as (card, count) pairs in order of first appearance. */
  type Tally = seq<(char, nat)>

  function Values(t: Tally): (v: seq<nat>)
    ensures |v| == |t|
    ensures forall i :: 0 <= i < |t| ==> v[i] == t[i].1
  {
    if |t| == 0 then [] else [t[0].1] + Values(t[1..])
  }

  /** card_count.get(k, 0). */
  function CountIn(t: Tally, k: char): nat
  {
    if |t| == 0 then 0 else if t[0].0 == k then t[0].1 else CountIn(t[1..], k)
  }

  /** k is a key of the dictionary. */
  predicate HasKey(t: Tally, k: char)
  {
    |t| > 0 && (t[0].0 == k || HasKey(t[1..], k))
  }

  /** No key occurs twice. */
  predicate DistinctKeys(t: Tally)
  {
    |t| == 0 || (!HasKey(t[1..], t[0].0) && DistinctKeys(t[1..]))
  }

  predicate PositiveCounts(t: Tally)
  {
    forall i :: 0 <= i < |t| ==> t[i].1 >= 1
  }

  /** One card added to the dictionary: its count goes up, or it is appended with count 1. */
  function Bump(t: Tally, c: char): (r: Tally)
    ensures forall d :: CountIn(r, d) == CountIn(t, d) + (if d == c then 1 else 0)
    ensures forall d :: HasKey(r, d) <==> HasKey(t, d) || d == c
    ensures PositiveCounts(t) ==> PositiveCounts(r)
    ensures DistinctKeys(t) ==> DistinctKeys(r)
  {
    if |t| == 0 then [(c, 1)]
    else if t[0].0 == c then
      assert ([(c, t[0].1 + 1)] + t[1..])[1..] == t[1..];
      [(c, t[0].1 + 1)] + t[1..]
    else
      var r := [t[0]] + Bump(t[1..], c);
      assert r[1..] == Bump(t[1..], c);
      r
  }

  /** The dictionary the counting loop of hand_strength builds. */
  function TallyOf(cards: string): Tally
  {
    if |cards| == 0 then [] else Bump(TallyOf(cards[..|cards| - 1]), cards[|cards| - 1])
  }

  /** The sum of a list of counts. */
  function Total(s: seq<nat>): nat
  {
    if |s| == 0 then 0 else s[0] + Total(s[1..])
  }

  lemma {:induction false} BumpTotal(t: Tally, c: char)
    ensures Total(Values(Bump(t, c))) == Total(Values(t)) + 1
    decreases |t|
  {
    if |t| > 0 && t[0].0 != c {
      BumpTotal(t[1..], c);
      assert Values(Bump(t, c))[1..] == Values(Bump(t[1..], c));
    } else if |t| > 0 {
      assert Values(Bump(t, c))[1..] == Values(t[1..]);
    }
  }

  /**
   * The counting loop of hand_strength yields the dictionary of the cards:
   * each card's count is its number of occurrences, keys are distinct and
   * counts are positive.
   */
  lemma {:induction false} TallyOfCounts(cards: string)
    ensures forall d :: CountIn(TallyOf(cards), d) == Occurrences(cards, d)
    ensures DistinctKeys(TallyOf(cards)) && PositiveCounts(TallyOf(cards))
    decreases |cards|
  {
    if |cards| > 0 {
      var init := cards[..|cards| - 1];
      TallyOfCounts(init);
      assert cards == init + [cards[|cards| - 1]];
    }
  }

  /** The keys of the dictionary are exactly the cards. */
  lemma {:induction false} TallyOfKeys(cards: string)
    ensures forall d :: HasKey(TallyOf(cards), d) <==> d in cards
    decreases |cards|
  {
    if |cards| > 0 {
      var init := cards[..|cards| - 1];
      TallyOfKeys(init);
      assert cards == init + [cards[|cards| - 1]];
      forall d ensures d in cards <==> d in init || d == cards[|cards| - 1] {
        assert d in cards <==> d in multiset(cards);
      }
    }
  }

  /** The counts add up to the number of cards. */
  lemma {:induction false} TallyOfTotal(cards: string)
    ensures Total(Values(TallyOf(cards))) == |cards|
    decreases |cards|
  {
    if |cards| > 0 {
      var init := cards[..|cards| - 1];
      TallyOfTotal(init);
      BumpTotal(TallyOf(init), cards[|cards| - 1]);
    }
  }

  /**
   * The counting loop of hand_strength: each card's count goes up by one,
   * new cards are appended.
   */
  method CountCards(cards: string) returns (counts: Tally)
    ensures counts == TallyOf(cards)
  {
    counts := [];
    var n := 0;
    while n < |cards|
      invariant 0 <= n <= |cards|
      invariant counts == TallyOf(cards[..n])
    {
      var card := cards[n];
      var k := 0;
      while k < |counts| && counts[k].0 != card
        invariant 0 <= k <= |counts|
        invariant forall j :: 0 <= j < k ==> counts[j].0 != card
      {
        k := k + 1;
      }
      BumpAt(counts, card, k);
      TallyOfStep(cards, n);
      if k < |counts| {
        counts := counts[k := (card, counts[k].1 + 1)];
      } else {
        counts := counts + [(card, 1)];
      }
      n := n + 1;
    }
    assert cards[..n] == cards;
  }

  lemma TallyOfStep(cards: string, n: nat)
    requires n < |cards|
    ensures TallyOf(cards[..n + 1]) == Bump(TallyOf(cards[..n]), cards[n])
  {
    assert cards[..n + 1][..n] == cards[..n];
  }

  /** Bump touches only the first entry with the card's key, or appends. */
  lemma {:induction false} BumpAt(t: Tally, c: char, k: nat)
    requires k <= |t|
    requires forall j :: 0 <= j < k ==> t[j].0 != c
    requires k < |t| ==> t[k].0 == c
    ensures k < |t| ==> Bump(t, c) == t[k := (c, t[k].1 + 1)]
    ensures k == |t| ==> Bump(t, c) == t + [(c, 1)]
    decreases k
  {
    if k > 0 {
      BumpAt(t[1..], c, k - 1);
      if k < |t| {
        assert [t[0]] + t[1..][k - 1 := (c, t[k].1 + 1)] == t[k := (c, t[k].1 + 1)];
      } else {
        assert [t[0]] + (t[1..] + [(c, 1)]) == t + [(c, 1)];
      }
    }
  }

  /** The dictionary without key k. */
  function RemoveKey(t: Tally, k: char): Tally
  {
    if |t| == 0 then [] else if t[0].0 == k then t[1..] else [t[0]] + RemoveKey(t[1..], k)
  }

  lemma {:induction false} CountMissing(t: Tally, k: char)
    requires !HasKey(t, k)
    ensures CountIn(t, k) == 0
    decreases |t|
  {
    if |t| > 0 {
      CountMissing(t[1..], k);
    }
  }

  lemma {:induction false} RemoveKeyCounts(t: Tally, k: char)
    requires DistinctKeys(t)
    ensures forall d :: CountIn(RemoveKey(t, k), d) == if d == k then 0 else CountIn(t, d)
    decreases |t|
  {
    if |t| > 0 {
      if t[0].0 == k {
        CountMissing(t[1..], k);
      } else {
        RemoveKeyCounts(t[1..], k);
        assert RemoveKey(t, k)[1..] == RemoveKey(t[1..], k);
      }
    }
  }

  lemma {:induction false} RemoveKeyShape(t: Tally, k: char)
    requires DistinctKeys(t) && PositiveCounts(t)
    ensures forall d :: HasKey(RemoveKey(t, k), d) ==> HasKey(t, d)
    ensures DistinctKeys(RemoveKey(t, k)) && PositiveCounts(RemoveKey(t, k))
    decreases |t|
  {
    if |t| > 0 && t[0].0 != k {
      RemoveKeyShape(t[1..], k);
      assert RemoveKey(t, k)[1..] == RemoveKey(t[1..], k);
    }
  }

  lemma {:induction false} RemoveKeyValues(t: Tally, k: char)
    requires HasKey(t, k)
    ensures multiset(Values(t)) == multiset(Values(RemoveKey(t, k))) + multiset{CountIn(t, k)}
    decreases |t|
  {
    assert t == [t[0]] + t[1..];
    assert Values(t) == [t[0].1] + Values(t[1..]);
    if t[0].0 != k {
      RemoveKeyValues(t[1..], k);
      assert Values(RemoveKey(t, k)) == [t[0].1] + Values(RemoveKey(t[1..], k));
    }
  }

  /** Two dictionaries with the same count for every card hold the same counts. */
  lemma {:induction false} SameCountsSameValues(t: Tally, u: Tally)
    requires DistinctKeys(t) && PositiveCounts(t)
    requires DistinctKeys(u) && PositiveCounts(u)
    requires forall d :: CountIn(t, d) == CountIn(u, d)
    ensures multiset(Values(t)) == multiset(Values(u))
    decreases |t|
  {
    if |t| == 0 {
      assert |u| > 0 ==> CountIn(u, u[0].0) >= 1;
    } else {
      var k := t[0].0;
      assert CountIn(u, k) >= 1;
      if !HasKey(u, k) {
        CountMissing(u, k);
      }
      RemoveKeyCounts(u, k);
      RemoveKeyShape(u, k);
      RemoveKeyValues(u, k);
      CountMissing(t[1..], k);
      assert Values(t) == [t[0].1] + Values(t[1..]);
      SameCountsSameValues(t[1..], RemoveKey(u, k));
    }
  }

  // ---- sorted(card_count.values(), reverse=True) -------------------------

  ghost predicate Descending(s: seq<nat>)
  {
    forall i, j :: 0 <= i < j < |s| ==> s[i] >= s[j]
  }

  predicate AllPositive(s: seq<nat>)
  {
    forall i :: 0 <= i < |s| ==> s[i] >= 1
  }

  function Insert(x: nat, s: seq<nat>): (r: seq<nat>)
    requires Descending(s)
    ensures Descending(r)
    ensures |r| > 0 && (r[0] == x || (|s| > 0 && r[0] == s[0]))
    ensures multiset(r) == multiset(s) + multiset{x}
  {
    if |s| == 0 || x >= s[0] then
      ConsDescending(x, s);
      [x] + s
    else
      var rest := Insert(x, s[1..]);
      assert s == [s[0]] + s[1..];
      ConsDescending(s[0], rest);
      [s[0]] + rest
  }

  lemma {:induction false} InsertTotal(x: nat, s: seq<nat>)
    requires Descending(s)
    ensures Total(Insert(x, s)) == x + Total(s)
    decreases |s|
  {
    if |s| > 0 && x < s[0] {
      InsertTotal(x, s[1..]);
      assert Insert(x, s)[1..] == Insert(x, s[1..]);
    } else {
      assert Insert(x, s)[1..] == s;
    }
  }

  lemma {:induction false} InsertPositive(x: nat, s: seq<nat>)
    requires Descending(s)
    ensures x >= 1 && AllPositive(s) ==> AllPositive(Insert(x, s))
    decreases |s|
  {
    if |s| > 0 && x < s[0] {
      InsertPositive(x, s[1..]);
      assert Insert(x, s)[1..] == Insert(x, s[1..]);
    }
  }

  lemma ConsDescending(x: nat, s: seq<nat>)
    requires Descending(s) && (|s| == 0 || s[0] <= x)
    ensures Descending([x] + s)
  {
    var r := [x] + s;
    forall i, j | 0 <= i < j < |r| ensures r[i] >= r[j] {
      assert r[j] == s[j - 1] <= s[0];
      if i > 0 {
        assert r[i] == s[i - 1];
      }
    }
  }

  /** sorted(values, reverse=True). */
  function SortDescending(s: seq<nat>): (r: seq<nat>)
    ensures Descending(r)
    ensures multiset(r) == multiset(s)
    ensures Total(r) == Total(s)
    ensures AllPositive(s) ==> AllPositive(r)
  {
    if |s| == 0 then []
    else
      assert s == [s[0]] + s[1..];
      InsertTotal(s[0], SortDescending(s[1..]));
      assert AllPositive(s) ==> s[0] >= 1 && AllPositive(s[1..]);
      InsertPositive(s[0], SortDescending(s[1..]));
      Insert(s[0], SortDescending(s[1..]))
  }

  /** Two descending lists with the same elements are equal. */
  lemma {:induction false} DescendingUnique(a: seq<nat>, b: seq<nat>)
    requires Descending(a) && Descending(b)
    requires multiset(a) == multiset(b)
    ensures a == b
    decreases |a|
  {
    if |a| > 0 {
      assert |b| == |multiset(b)| == |multiset(a)| == |a|;
      assert a[0] in multiset(b);
      assert b[0] in multiset(a);
      assert a[0] == b[0];
      assert a == [a[0]] + a[1..];
      assert b == [b[0]] + b[1..];
      assert multiset(a) == multiset{a[0]} + multiset(a[1..]);
      assert multiset(b) == multiset{b[0]} + multiset(b[1..]);
      assert multiset(a[1..]) == multiset(a) - multiset{a[0]};
      assert multiset(b[1..]) == multiset(b) - multiset{b[0]};
      DescendingUnique(a[1..], b[1..]);
    }
  }

  // ---- hand_strength --------------------------------------------------------

  /** The branches of hand_strength given the joker count and the sorted counts; None is an IndexError. */
  function Classify(jokers: nat, counts: seq<nat>): Option<nat>
  {
    if jokers == 5 then Some(6)
    else if |counts| == 0 then None
    else if counts[0] + jokers == 5 then Some(6)
    else if jokers == 4 || counts[0] + jokers == 4 then Some(5)
    else if jokers == 3 then (if counts[0] == 2 then Some(4) else Some(3))
    else if counts[0] + jokers == 3 then
      (if |counts| < 2 then None else if counts[1] == 2 then Some(4) else Some(3))
    else if jokers == 2 then (if counts[0] == 2 then Some(2) else Some(1))
    else if counts[0] + jokers == 2 then
      (if |counts| < 2 then None else if counts[1] == 2 then Some(2) else Some(1))
    else Some(0)
  }

  /** The sorted counts of the cards other than jokers. */
  function Profile(hand: string): seq<nat>
  {
    SortDescending(Values(TallyOf(Without(hand, 'J'))))
  }

  /** hand_strength; None where the source raises IndexError (only possible when a hand is not five cards). */
  function Strength(hand: string): Option<nat>
  {
    Classify(Occurrences(hand, 'J'), Profile(hand))
  }

  /** hand_strength, with its counting loop. */
  method HandStrength(hand: string) returns (strength: Option<nat>)
    ensures strength == Strength(hand)
  {
    var jokers := Occurrences(hand, 'J');
    var cards := Without(hand, 'J');
    var cardCount := CountCards(cards);
    var numberOfCards := SortDescending(Values(cardCount));
    strength := Classify(jokers, numberOfCards);
  }

  /** The usual type of a hand without jokers, by its sorted group sizes. */
  function TypeOf(groups: seq<nat>): (t: nat)
    ensures t < 7
  {
    if |groups| == 0 then 0
    else if groups[0] >= 5 then 6
    else if groups[0] == 4 then 5
    else if groups[0] == 3 && |groups| > 1 && groups[1] == 2 then 4
    else if groups[0] == 3 then 3
    else if groups[0] == 2 && |groups| > 1 && groups[1] == 2 then 2
    else if groups[0] == 2 then 1
    else 0
  }

  /** The jokers join the largest group. */
  function Promote(groups: seq<nat>, jokers: nat): seq<nat>
  {
    if |groups| == 0 then [jokers] else [groups[0] + jokers] + groups[1..]
  }

  lemma {:induction false} TotalShape(p: seq<nat>)
    requires AllPositive(p)
    ensures |p| > 0 ==> Total(p) >= p[0] + |p| - 1
    ensures |p| > 1 ==> Total(p) >= p[0] + p[1] + |p| - 2
    decreases |p|
  {
    if |p| > 0 {
      TotalShape(p[1..]);
    }
  }

  /** The facts about the sorted counts that the branches rely on. */
  lemma ProfileFacts(hand: string)
    ensures Descending(Profile(hand)) && AllPositive(Profile(hand))
    ensures Total(Profile(hand)) + Occurrences(hand, 'J') == |hand|
  {
    var cards := Without(hand, 'J');
    TallyOfCounts(cards);
    TallyOfTotal(cards);
    assert AllPositive(Values(TallyOf(cards)));
  }

  /** The branches of hand_strength agree with the usual types once the jokers join the largest group. */
  lemma ClassifyFive(jokers: nat, p: seq<nat>)
    requires jokers + Total(p) == 5
    requires |p| > 0 ==> p[0] >= 1 && Total(p) >= p[0] + |p| - 1
    requires |p| > 1 ==> 1 <= p[1] <= p[0] && Total(p) >= p[0] + p[1] + |p| - 2
    ensures Classify(jokers, p) == Some(TypeOf(Promote(p, jokers)))
  {
    if |p| == 0 {
      assert Total(p) == 0;
    } else {
      var q := Promote(p, jokers);
      assert |q| == |p| && q[0] == p[0] + jokers;
      if |p| > 1 {
        assert q[1] == p[1];
      } else {
        assert Total(p) == p[0];
      }
    }
  }

  /**
   * For a five-card hand hand_strength never fails, is a valid index into
   * the seven HandTypes, and equals the usual type once the jokers join
   * the largest group of the other cards (five jokers make five of a kind).
   */
  lemma StrengthOfFiveCards(hand: string)
    requires |hand| == 5
    ensures Strength(hand).Some?
    ensures Strength(hand).value < 7
    ensures Strength(hand).value == TypeOf(Promote(Profile(hand), Occurrences(hand, 'J')))
  {
    var p := Profile(hand);
    var jokers := Occurrences(hand, 'J');
    ProfileFacts(hand);
    TotalShape(p);
    assert |p| > 0 ==> p[0] >= 1;
    assert |p| > 1 ==> 1 <= p[1] <= p[0];
    ClassifyFive(jokers, p);
    assert Strength(hand) == Classify(jokers, p);
  }

  /** Without jokers the type is the usual one of the card groups. */
  lemma StrengthWithoutJokers(hand: string)
    requires |hand| == 5 && 'J' !in hand
    ensures Strength(hand) == Some(TypeOf(Profile(hand)))
  {
    StrengthOfFiveCards(hand);
    assert Occurrences(hand, 'J') == 0;
    if |Profile(hand)| > 0 {
      assert Promote(Profile(hand), 0) == Profile(hand);
    }
  }

  /** hand_strength depends only on which cards the hand holds, not on their order. */
  lemma StrengthIgnoresOrder(h1: string, h2: string)
    requires multiset(h1) == multiset(h2)
    ensures Strength(h1) == Strength(h2)
  {
    var c1 := Without(h1, 'J');
    var c2 := Without(h2, 'J');
    TallyOfCounts(c1);
    TallyOfCounts(c2);
    forall d ensures CountIn(TallyOf(c1), d) == CountIn(TallyOf(c2), d) {
      if d == 'J' {
        assert multiset(c1)[d] == 0 == multiset(c2)[d];
      }
    }
    SameCountsSameValues(TallyOf(c1), TallyOf(c2));
    DescendingUnique(Profile(h1), Profile(h2));
  }

  // ---- players and their order --------------------------------------------

  datatype Player = Player(hand: string, bid: int, strength: nat, cardStrengths: seq<nat>,
                           rank: int, winnings: int)

  /** CARD_STRENGTH.index(c); None where the source raises ValueError. */
  function CardIndex(c: char): (i: Option<nat>)
    ensures i.Some? <==> c in CardStrength
    ensures i.Some? ==> i.value < |CardStrength| && CardStrength[i.value] == c
  {
    if c == 'J' then Some(0)
    else if '2' <= c <= '9' then Some(c as int - '2' as int + 1)
    else if c == 'T' then Some(9)
    else if c == 'Q' then Some(10)
    else if c == 'K' then Some(11)
    else if c == 'A' then Some(12)
    else None
  }

  /** [CARD_STRENGTH.index(c) for c in hand]. */
  function CardStrengths(hand: string): (r: Option<seq<nat>>)
    ensures r.Some? <==> forall k :: 0 <= k < |hand| ==> hand[k] in CardStrength
    ensures r.Some? ==> |r.value| == |hand|
    ensures r.Some? ==> forall k :: 0 <= k < |hand| ==> CardIndex(hand[k]) == Some(r.value[k])
  {
    if |hand| == 0 then Some([])
    else match (CardIndex(hand[0]), CardStrengths(hand[1..]))
      case (Some(i), Some(rest)) =>
        assert forall k :: 1 <= k < |hand| ==> hand[k] == hand[1..][k - 1];
        Some([i] + rest)
      case _ =>
        assert forall k :: 1 <= k < |hand| ==> hand[k] == hand[1..][k - 1];
        None
  }

  /** The player the parsing loop builds; None where Player(...) raises. */
  function MakePlayer(hand: string, bid: int): Option<Player>
  {
    match (Strength(hand), CardStrengths(hand))
    case (Some(s), Some(cs)) => Some(Player(hand, bid, s, cs, 0, 0))
    case _ => None
  }

  /** Python's list comparison: lexicographic, a proper prefix is smaller. */
  predicate LexLess(a: seq<nat>, b: seq<nat>)
  {
    if |a| == 0 then |b| > 0
    else if |b| == 0 then false
    else if a[0] != b[0] then a[0] < b[0]
    else LexLess(a[1..], b[1..])
  }

  /** Player.__lt__. */
  predicate Less(a: Player, b: Player)
  {
    if a.strength != b.strength then a.strength < b.strength
    else LexLess(a.cardStrengths, b.cardStrengths)
  }

  lemma {:induction false} LexLessStrict(a: seq<nat>, b: seq<nat>, c: seq<nat>)
    ensures !LexLess(a, a)
    ensures LexLess(a, b) && LexLess(b, c) ==> LexLess(a, c)
    ensures a != b ==> LexLess(a, b) || LexLess(b, a)
    decreases |a|
  {
    if |a| > 0 && |b| > 0 && |c| > 0 {
      LexLessStrict(a[1..], b[1..], c[1..]);
      if a[0] == b[0] && a[1..] == b[1..] {
        assert a == [a[0]] + a[1..] && b == [b[0]] + b[1..];
      }
    } else if |a| > 0 && |b| > 0 {
      LexLessStrict(a[1..], b[1..], []);
      if a[0] == b[0] && a[1..] == b[1..] {
        assert a == [a[0]] + a[1..] && b == [b[0]] + b[1..];
      }
    } else if |a| > 0 {
      LexLessStrict(a[1..], [], []);
    }
  }

  /**
   * __lt__ is a strict total order on what it compares: irreflexive,
   * transitive, and any two players with different strength or card
   * strengths are ordered one way or the other.
   */
  lemma LessIsStrictTotal(a: Player, b: Player, c: Player)
    ensures !Less(a, a)
    ensures Less(a, b) && Less(b, c) ==> Less(a, c)
    ensures (a.strength, a.cardStrengths) != (b.strength, b.cardStrengths) ==> Less(a, b) || Less(b, a)
  {
    LexLessStrict(a.cardStrengths, b.cardStrengths, c.cardStrengths);
  }

  /** The joker is the weakest card: it sorts below every other card at the same position. */
  lemma JokerIsWeakest(c: char)
    requires c in CardStrength && c != 'J'
    ensures CardIndex('J').value < CardIndex(c).value
  {
  }

  // ---- sorted(players) and the winnings loop ------------------------------

  ghost predicate SortedByLess(s: seq<Player>)
  {
    forall i, j :: 0 <= i < j < |s| ==> !Less(s[j], s[i])
  }

  /** Insert after every player that is not greater, keeping equal players in input order. */
  function InsertPlayer(s: seq<Player>, p: Player): (r: seq<Player>)
    requires SortedByLess(s)
    ensures SortedByLess(r)
    ensures multiset(r) == multiset(s) + multiset{p}
    decreases |s|
  {
    if |s| == 0 then [p]
    else if Less(p, s[|s| - 1]) then
      var init := s[..|s| - 1];
      assert s == init + [s[|s| - 1]];
      var r0 := InsertPlayer(init, p);
      InsertBeforeLast(init, s[|s| - 1], p, r0);
      r0 + [s[|s| - 1]]
    else
      AppendNotLess(s, p);
      s + [p]
  }

  /** Appending a player that is below none of the list keeps it sorted. */
  lemma AppendNotLess(s: seq<Player>, p: Player)
    requires SortedByLess(s) && |s| > 0 && !Less(p, s[|s| - 1])
    ensures SortedByLess(s + [p])
  {
    var r := s + [p];
    forall i, j | 0 <= i < j < |r| ensures !Less(r[j], r[i]) {
      if j == |s| && i < |s| - 1 {
        assert !Less(s[|s| - 1], s[i]);
        if Less(p, s[i]) {
          LessOrderLemma(p, s[i], s[|s| - 1]);
        }
      }
    }
  }

  /** The last player stays last when p, below it, goes into the rest. */
  lemma InsertBeforeLast(init: seq<Player>, last: Player, p: Player, r0: seq<Player>)
    requires SortedByLess(init + [last]) && Less(p, last)
    requires SortedByLess(r0) && multiset(r0) == multiset(init) + multiset{p}
    ensures SortedByLess(r0 + [last])
  {
    var s := init + [last];
    var r := r0 + [last];
    forall i, j | 0 <= i < j < |r| ensures !Less(r[j], r[i]) {
      if j == |r| - 1 {
        assert r[i] in multiset(r0);
        if r[i] == p {
          LessIsStrictTotal(p, last, p);
        } else {
          assert r[i] in multiset(init);
          var k :| 0 <= k < |init| && init[k] == r[i];
          assert s[k] == r[i] && s[|s| - 1] == last;
        }
      } else {
        assert r[i] == r0[i] && r[j] == r0[j];
      }
    }
  }

  /** If a < b and not c < b then a < c. */
  lemma LessOrderLemma(a: Player, b: Player, c: Player)
    requires Less(a, b) && !Less(c, b)
    ensures Less(a, c)
  {
    LexLessStrict(a.cardStrengths, b.cardStrengths, c.cardStrengths);
    LexLessStrict(a.cardStrengths, c.cardStrengths, b.cardStrengths);
    LexLessStrict(c.cardStrengths, b.cardStrengths, a.cardStrengths);
    LexLessStrict(b.cardStrengths, c.cardStrengths, a.cardStrengths);
    LexLessStrict(c.cardStrengths, a.cardStrengths, b.cardStrengths);
    LexLessStrict(a.cardStrengths, c.cardStrengths, c.cardStrengths);
  }

  /** sorted(players): a stable insertion sort by __lt__. */
  function SortPlayers(players: seq<Player>): (r: seq<Player>)
    ensures SortedByLess(r)
    ensures multiset(r) == multiset(players)
  {
    if |players| == 0 then []
    else
      assert players == players[..|players| - 1] + [players[|players| - 1]];
      InsertPlayer(SortPlayers(players[..|players| - 1]), players[|players| - 1])
  }

  /** Σ (rank × bid) over a ranked list, ranks counted from first + 1. */
  function RankedSum(sorted: seq<Player>, first: nat): int
    decreases |sorted|
  {
    if |sorted| == 0 then 0 else (first + 1) * sorted[0].bid + RankedSum(sorted[1..], first + 1)
  }

  /**
   * The ranking loop of run: the k-th player of the sorted list gets rank
   * k + 1 and winnings rank × bid, and the result is their total.
   */
  method RankPlayers(sorted: seq<Player>) returns (ranked: seq<Player>, result: int)
    ensures |ranked| == |sorted|
    ensures forall k :: 0 <= k < |sorted| ==>
      ranked[k] == sorted[k].(rank := k + 1, winnings := (k + 1) * sorted[k].bid)
    ensures result == RankedSum(sorted, 0)
  {
    ranked := [];
    result := 0;
    var k := 0;
    while k < |sorted|
      invariant 0 <= k <= |sorted|
      invariant |ranked| == k
      invariant forall j :: 0 <= j < k ==>
        ranked[j] == sorted[j].(rank := j + 1, winnings := (j + 1) * sorted[j].bid)
      invariant result + RankedSum(sorted[k..], k) == RankedSum(sorted, 0)
    {
      var rank := k + 1;
      var player := sorted[k].(rank := rank, winnings := rank * sorted[k].bid);
      assert sorted[k..][1..] == sorted[k + 1..];
      result := result + player.winnings;
      ranked := ranked + [player];
      k := k + 1;
    }
  }

  /** The players of the parsed lines, or None when some line's Player(...) raises. */
  function MakePlayers(lines: seq<(string, int)>): Option<seq<Player>>
  {
    if |lines| == 0 then Some([])
    else match (MakePlayer(lines[0].0, lines[0].1), MakePlayers(lines[1..]))
      case (Some(p), Some(ps)) => Some([p] + ps)
      case _ => None
  }

  /** run after parsing: build the players, sort them and add up rank × bid. */
  method TotalWinnings(lines: seq<(string, int)>) returns (result: Option<int>)
    ensures MakePlayers(lines).None? ==> result.None?
    ensures MakePlayers(lines).Some? ==> result == Some(RankedSum(SortPlayers(MakePlayers(lines).value), 0))
  {
    var players := MakePlayers(lines);
    if players.None? {
      return None;
    }
    var ranked, total := RankPlayers(SortPlayers(players.value));
    result := Some(total);
  }
}
