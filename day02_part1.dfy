/**
 * Cube conundrum, possible games (day02/part1.py). Each game shows
 * handfuls of coloured cubes drawn from a bag; a game is possible when no
 * draw shows more cubes of a colour than the bag's 12 red, 13 green and
 * 14 blue, and the answer is the sum of the IDs of the possible games.
 */
module Day02Cubes {
  import opened Common

  datatype Colour = Red | Green | Blue

  /** One "<number> <colour>" item of a hand. */
  datatype Draw = Draw(number: nat, colour: Colour)

  /** One game line: its ID and its hands, the ';'-separated parts. */
  datatype Game = Game(id: nat, hands: seq<seq<Draw>>)

  /** max_colours: the bag holds 12 red, 13 green and 14 blue cubes. */
  function Limit(colour: Colour): nat
  {
    match colour
    case Red => 12
    case Green => 13
    case Blue => 14
  }

  /** All draws of the hands, hand by hand, in order. */
  function Draws(hands: seq<seq<Draw>>): seq<Draw>
  {
    if |hands| == 0 then [] else Draws(hands[..|hands| - 1]) + hands[|hands| - 1]
  }

  /** A draw is among the draws exactly when it belongs to one of the hands. */
  lemma {:induction false} DrawsMeans(hands: seq<seq<Draw>>)
    ensures forall d :: d in Draws(hands) <==> exists h :: 0 <= h < |hands| && d in hands[h]
  {
    if |hands| > 0 {
      var init := hands[..|hands| - 1];
      DrawsMeans(init);
      forall d ensures d in Draws(hands) <==> exists h :: 0 <= h < |hands| && d in hands[h] {
        if d in Draws(init) {
          var h :| 0 <= h < |init| && d in init[h];
          assert d in hands[h];
        }
        if h :| 0 <= h < |hands| && d in hands[h] {
          if h < |init| {
            assert d in init[h];
          }
        }
      }
    }
  }

  /** The draws of one hand more. */
  lemma DrawsStep(hands: seq<seq<Draw>>, h: nat)
    requires h < |hands|
    ensures Draws(hands[..h + 1]) == Draws(hands[..h]) + hands[h]
  {
    assert hands[..h + 1][..h] == hands[..h];
  }

  predicate WithinLimit(draw: Draw)
  {
    draw.number <= Limit(draw.colour)
  }

  /** Every one of the draws is within its colour's limit. */
  predicate AllWithin(draws: seq<Draw>)
  {
    forall d :: d in draws ==> WithinLimit(d)
  }

  lemma AllWithinAppend(draws: seq<Draw>, d: Draw)
    ensures AllWithin(draws + [d]) <==> AllWithin(draws) && WithinLimit(d)
  {
    assert forall x :: x in draws + [d] <==> x in draws || x == d;
  }

  predicate Possible(game: Game)
  {
    AllWithin(Draws(game.hands))
  }

  /** A game is possible exactly when every draw in every hand is within its colour's limit. */
  lemma PossibleMeans(game: Game)
    ensures Possible(game) <==>
      forall h, k :: 0 <= h < |game.hands| && 0 <= k < |game.hands[h]| ==> WithinLimit(game.hands[h][k])
  {
    DrawsMeans(game.hands);
    if !Possible(game) {
      var d :| d in Draws(game.hands) && !WithinLimit(d);
      var h :| 0 <= h < |game.hands| && d in game.hands[h];
      var k :| 0 <= k < |game.hands[h]| && game.hands[h][k] == d;
    }
  }

  /** A single draw over its limit makes the game impossible, whatever the other draws are. */
  lemma OneOverLimit(game: Game, h: nat, k: nat)
    requires h < |game.hands| && k < |game.hands[h]|
    requires game.hands[h][k].number > Limit(game.hands[h][k].colour)
    ensures !Possible(game)
  {
    DrawsMeans(game.hands);
    assert game.hands[h][k] in game.hands[h];
    assert game.hands[h][k] in Draws(game.hands);
  }

  /** The verdict depends only on which draws occur, not on their order or grouping into hands. */
  lemma OrderIndependent(a: Game, b: Game)
    requires multiset(Draws(a.hands)) == multiset(Draws(b.hands))
    ensures Possible(a) == Possible(b)
  {
    forall d
      ensures d in Draws(a.hands) <==> d in Draws(b.hands)
    {
      assert d in Draws(a.hands) <==> d in multiset(Draws(a.hands));
      assert d in Draws(b.hands) <==> d in multiset(Draws(b.hands));
    }
  }

  /** The hand loops of one line: impossible_hand is raised by any draw over its limit. */
  method IsImpossible(game: Game) returns (impossible: bool)
    ensures impossible == !Possible(game)
  {
    impossible := false;
    var h := 0;
    while h < |game.hands|
      invariant 0 <= h <= |game.hands|
      invariant impossible == !AllWithin(Draws(game.hands[..h]))
    {
      var hand := game.hands[h];
      ghost var done := Draws(game.hands[..h]);
      var k := 0;
      while k < |hand|
        invariant 0 <= k <= |hand|
        invariant impossible == !AllWithin(done + hand[..k])
      {
        if Limit(hand[k].colour) < hand[k].number {
          impossible := true;
        }
        assert done + hand[..k + 1] == (done + hand[..k]) + [hand[k]];
        AllWithinAppend(done + hand[..k], hand[k]);
        k := k + 1;
      }
      DrawsStep(game.hands, h);
      assert hand[..k] == hand;
      h := h + 1;
    }
    assert game.hands[..h] == game.hands;
  }

  /** The IDs of the possible games, in order. */
  function PossibleIds(games: seq<Game>): seq<int>
  {
    if |games| == 0 then []
    else if Possible(games[|games| - 1]) then PossibleIds(games[..|games| - 1]) + [games[|games| - 1].id]
    else PossibleIds(games[..|games| - 1])
  }

  /** possible_games holds an ID exactly when some game with that ID is possible. */
  lemma {:induction false} PossibleIdsMeans(games: seq<Game>)
    ensures forall x :: x in PossibleIds(games) <==> exists g :: g in games && Possible(g) && g.id == x
  {
    if |games| > 0 {
      var prefix := games[..|games| - 1];
      PossibleIdsMeans(prefix);
      assert games == prefix + [games[|games| - 1]];
    }
  }

  /** The line loop: the sum of the IDs of the possible games. */
  method Run(games: seq<Game>) returns (total: int)
    ensures total == Sum(PossibleIds(games))
  {
    var possible: seq<int> := [];
    var i := 0;
    while i < |games|
      invariant 0 <= i <= |games|
      invariant possible == PossibleIds(games[..i])
    {
      assert games[..i + 1][..i] == games[..i];
      var impossible := IsImpossible(games[i]);
      if !impossible {
        possible := possible + [games[i].id];
      }
      i := i + 1;
    }
    assert games[..i] == games;
    total := Sum(possible);
  }
}
