/**
 * Cube conundrum, power of the fewest cubes (day02/part2.py). For each
 * game the largest number of cubes of each colour shown in any draw is the
 * fewest the bag can hold; the power of a game is the product of the three,
 * and the answer is the sum of the powers.
 */
module Day02Power {
  import opened Common
  import opened Day02Cubes

  /** The largest number drawn of colour, 0 when it is never drawn. */
  function MaxDrawn(draws: seq<Draw>, colour: Colour): nat
  {
    if |draws| == 0 then 0
    else
      var last := draws[|draws| - 1];
      var m := MaxDrawn(draws[..|draws| - 1], colour);
      if last.colour == colour then Max(m, last.number) else m
  }

  /** MaxDrawn bounds every draw of its colour and is 0 or one of them. */
  lemma {:induction false} MaxDrawnMeans(draws: seq<Draw>, colour: Colour)
    ensures forall d :: d in draws && d.colour == colour ==> d.number <= MaxDrawn(draws, colour)
    ensures MaxDrawn(draws, colour) == 0 || Draw(MaxDrawn(draws, colour), colour) in draws
  {
    if |draws| > 0 {
      var prefix := draws[..|draws| - 1];
      MaxDrawnMeans(prefix, colour);
      assert draws == prefix + [draws[|draws| - 1]];
    }
  }

  /** max_colours holds, for each of the three colours, the largest number drawn so far. */
  predicate Maxima(maxima: map<Colour, nat>, draws: seq<Draw>)
  {
    Red in maxima && Green in maxima && Blue in maxima &&
    maxima[Red] == MaxDrawn(draws, Red) &&
    maxima[Green] == MaxDrawn(draws, Green) &&
    maxima[Blue] == MaxDrawn(draws, Blue)
  }

  /** max_colours[colour] = max(max_colours[colour], number) keeps Maxima for one more draw. */
  lemma MaximaStep(maxima: map<Colour, nat>, draws: seq<Draw>, d: Draw)
    requires Maxima(maxima, draws)
    ensures d.colour in maxima
    ensures Maxima(maxima[d.colour := Max(maxima[d.colour], d.number)], draws + [d])
  {
    assert d.colour == Red || d.colour == Green || d.colour == Blue;
    assert (draws + [d])[..|draws|] == draws;
  }

  /** A colour never drawn has maximum 0. */
  lemma {:induction false} MaxDrawnNone(draws: seq<Draw>, colour: Colour)
    requires forall d :: d in draws ==> d.colour != colour
    ensures MaxDrawn(draws, colour) == 0
  {
    if |draws| > 0 {
      MaxDrawnNone(draws[..|draws| - 1], colour);
    }
  }

  /**
   * A bag holding bag(c) cubes of each colour c allows every draw of the
   * game exactly when it holds at least each colour's maximum: the maxima
   * are the fewest cubes that make the game possible.
   */
  lemma Fewest(game: Game, bag: Colour -> nat)
    ensures (forall d :: d in Draws(game.hands) ==> d.number <= bag(d.colour)) <==>
      (forall c: Colour :: MaxDrawn(Draws(game.hands), c) <= bag(c))
  {
    var draws := Draws(game.hands);
    MaxDrawnMeans(draws, Red);
    MaxDrawnMeans(draws, Green);
    MaxDrawnMeans(draws, Blue);
    if forall c: Colour :: MaxDrawn(draws, c) <= bag(c) {
      forall d | d in draws
        ensures d.number <= bag(d.colour)
      {
        assert d.number <= MaxDrawn(draws, d.colour);
      }
    }
    if forall d :: d in draws ==> d.number <= bag(d.colour) {
      forall c: Colour
        ensures MaxDrawn(draws, c) <= bag(c)
      {
        if MaxDrawn(draws, c) != 0 {
          assert Draw(MaxDrawn(draws, c), c) in draws;
        }
      }
    }
  }

  /** A game is possible in the sense of part 1 exactly when every maximum is within its limit. */
  lemma PossibleIffMaxima(game: Game)
    ensures Possible(game) <==> forall c: Colour :: MaxDrawn(Draws(game.hands), c) <= Limit(c)
  {
    Fewest(game, c => Limit(c));
  }

  /** The colours in the order of the max_colours dict. */
  const Colours: seq<Colour> := [Red, Green, Blue]

  /** The product of the maxima of the given colours. */
  function ProductOf(maxima: map<Colour, nat>, colours: seq<Colour>): nat
    requires forall c :: c in colours ==> c in maxima
  {
    if |colours| == 0 then 1 else ProductOf(maxima, colours[..|colours| - 1]) * maxima[colours[|colours| - 1]]
  }

  /** The power of a game: the product of its three maxima. */
  function Power(game: Game): nat
  {
    var draws := Draws(game.hands);
    MaxDrawn(draws, Red) * MaxDrawn(draws, Green) * MaxDrawn(draws, Blue)
  }

  /** A colour never drawn makes the power 0. */
  lemma PowerZero(game: Game, colour: Colour)
    requires forall h, k :: 0 <= h < |game.hands| && 0 <= k < |game.hands[h]| ==> game.hands[h][k].colour != colour
    ensures Power(game) == 0
  {
    var draws := Draws(game.hands);
    DrawsMeans(game.hands);
    forall d | d in draws
      ensures d.colour != colour
    {
      var h :| 0 <= h < |game.hands| && d in game.hands[h];
      var k :| 0 <= k < |game.hands[h]| && game.hands[h][k] == d;
    }
    MaxDrawnNone(draws, colour);
  }

  /** The hand loops of one line: max_colours from all 0 to the largest draw of each colour. */
  method FewestCubes(game: Game) returns (maxima: map<Colour, nat>)
    ensures Maxima(maxima, Draws(game.hands))
  {
    maxima := map[Red := 0, Green := 0, Blue := 0];
    var h := 0;
    assert Draws(game.hands[..0]) == [];
    while h < |game.hands|
      invariant 0 <= h <= |game.hands|
      invariant Maxima(maxima, Draws(game.hands[..h]))
    {
      var hand := game.hands[h];
      ghost var done := Draws(game.hands[..h]);
      var k := 0;
      assert done + hand[..0] == done;
      while k < |hand|
        invariant 0 <= k <= |hand|
        invariant Maxima(maxima, done + hand[..k])
      {
        var draw := hand[k];
        MaximaStep(maxima, done + hand[..k], draw);
        maxima := maxima[draw.colour := Max(maxima[draw.colour], draw.number)];
        assert done + hand[..k + 1] == (done + hand[..k]) + [draw];
        k := k + 1;
      }
      DrawsStep(game.hands, h);
      assert hand[..k] == hand;
      h := h + 1;
    }
    assert game.hands[..h] == game.hands;
  }

  /** One line: the maxima, then their product. */
  method GamePower(game: Game) returns (power: nat)
    ensures power == Power(game)
  {
    var maxima := FewestCubes(game);
    power := 1;
    var j := 0;
    while j < |Colours|
      invariant 0 <= j <= |Colours|
      invariant power == ProductOf(maxima, Colours[..j])
    {
      assert Colours[..j + 1][..j] == Colours[..j];
      power := power * maxima[Colours[j]];
      j := j + 1;
    }
    assert Colours[..j] == Colours;
    ProductOfColours(maxima, Draws(game.hands));
  }

  /** Multiplying up the dict values in order gives the power. */
  lemma ProductOfColours(maxima: map<Colour, nat>, draws: seq<Draw>)
    requires Maxima(maxima, draws)
    ensures ProductOf(maxima, Colours) == MaxDrawn(draws, Red) * MaxDrawn(draws, Green) * MaxDrawn(draws, Blue)
  {
    assert Colours[..2] == [Red, Green];
    assert Colours[..2][..1] == [Red];
    assert [Red][..0] == [];
    assert ProductOf(maxima, [Red]) == maxima[Red];
    assert ProductOf(maxima, [Red, Green]) == maxima[Red] * maxima[Green];
  }

  /** The powers of the games, in order. */
  function Powers(games: seq<Game>): (ps: seq<int>)
    ensures |ps| == |games| && forall i :: 0 <= i < |games| ==> ps[i] == Power(games[i])
  {
    if |games| == 0 then [] else Powers(games[..|games| - 1]) + [Power(games[|games| - 1])]
  }

  /** The line loop: the sum of the powers. */
  method Run(games: seq<Game>) returns (total: int)
    ensures total == Sum(Powers(games))
    ensures total >= 0
  {
    var powers: seq<int> := [];
    var i := 0;
    while i < |games|
      invariant 0 <= i <= |games|
      invariant powers == Powers(games[..i])
    {
      assert games[..i + 1][..i] == games[..i];
      var power := GamePower(games[i]);
      powers := powers + [power];
      i := i + 1;
    }
    assert games[..i] == games;
    total := Sum(powers);
    SumNonNegative(powers);
  }
}
