/**
 * Pipe maze, tiles enclosed by the loop (day10/part2.py). The loop is found
 * as in part 1, but pipes are flagged as on the loop instead of numbered;
 * once a walk closes, every other pipe is removed and the start tile gets
 * the pipe shape that joins its two loop neighbours. A tile that is not a
 * pipe is enclosed when an odd number of north-connected pipes lies to its
 * west, or else an odd number of east-connected pipes lies to its north.
 */
module Day10Enclosed {
  import opened Common
  import opened Day10Pipes

  // ---------------------------------------------------------------------
  // Flagging the loop
  // ---------------------------------------------------------------------

  /** A pipe tile and whether the walk has put it on the loop. */
  datatype LoopPipe = LoopPipe(position: Position, shape: char, isLoop: bool)

  /** The shape of each pipe. */
  function LoopShapes(pipes: map<Position, LoopPipe>): Shapes
  {
    map p | p in pipes :: pipes[p].shape
  }

  /** Storing a pipe changes the shape at its position only. */
  lemma LoopShapesUpdate(pipes: map<Position, LoopPipe>, p: Position, pipe: LoopPipe)
    ensures LoopShapes(pipes[p := pipe]) == LoopShapes(pipes)[p := pipe.shape]
  {
  }

  /** Every entry is a pipe shape stored under its own position. */
  predicate LoopPipesValid(pipes: map<Position, LoopPipe>)
  {
    forall p :: p in pipes ==> pipes[p].position == p && IsPipeShape(pipes[p].shape)
  }

  /** The positions of the pipes not flagged yet. */
  function Unflagged(pipes: map<Position, LoopPipe>): set<Position>
  {
    set p | p in pipes && !pipes[p].isLoop
  }

  /** Flagging an unflagged pipe leaves one pipe fewer to flag. */
  lemma UnflaggedShrinks(pipes: map<Position, LoopPipe>, p: Position)
    requires p in pipes && !pipes[p].isLoop
    ensures |Unflagged(pipes[p := pipes[p].(isLoop := true)])| < |Unflagged(pipes)|
  {
    var after := Unflagged(pipes[p := pipes[p].(isLoop := true)]);
    assert Unflagged(pipes) == after + {p};
    assert p !in after;
  }

  /** No pipe is flagged. */
  predicate NoneFlagged(pipes: map<Position, LoopPipe>)
  {
    forall p :: p in pipes ==> !pipes[p].isLoop
  }

  /**
   * The map part of the walk's loop state: the tiles of path were
   * unflagged and are flagged now; every other pipe is as before.
   */
  predicate FlagState(pipes: map<Position, LoopPipe>, marked: map<Position, LoopPipe>, path: seq<Position>)
  {
    LoopPipesValid(marked) && marked.Keys == pipes.Keys && LoopShapes(marked) == LoopShapes(pipes) &&
    (forall k :: 0 <= k < |path| ==>
      path[k] in pipes && !pipes[path[k]].isLoop && path[k] in marked && marked[path[k]].isLoop) &&
    (forall p :: p in marked && p !in path ==> marked[p] == pipes[p])
  }

  /** Flagging an unflagged pipe extends the path by it and leaves one pipe fewer to flag. */
  lemma FlagStateStep(pipes: map<Position, LoopPipe>, marked: map<Position, LoopPipe>, path: seq<Position>,
                      position: Position)
    requires FlagState(pipes, marked, path)
    requires position in marked && !marked[position].isLoop
    ensures position !in path
    ensures var marked' := marked[position := marked[position].(isLoop := true)];
      FlagState(pipes, marked', path + [position]) && |Unflagged(marked')| < |Unflagged(marked)|
  {
    UnflaggedShrinks(marked, position);
    LoopShapesUpdate(marked, position, marked[position].(isLoop := true));
  }

  /**
   * What the walk of find_loop leaves behind: the flagged tiles of path are
   * the first |path| steps of the walk, all different and none of them the
   * start, and were unflagged; every other pipe is unchanged; heading is the
   * direction of the last step; complete says whether the walk is back at
   * the start, and otherwise the next tile is not an enterable pipe, is on
   * the path or was flagged before.
   */
  ghost predicate MarkOutcome(before: map<Position, LoopPipe>, after: map<Position, LoopPipe>, s: Position,
                              direction: Direction, complete: bool, heading: Direction, path: seq<Position>)
  {
    MarkedPath(before, after, s, direction, heading, path) && MarkedEnd(before, s, direction, complete, path)
  }

  /** The path part of MarkOutcome. */
  ghost predicate MarkedPath(before: map<Position, LoopPipe>, after: map<Position, LoopPipe>, s: Position,
                             direction: Direction, heading: Direction, path: seq<Position>)
  {
    var shapes := LoopShapes(before);
    var n := |path|;
    Walked(shapes, s, direction, n) && Walk(shapes, s, direction, n).value.0 == heading &&
    (forall k :: 0 <= k < n ==>
      path[k] == At(shapes, s, direction, k) &&
      path[k] in before && !before[path[k]].isLoop && path[k] in after && after[path[k]].isLoop) &&
    (forall p :: p in after && p !in path ==> p in before && after[p] == before[p])
  }

  /** How the walk of MarkOutcome ended. */
  ghost predicate MarkedEnd(before: map<Position, LoopPipe>, s: Position, direction: Direction, complete: bool,
                            path: seq<Position>)
    requires Walked(LoopShapes(before), s, direction, |path|)
  {
    var shapes := LoopShapes(before);
    var n := |path|;
    var next := At(shapes, s, direction, n);
    (complete <==> n >= 1 && next == s) &&
    (!complete ==>
      Walk(shapes, s, direction, n + 1).None? || next in path || (next in before && before[next].isLoop))
  }

  /** The path part of the walk's outcome. */
  lemma MarkLoopPath(pipes: map<Position, LoopPipe>, marked: map<Position, LoopPipe>, s: Position,
                     direction: Direction, path: seq<Position>, heading: Direction, position: Position)
    requires WalkState(LoopShapes(pipes), s, direction, |path|, path, heading, position)
    requires FlagState(pipes, marked, path)
    ensures At(LoopShapes(pipes), s, direction, |path|) == position
    ensures MarkedPath(pipes, marked, s, direction, heading, path)
  {
    TrailAt(LoopShapes(pipes), s, direction, |path|);
  }

  /** When the walk stops, or returns at the start, its outcome holds. */
  lemma MarkLoopDone(pipes: map<Position, LoopPipe>, marked: map<Position, LoopPipe>, s: Position,
                     direction: Direction, path: seq<Position>, heading: Direction, position: Position,
                     complete: bool)
    requires WalkState(LoopShapes(pipes), s, direction, |path|, path, heading, position)
    requires FlagState(pipes, marked, path)
    requires complete ==> |path| >= 1 && position == s
    requires !complete ==> (position != s &&
      (position !in marked || !CanEnter(marked[position].shape, Inverse(heading)) || marked[position].isLoop))
    ensures LoopPipesValid(marked) && marked.Keys == pipes.Keys && LoopShapes(marked) == LoopShapes(pipes)
    ensures MarkOutcome(pipes, marked, s, direction, complete, heading, path)
  {
    MarkLoopPath(pipes, marked, s, direction, path, heading, position);
    if !complete && position in marked && marked[position].isLoop && position !in path {
      assert marked[position] == pipes[position];
    }
  }

  /** The while loop of find_loop for one start direction, on the pipes map. */
  method MarkFrom(pipes: map<Position, LoopPipe>, s: Position, startDirection: Direction)
    returns (complete: bool, heading: Direction, marked: map<Position, LoopPipe>, ghost path: seq<Position>)
    requires LoopPipesValid(pipes)
    ensures LoopPipesValid(marked) && marked.Keys == pipes.Keys && LoopShapes(marked) == LoopShapes(pipes)
    ensures MarkOutcome(pipes, marked, s, startDirection, complete, heading, path)
  {
    ghost var shapes := LoopShapes(pipes);
    marked := pipes;
    heading := startDirection;
    var position := Moved(s, heading);
    path := [];
    while position in marked
      invariant WalkState(shapes, s, startDirection, |path|, path, heading, position)
      invariant FlagState(pipes, marked, path)
      invariant position != s
      decreases |Unflagged(marked)|
    {
      var pipe := marked[position];
      if !CanEnter(pipe.shape, Inverse(heading)) {
        break;
      }
      if pipe.isLoop {
        break;
      }
      complete, heading, marked, path, position := FlagNext(pipes, s, startDirection, heading, marked, path, position);
      if complete {
        return;
      }
    }
    MarkLoopDone(pipes, marked, s, startDirection, path, heading, position, false);
    complete := false;
  }

  /** One pass of the loop body: flag the pipe at position and follow it. */
  method FlagNext(pipes: map<Position, LoopPipe>, s: Position, startDirection: Direction, heading: Direction,
                  marked: map<Position, LoopPipe>, ghost path: seq<Position>, position: Position)
    returns (complete: bool, heading': Direction, marked': map<Position, LoopPipe>, ghost path': seq<Position>,
             position': Position)
    requires WalkState(LoopShapes(pipes), s, startDirection, |path|, path, heading, position)
    requires FlagState(pipes, marked, path) && position != s
    requires position in marked && CanEnter(marked[position].shape, Inverse(heading)) && !marked[position].isLoop
    ensures complete ==> MarkOutcome(pipes, marked', s, startDirection, true, heading', path')
    ensures complete ==> LoopPipesValid(marked') && marked'.Keys == pipes.Keys && LoopShapes(marked') == LoopShapes(pipes)
    ensures !complete ==> WalkState(LoopShapes(pipes), s, startDirection, |path'|, path', heading', position')
    ensures !complete ==> FlagState(pipes, marked', path') && position' != s
    ensures !complete ==> |Unflagged(marked')| < |Unflagged(marked)|
  {
    ghost var shapes := LoopShapes(pipes);
    var pipe := marked[position];
    FlagStateStep(pipes, marked, path, position);
    WalkStateStep(shapes, s, startDirection, |path|, path, heading, position);
    marked' := marked[position := pipe.(isLoop := true)];
    path' := path + [position];
    var next := FollowPipe(pipe.position, pipe.shape, Inverse(heading));
    heading', position' := next.0, next.1;
    complete := position' == s;
    if complete {
      MarkLoopDone(pipes, marked', s, startDirection, path', heading', position', true);
    }
  }

  /** On a maze with no pipe flagged, the walk either closes the loop or is blocked. */
  lemma MarkOnUnflagged(before: map<Position, LoopPipe>, after: map<Position, LoopPipe>, s: Position,
                        direction: Direction, complete: bool, heading: Direction, path: seq<Position>)
    requires MarkOutcome(before, after, s, direction, complete, heading, path)
    requires NoneFlagged(before)
    ensures complete ==> Closes(LoopShapes(before), s, direction, |path|)
    ensures !complete ==> Blocked(LoopShapes(before), s, direction, |path|)
  {
    var shapes := LoopShapes(before);
    MovedInverse(s, direction);
    if !complete {
      var next := At(shapes, s, direction, |path|);
      if next in path {
        var j :| 0 <= j < |path| && path[j] == next;
        assert At(shapes, s, direction, j) == next;
      }
    }
  }

  // ---------------------------------------------------------------------
  // The start tile's shape
  // ---------------------------------------------------------------------

  /** The shapes in the order of PIPE_EXITS. */
  const ShapeOrder: seq<char> := ['|', '-', 'L', 'J', '7', 'F']

  lemma ShapeOrderArePipes()
    ensures forall k :: 0 <= k < |ShapeOrder| ==> IsPipeShape(ShapeOrder[k])
    ensures forall c :: IsPipeShape(c) <==> c in ShapeOrder
  {
  }

  /** The first shape from index k on that has both a and b among its exits. */
  function FirstShape(a: Direction, b: Direction, k: nat): Option<char>
    decreases |ShapeOrder| - k
  {
    if k >= |ShapeOrder| then None
    else if CanEnter(ShapeOrder[k], a) && CanEnter(ShapeOrder[k], b) then Some(ShapeOrder[k])
    else FirstShape(a, b, k + 1)
  }

  /**
   * Two different directions are joined by exactly one shape, and the
   * search finds it; a shape found has both directions as exits.
   */
  lemma FirstShapeMeans(a: Direction, b: Direction)
    ensures FirstShape(a, b, 0).Some? ==>
      IsPipeShape(FirstShape(a, b, 0).value) &&
      CanEnter(FirstShape(a, b, 0).value, a) && CanEnter(FirstShape(a, b, 0).value, b)
    ensures a != b ==> (FirstShape(a, b, 0).Some? &&
      forall c :: IsPipeShape(c) && CanEnter(c, a) && CanEnter(c, b) ==> c == FirstShape(a, b, 0).value)
  {
    FirstShapeSound(a, b, 0);
    if a != b {
      FirstShapeUnique(a, b);
    }
  }

  lemma {:induction false} FirstShapeSound(a: Direction, b: Direction, k: nat)
    ensures FirstShape(a, b, k).Some? ==>
      IsPipeShape(FirstShape(a, b, k).value) &&
      CanEnter(FirstShape(a, b, k).value, a) && CanEnter(FirstShape(a, b, k).value, b)
    decreases |ShapeOrder| - k
  {
    if k < |ShapeOrder| {
      if CanEnter(ShapeOrder[k], a) && CanEnter(ShapeOrder[k], b) {
        ShapeOrderArePipes();
      } else {
        FirstShapeSound(a, b, k + 1);
      }
    }
  }

  lemma FirstShapeUnique(a: Direction, b: Direction)
    requires a != b
    ensures FirstShape(a, b, 0).Some?
    ensures forall c :: IsPipeShape(c) && CanEnter(c, a) && CanEnter(c, b) ==> c == FirstShape(a, b, 0).value
  {
    match a {
      case North =>
        match b {
          case North =>
          case South =>
          case East =>
          case West =>
        }
      case South =>
        match b {
          case North =>
          case South =>
          case East =>
          case West =>
        }
      case East =>
        match b {
          case North =>
          case South =>
          case East =>
          case West =>
        }
      case West =>
        match b {
          case North =>
          case South =>
          case East =>
          case West =>
        }
    }
  }

  /** The for loop over PIPE_EXITS that picks the start tile's shape. */
  method ChooseStartShape(a: Direction, b: Direction) returns (shape: Option<char>)
    ensures shape == FirstShape(a, b, 0)
  {
    var k := 0;
    while k < |ShapeOrder|
      invariant 0 <= k <= |ShapeOrder|
      invariant FirstShape(a, b, k) == FirstShape(a, b, 0)
    {
      ShapeOrderArePipes();
      if CanEnter(ShapeOrder[k], a) && CanEnter(ShapeOrder[k], b) {
        return Some(ShapeOrder[k]);
      }
      k := k + 1;
    }
    return None;
  }

  /** Moving from one tile in two different directions reaches two different tiles. */
  lemma MovesDiffer(p: Position, a: Direction, b: Direction)
    requires a != b
    ensures Moved(p, a) != Moved(p, b)
  {
  }

  /** No walk closes after a single pipe: the pipe's other exit never faces back to the start. */
  lemma NoSinglePipeLoop(shapes: Shapes, s: Position, d: Direction)
    ensures !Closes(shapes, s, d, 1)
  {
    var q := Moved(s, d);
    MovedInverse(s, d);
    if q in shapes && IsPipeShape(shapes[q]) && CanEnter(shapes[q], Inverse(d)) {
      FollowOtherExit(q, shapes[q], Inverse(d));
      MovesDiffer(q, FollowPipe(q, shapes[q], Inverse(d)).0, Inverse(d));
      assert Walk(shapes, s, d, 1) == Some(FollowPipe(q, shapes[q], Inverse(d)));
    } else {
      assert Walk(shapes, s, d, 1).None?;
    }
  }

  /**
   * A closed loop comes back into the start from a side other than the one
   * it left by, so the start tile's shape always exists.
   */
  lemma ArrivalDiffers(shapes: Shapes, s: Position, d: Direction, n: nat)
    requires Closes(shapes, s, d, n)
    ensures Inverse(Walk(shapes, s, d, n).value.0) != d
  {
    NoSinglePipeLoop(shapes, s, d);
    var h := Walk(shapes, s, d, n).value.0;
    var q := At(shapes, s, d, n - 1);
    assert At(shapes, s, d, 0) != q;
    MovedInverse(q, h);
    assert s == Moved(q, h);
  }

  // ---------------------------------------------------------------------
  // What find_loop keeps
  // ---------------------------------------------------------------------

  /** The pipes whose flag is set: what the deletion loop of find_loop keeps. */
  function Flagged(pipes: map<Position, LoopPipe>): map<Position, LoopPipe>
  {
    map p | p in pipes && pipes[p].isLoop :: pipes[p]
  }

  /** The flagged pipes of the tiles t, each with its shape. */
  function TrailPipes(shapes: Shapes, t: seq<Position>): map<Position, LoopPipe>
  {
    map p | p in t && p in shapes :: LoopPipe(p, shapes[p], true)
  }

  /**
   * The pipes find_loop leaves after the walk heading d closes a loop of n
   * pipes: the loop's pipes, flagged, and at the start the shape joining
   * d and the side the loop came back in by.
   */
  ghost function KeptPipes(shapes: Shapes, s: Position, d: Direction, n: nat): map<Position, LoopPipe>
    requires forall k :: 0 <= k <= n ==> Walk(shapes, s, d, k).Some?
  {
    var kept := TrailPipes(shapes, Trail(shapes, s, d, n));
    var c := FirstShape(Inverse(Walk(shapes, s, d, n).value.0), d, 0);
    if c.Some? then kept[s := LoopPipe(s, c.value, true)] else kept
  }

  /**
   * After a loop closes, the kept pipes are exactly the loop's tiles and
   * the start, all flagged, and the loop's tiles keep their shapes.
   */
  lemma KeptPipesMeans(shapes: Shapes, s: Position, d: Direction, n: nat)
    requires Closes(shapes, s, d, n)
    ensures var kept := KeptPipes(shapes, s, d, n);
      (forall p :: p in kept <==> p == s || exists k :: 0 <= k < n && At(shapes, s, d, k) == p) &&
      (forall p :: p in kept ==> kept[p].position == p && kept[p].isLoop) &&
      (forall p :: p in kept && p != s ==> p in shapes && kept[p].shape == shapes[p])
  {
    KeptStartShape(shapes, s, d, n);
    TrailAt(shapes, s, d, n);
    TrailInShapes(shapes, s, d, n);
    var t := Trail(shapes, s, d, n);
    forall p | p in t
      ensures exists k :: 0 <= k < n && At(shapes, s, d, k) == p
    {
      var k :| 0 <= k < |t| && t[k] == p;
    }
  }

  /** Every tile of a closed loop's trail is a pipe. */
  lemma TrailInShapes(shapes: Shapes, s: Position, d: Direction, n: nat)
    requires Closes(shapes, s, d, n)
    ensures forall k :: 0 <= k < n ==> At(shapes, s, d, k) in shapes
  {
    forall k | 0 <= k < n
      ensures At(shapes, s, d, k) in shapes
    {
      WalkPrefix(shapes, s, d, k + 1, n);
    }
  }

  /** The start's kept shape has exits d and the side the loop came back in by. */
  lemma KeptStartShape(shapes: Shapes, s: Position, d: Direction, n: nat)
    requires Closes(shapes, s, d, n)
    ensures s in KeptPipes(shapes, s, d, n)
    ensures var c := KeptPipes(shapes, s, d, n)[s].shape;
      var arrival := Inverse(Walk(shapes, s, d, n).value.0);
      IsPipeShape(c) && {Exits(c).0, Exits(c).1} == {d, arrival}
  {
    var h := Walk(shapes, s, d, n).value.0;
    ArrivalDiffers(shapes, s, d, n);
    FirstShapeMeans(Inverse(h), d);
    ExitsDistinct(FirstShape(Inverse(h), d, 0).value);
  }

  /** On a maze where nothing was flagged, what the walk flagged is exactly its trail. */
  lemma FlaggedIsTrail(before: map<Position, LoopPipe>, after: map<Position, LoopPipe>, s: Position,
                       d: Direction, heading: Direction, path: seq<Position>)
    requires MarkOutcome(before, after, s, d, true, heading, path)
    requires LoopPipesValid(before) && NoneFlagged(before)
    requires LoopPipesValid(after) && after.Keys == before.Keys && LoopShapes(after) == LoopShapes(before)
    ensures Flagged(after) == TrailPipes(LoopShapes(before), Trail(LoopShapes(before), s, d, |path|))
  {
    var shapes := LoopShapes(before);
    TrailAt(shapes, s, d, |path|);
    assert path == Trail(shapes, s, d, |path|);
    forall p | p in after
      ensures after[p].isLoop <==> p in path
    {
    }
  }

  /** Pruning the marked pipes and giving the start its shape leaves the kept pipes. */
  lemma KeptStart(before: map<Position, LoopPipe>, after: map<Position, LoopPipe>, s: Position,
                  d: Direction, heading: Direction, path: seq<Position>, shape: Option<char>)
    requires MarkOutcome(before, after, s, d, true, heading, path)
    requires LoopPipesValid(before) && NoneFlagged(before)
    requires LoopPipesValid(after) && after.Keys == before.Keys && LoopShapes(after) == LoopShapes(before)
    requires shape == FirstShape(Inverse(heading), d, 0)
    ensures var kept := Flagged(after);
      var final := if shape.Some? then kept[s := LoopPipe(s, shape.value, true)] else kept;
      final == KeptPipes(LoopShapes(before), s, d, |path|) && LoopPipesValid(final)
  {
    FlaggedIsTrail(before, after, s, d, heading, path);
    FirstShapeMeans(Inverse(heading), d);
  }

  // ---------------------------------------------------------------------
  // Inside the loop
  // ---------------------------------------------------------------------

  /** A pipe shape with an exit in direction d. */
  predicate HasExit(c: char, d: Direction)
  {
    IsPipeShape(c) && CanEnter(c, d)
  }

  /** The pipes at Position(1, y) .. Position(n, y) with an exit to the north. */
  function NorthCrossings(shapes: Shapes, y: int, n: int): nat
    decreases n
  {
    if n <= 0 then 0
    else
      var here := if Position(n, y) in shapes && HasExit(shapes[Position(n, y)], North) then 1 else 0;
      NorthCrossings(shapes, y, n - 1) + here
  }

  /** The pipes at Position(x, 1) .. Position(x, n) with an exit to the east. */
  function EastCrossings(shapes: Shapes, x: int, n: int): nat
    decreases n
  {
    if n <= 0 then 0
    else
      var here := if Position(x, n) in shapes && HasExit(shapes[Position(x, n)], East) then 1 else 0;
      EastCrossings(shapes, x, n - 1) + here
  }

  /** is_inside: an odd number of north-connected pipes to the west, or of east-connected pipes to the north. */
  predicate Inside(shapes: Shapes, p: Position)
  {
    NorthCrossings(shapes, p.y, p.x - 1) % 2 == 1 || EastCrossings(shapes, p.x, p.y - 1) % 2 == 1
  }

  /** The north crossings are the tiles, among the first n of row y, holding a pipe with a north exit. */
  lemma {:induction false} NorthCrossingsCount(shapes: Shapes, y: int, n: int)
    ensures NorthCrossings(shapes, y, n) ==
      |set x | 1 <= x <= n && Position(x, y) in shapes && HasExit(shapes[Position(x, y)], North)|
    decreases n
  {
    var now := set x | 1 <= x <= n && Position(x, y) in shapes && HasExit(shapes[Position(x, y)], North);
    if n <= 0 {
      assert now == {};
    } else {
      NorthCrossingsCount(shapes, y, n - 1);
      var before := set x | 1 <= x <= n - 1 && Position(x, y) in shapes && HasExit(shapes[Position(x, y)], North);
      if Position(n, y) in shapes && HasExit(shapes[Position(n, y)], North) {
        assert now == before + {n};
      } else {
        assert now == before;
      }
    }
  }

  /** The east crossings are the tiles, among the first n of column x, holding a pipe with an east exit. */
  lemma {:induction false} EastCrossingsCount(shapes: Shapes, x: int, n: int)
    ensures EastCrossings(shapes, x, n) ==
      |set y | 1 <= y <= n && Position(x, y) in shapes && HasExit(shapes[Position(x, y)], East)|
    decreases n
  {
    var now := set y | 1 <= y <= n && Position(x, y) in shapes && HasExit(shapes[Position(x, y)], East);
    if n <= 0 {
      assert now == {};
    } else {
      EastCrossingsCount(shapes, x, n - 1);
      var before := set y | 1 <= y <= n - 1 && Position(x, y) in shapes && HasExit(shapes[Position(x, y)], East);
      if Position(x, n) in shapes && HasExit(shapes[Position(x, n)], East) {
        assert now == before + {n};
      } else {
        assert now == before;
      }
    }
  }

  /** A tile the answer counts: not a pipe, and inside. */
  predicate Enclosed(shapes: Shapes, p: Position)
  {
    p !in shapes && Inside(shapes, p)
  }

  /** Enclosed as a test on tiles. */
  function EnclosedTest(shapes: Shapes): Position -> bool
  {
    p => Enclosed(shapes, p)
  }

  /** The tiles among Position(1, y) .. Position(n, y) that pass test. */
  function RowCount(test: Position -> bool, y: int, n: int): nat
    decreases n
  {
    if n <= 0 then 0 else RowCount(test, y, n - 1) + (if test(Position(n, y)) then 1 else 0)
  }

  /** The tiles of rows 1 .. h, columns 1 .. w, that pass test. */
  function BoxCount(test: Position -> bool, w: int, h: int): nat
    decreases h
  {
    if h <= 0 then 0 else BoxCount(test, w, h - 1) + RowCount(test, h, w)
  }

  /** The tiles of row y, columns 1 .. n, that pass test, as a set. */
  ghost function RowSet(test: Position -> bool, y: int, n: int): set<Position>
  {
    set x | 1 <= x <= n && test(Position(x, y)) :: Position(x, y)
  }

  /** The tiles of rows 1 .. h, columns 1 .. w, that pass test, as a set. */
  ghost function BoxSet(test: Position -> bool, w: int, h: int): set<Position>
  {
    set x, y | 1 <= x <= w && 1 <= y <= h && test(Position(x, y)) :: Position(x, y)
  }

  lemma {:induction false} RowCountMeans(test: Position -> bool, y: int, n: int)
    ensures RowCount(test, y, n) == |RowSet(test, y, n)|
    ensures forall p :: p in RowSet(test, y, n) ==> p.y == y && 1 <= p.x <= n
    decreases n
  {
    if n <= 0 {
      assert RowSet(test, y, n) == {};
    } else {
      RowCountMeans(test, y, n - 1);
      if test(Position(n, y)) {
        assert RowSet(test, y, n) == RowSet(test, y, n - 1) + {Position(n, y)};
      } else {
        assert RowSet(test, y, n) == RowSet(test, y, n - 1);
      }
    }
  }

  /** The box count is the number of tiles in the box that pass the test. */
  lemma {:induction false} BoxCountMeans(test: Position -> bool, w: int, h: int)
    ensures BoxCount(test, w, h) == |BoxSet(test, w, h)|
    ensures forall p :: p in BoxSet(test, w, h) ==> 1 <= p.y <= h
    decreases h
  {
    if h <= 0 {
      assert BoxSet(test, w, h) == {};
    } else {
      BoxCountMeans(test, w, h - 1);
      RowCountMeans(test, h, w);
      var lower := BoxSet(test, w, h - 1);
      var row := RowSet(test, h, w);
      forall p | p in BoxSet(test, w, h)
        ensures p in lower + row
      {
        if p.y < h {
          assert p in lower;
        }
      }
      assert BoxSet(test, w, h) == lower + row;
      assert lower * row == {};
    }
  }

  /** The number run answers: the tiles of the box that are not pipes and are inside. */
  function EnclosedCount(shapes: Shapes, w: int, h: int): nat
  {
    BoxCount(EnclosedTest(shapes), w, h)
  }

  /** The answer counts exactly the tiles in the box that are not pipes and are inside. */
  lemma EnclosedCountMeans(shapes: Shapes, w: int, h: int)
    ensures EnclosedCount(shapes, w, h) ==
      |set x, y | 1 <= x <= w && 1 <= y <= h && Enclosed(shapes, Position(x, y)) :: Position(x, y)|
  {
    BoxCountMeans(EnclosedTest(shapes), w, h);
    assert BoxSet(EnclosedTest(shapes), w, h) ==
      set x, y | 1 <= x <= w && 1 <= y <= h && Enclosed(shapes, Position(x, y)) :: Position(x, y);
  }

  // ---------------------------------------------------------------------
  // The maze
  // ---------------------------------------------------------------------

  /**
   * The maze of part 2: pipe tiles with their loop flags, the start tile
   * once seen, and the largest pipe coordinates. Pipe records live only in
   * the pipes map, so setting a flag is modelled as replacing an entry.
   */
  class Maze {
    var width: int
    var height: int
    var pipes: map<Position, LoopPipe>
    var start: Option<Position>

    /** Every entry is a pipe shape stored under its own position. */
    ghost predicate Valid()
      reads this
    {
      LoopPipesValid(pipes)
    }

    /** The shapes of the pipes. */
    function Shapes(): Shapes
      reads this
    {
      LoopShapes(pipes)
    }

    constructor ()
      ensures Valid() && NoneFlagged(pipes)
      ensures width == 1 && height == 1 && pipes == map[] && start == None
    {
      width := 1;
      height := 1;
      pipes := map[];
      start := None;
    }

    /** add_tile: 'S' records the start, a pipe shape adds an unflagged pipe, anything else is ignored. */
    method AddTile(position: Position, shape: char)
      requires Valid()
      modifies this
      ensures Valid() && (old(NoneFlagged(pipes)) ==> NoneFlagged(pipes))
      ensures start == if shape == 'S' then Some(position) else old(start)
      ensures pipes == if shape != 'S' && IsPipeShape(shape) then old(pipes)[position := LoopPipe(position, shape, false)]
        else old(pipes)
      ensures width == if shape != 'S' && IsPipeShape(shape) then Max(old(width), position.x) else old(width)
      ensures height == if shape != 'S' && IsPipeShape(shape) then Max(old(height), position.y) else old(height)
      ensures Shapes() == if IsPipeShape(shape) then old(Shapes())[position := shape] else old(Shapes())
    {
      if shape == 'S' {
        start := Some(position);
        return;
      }
      if !IsPipeShape(shape) {
        return;
      }
      LoopShapesUpdate(pipes, position, LoopPipe(position, shape, false));
      width := Max(width, position.x);
      height := Max(height, position.y);
      pipes := pipes[position := LoopPipe(position, shape, false)];
    }

    /** The deletion loop of find_loop: every pipe not flagged is removed. */
    method Prune()
      modifies this
      ensures pipes == Flagged(old(pipes))
      ensures start == old(start) && width == old(width) && height == old(height)
    {
      var keys := pipes.Keys;
      while keys != {}
        invariant keys <= old(pipes).Keys
        invariant start == old(start) && width == old(width) && height == old(height)
        invariant forall p :: p in pipes <==> p in old(pipes) && (p in keys || old(pipes)[p].isLoop)
        invariant forall p :: p in pipes ==> pipes[p] == old(pipes)[p]
        decreases keys
      {
        var p :| p in keys;
        if !pipes[p].isLoop {
          pipes := pipes - {p};
        }
        keys := keys - {p};
      }
      assert pipes == Flagged(old(pipes));
    }

    /** The flag-clearing loop of find_loop after a walk that did not close. */
    method ClearFlags()
      modifies this
      ensures pipes.Keys == old(pipes).Keys
      ensures forall p :: p in pipes ==> pipes[p] == old(pipes)[p].(isLoop := false)
      ensures start == old(start) && width == old(width) && height == old(height)
    {
      var keys := pipes.Keys;
      while keys != {}
        invariant keys <= pipes.Keys && pipes.Keys == old(pipes).Keys
        invariant start == old(start) && width == old(width) && height == old(height)
        invariant forall p :: p in pipes ==> pipes[p] == if p in keys then old(pipes)[p] else old(pipes)[p].(isLoop := false)
        decreases keys
      {
        var p :| p in keys;
        pipes := pipes[p := pipes[p].(isLoop := false)];
        keys := keys - {p};
      }
    }

    /**
     * What find_loop does once a walk is back at the start: keep the
     * flagged pipes only and give the start the shape joining the two
     * directions the loop uses there.
     */
    method KeepLoop(ghost before: map<Position, LoopPipe>, startDirection: Direction, heading: Direction,
                    ghost path: seq<Position>)
      requires start.Some? && LoopPipesValid(before) && NoneFlagged(before)
      requires LoopPipesValid(pipes) && pipes.Keys == before.Keys && LoopShapes(pipes) == LoopShapes(before)
      requires MarkOutcome(before, pipes, start.value, startDirection, true, heading, path)
      modifies this
      ensures start == old(start) && width == old(width) && height == old(height)
      ensures pipes == KeptPipes(LoopShapes(before), start.value, startDirection, |path|)
      ensures Valid()
    {
      ghost var marked := pipes;
      Prune();
      var shape := ChooseStartShape(Inverse(heading), startDirection);
      KeptStart(before, marked, start.value, startDirection, heading, path, shape);
      if shape.Some? {
        pipes := pipes[start.value := LoopPipe(start.value, shape.value, true)];
      }
    }

    /**
     * find_loop: try each direction in turn until a walk closes a loop, and
     * keep that loop. found is false where the source raises, and then no
     * direction closes a loop.
     */
    method FindLoop() returns (found: bool)
      requires Valid() && NoneFlagged(pipes) && start.Some?
      modifies this
      ensures start == old(start) && width == old(width) && height == old(height)
      ensures found ==> Valid()
      ensures found ==> exists i, n :: (0 <= i < |Directions| && NoneClose(old(Shapes()), start.value, i) &&
        Closes(old(Shapes()), start.value, Directions[i], n) &&
        pipes == KeptPipes(old(Shapes()), start.value, Directions[i], n))
      ensures !found ==> NoneClose(old(Shapes()), start.value, |Directions|)
    {
      ghost var shapes := Shapes();
      ghost var s := start.value;
      var i := 0;
      while i < |Directions|
        invariant 0 <= i <= |Directions|
        invariant Valid() && NoneFlagged(pipes) && Shapes() == shapes
        invariant start == old(start) && width == old(width) && height == old(height)
        invariant NoneClose(shapes, s, i)
      {
        ghost var before := pipes;
        var complete, heading, marked, path := MarkFrom(pipes, start.value, Directions[i]);
        pipes := marked;
        MarkOnUnflagged(before, marked, s, Directions[i], complete, heading, path);
        if complete {
          KeepLoop(before, Directions[i], heading, path);
          return true;
        }
        NeverCloses(shapes, s, i, |path|);
        ClearFlags();
        i := i + 1;
      }
      return false;
    }

    /** is_inside, on the pipes left by find_loop. */
    method IsInside(position: Position) returns (inside: bool)
      requires Valid()
      ensures inside == Inside(Shapes(), position)
    {
      var vertical := 0;
      var x := 1;
      while x < position.x
        invariant 1 <= x && (x <= position.x || x == 1)
        invariant vertical == NorthCrossings(Shapes(), position.y, x - 1)
      {
        var sample := Position(x, position.y);
        if sample in pipes && CanEnter(pipes[sample].shape, North) {
          vertical := vertical + 1;
        }
        x := x + 1;
      }
      if vertical % 2 == 1 {
        return true;
      }
      var horizontal := 0;
      var y := 1;
      while y < position.y
        invariant 1 <= y && (y <= position.y || y == 1)
        invariant horizontal == EastCrossings(Shapes(), position.x, y - 1)
      {
        var sample := Position(position.x, y);
        if sample in pipes && CanEnter(pipes[sample].shape, East) {
          horizontal := horizontal + 1;
        }
        y := y + 1;
      }
      return horizontal % 2 == 1;
    }
  }

  /** The x loop of run for row y, adding the row's counted tiles to result. */
  method CountRow(maze: Maze, y: int, result: int) returns (result': int)
    requires maze.Valid()
    ensures result' == result + RowCount(EnclosedTest(maze.Shapes()), y, maze.width)
  {
    result' := result;
    var x := 1;
    while x <= maze.width
      invariant 1 <= x && (x <= maze.width + 1 || x == 1)
      invariant result' == result + RowCount(EnclosedTest(maze.Shapes()), y, x - 1)
    {
      var position := Position(x, y);
      if position !in maze.pipes {
        var inside := maze.IsInside(position);
        if inside {
          result' := result' + 1;
        }
      }
      x := x + 1;
    }
  }

  /** The counting loop of run over the box 1 .. width by 1 .. height. */
  method CountEnclosed(maze: Maze) returns (result: int)
    requires maze.Valid()
    ensures result == EnclosedCount(maze.Shapes(), maze.width, maze.height)
  {
    result := 0;
    var y := 1;
    while y <= maze.height
      invariant 1 <= y && (y <= maze.height + 1 || y == 1)
      invariant result == BoxCount(EnclosedTest(maze.Shapes()), maze.width, y - 1)
    {
      result := CountRow(maze, y, result);
      y := y + 1;
    }
  }

  // ---------------------------------------------------------------------
  // Reading the maze and the answer
  // ---------------------------------------------------------------------

  /** The width after the first n characters of a row: 1 or the largest x holding a pipe. */
  function RowWidth(row: string, n: nat): int
    requires n <= |row|
  {
    if n == 0 then 1
    else if IsPipeShape(row[n - 1]) then Max(RowWidth(row, n - 1), n)
    else RowWidth(row, n - 1)
  }

  /** Whether one of the first n characters of a row is a pipe. */
  predicate RowHasPipe(row: string, n: nat)
    requires n <= |row|
  {
    n > 0 && (IsPipeShape(row[n - 1]) || RowHasPipe(row, n - 1))
  }

  /** The maze width after the first m rows: 1 or the largest x of a pipe. */
  function Width(rows: seq<string>, m: nat): int
    requires m <= |rows|
  {
    if m == 0 then 1 else Max(Width(rows, m - 1), RowWidth(rows[m - 1], |rows[m - 1]|))
  }

  /** The maze height after the first m rows: 1 or the largest y of a pipe. */
  function Height(rows: seq<string>, m: nat): int
    requires m <= |rows|
  {
    if m == 0 then 1
    else if RowHasPipe(rows[m - 1], |rows[m - 1]|) then Max(Height(rows, m - 1), m)
    else Height(rows, m - 1)
  }

  lemma {:induction false} RowBoxCovers(row: string, n: nat)
    requires n <= |row|
    ensures RowWidth(row, n) >= 1
    ensures forall k :: 0 <= k < n && IsPipeShape(row[k]) ==> k + 1 <= RowWidth(row, n) && RowHasPipe(row, n)
  {
    if n > 0 {
      RowBoxCovers(row, n - 1);
    }
  }

  /** The box the answer counts over holds every pipe of the maze. */
  lemma {:induction false} BoxCoversPipes(rows: seq<string>, m: nat)
    requires m <= |rows|
    ensures Width(rows, m) >= 1 && Height(rows, m) >= 1
    ensures forall p :: p in ShapesOf(rows, m) ==> 1 <= p.x <= Width(rows, m) && 1 <= p.y <= Height(rows, m)
  {
    BoxPositive(rows, m);
    ShapesOfMeans(rows, m);
    forall p | p in ShapesOf(rows, m)
      ensures 1 <= p.x <= Width(rows, m) && 1 <= p.y <= Height(rows, m)
    {
      PipeInBox(rows, m, p);
    }
  }

  /** A pipe tile of the first m rows lies within their width and height. */
  lemma {:induction false} PipeInBox(rows: seq<string>, m: nat, p: Position)
    requires m <= |rows| && 1 <= p.y <= m && 1 <= p.x <= |rows[p.y - 1]|
    requires IsPipeShape(rows[p.y - 1][p.x - 1])
    ensures p.x <= Width(rows, m) && p.y <= Height(rows, m)
    decreases m
  {
    if p.y == m {
      RowBoxCovers(rows[m - 1], |rows[m - 1]|);
    } else {
      PipeInBox(rows, m - 1, p);
    }
  }

  lemma {:induction false} BoxPositive(rows: seq<string>, m: nat)
    requires m <= |rows|
    ensures Width(rows, m) >= 1 && Height(rows, m) >= 1
  {
    if m > 0 {
      BoxPositive(rows, m - 1);
    }
  }

  /** The maze holds exactly what the first m rows describe, with no pipe flagged. */
  ghost predicate Loaded(maze: Maze, rows: seq<string>, m: nat)
    requires m <= |rows|
    reads maze
  {
    maze.Valid() && NoneFlagged(maze.pipes) &&
    maze.Shapes() == ShapesOf(rows, m) && maze.start == StartOf(rows, m) &&
    maze.width == Width(rows, m) && maze.height == Height(rows, m)
  }

  /** The inner reading loop: add every character of row y as a tile. */
  method LoadRow(maze: Maze, rows: seq<string>, y: nat)
    requires 1 <= y <= |rows| && Loaded(maze, rows, y - 1)
    modifies maze
    ensures Loaded(maze, rows, y)
  {
    var row := rows[y - 1];
    ghost var before := ShapesOf(rows, y - 1);
    ghost var start := StartOf(rows, y - 1);
    ghost var width := Width(rows, y - 1);
    ghost var height := Height(rows, y - 1);
    BoxPositive(rows, y - 1);
    var x := 1;
    while x <= |row|
      invariant 1 <= x <= |row| + 1
      invariant maze.Valid() && NoneFlagged(maze.pipes)
      invariant maze.Shapes() == before + RowShapes(row, y, x - 1)
      invariant maze.start == Later(start, RowStart(row, y, x - 1))
      invariant maze.width == Max(width, RowWidth(row, x - 1))
      invariant maze.height == if RowHasPipe(row, x - 1) then Max(height, y) else height
    {
      RowShapesStep(before, row, y, x);
      maze.AddTile(Position(x, y), row[x - 1]);
      x := x + 1;
    }
  }

  /** The reading loop of run: the rows up to the first empty one, each taken as already stripped. */
  method Load(rows: seq<string>) returns (maze: Maze)
    ensures fresh(maze) && Loaded(maze, rows, FirstBlank(rows))
  {
    maze := new Maze();
    var done := 0;
    ghost var n := FirstBlank(rows);
    while done < |rows| && rows[done] != []
      invariant 0 <= done <= n
      invariant Loaded(maze, rows, done)
    {
      LoadRow(maze, rows, done + 1);
      done := done + 1;
    }
    assert done == n;
  }

  /**
   * run: read the maze, find the loop and count the enclosed tiles of the
   * box the maze spans. None where the source raises: no start tile, or no
   * direction closes a loop.
   */
  method Run(rows: seq<string>) returns (result: Option<int>)
    ensures var m := FirstBlank(rows);
      var shapes := ShapesOf(rows, m);
      var start := StartOf(rows, m);
      (result.Some? <==> start.Some? && exists d, n :: Closes(shapes, start.value, d, n)) &&
      (result.Some? ==> exists i, n :: (0 <= i < |Directions| && NoneClose(shapes, start.value, i) &&
        Closes(shapes, start.value, Directions[i], n) &&
        result.value == EnclosedCount(LoopShapes(KeptPipes(shapes, start.value, Directions[i], n)),
                                      Width(rows, m), Height(rows, m))))
  {
    var maze := Load(rows);
    ghost var m := FirstBlank(rows);
    ghost var shapes := ShapesOf(rows, m);
    if maze.start.None? {
      return None;
    }
    ghost var s := maze.start.value;
    var found := maze.FindLoop();
    if !found {
      NoDirectionCloses(shapes, s);
      return None;
    }
    ghost var i, n :| 0 <= i < |Directions| && NoneClose(shapes, s, i) &&
      Closes(shapes, s, Directions[i], n) && maze.pipes == KeptPipes(shapes, s, Directions[i], n);
    var count := CountEnclosed(maze);
    assert count == EnclosedCount(LoopShapes(KeptPipes(shapes, s, Directions[i], n)), Width(rows, m), Height(rows, m));
    assert StartOf(rows, m) == Some(s) && Closes(shapes, s, Directions[i], n);
    assert exists d, n :: Closes(shapes, s, d, n);
    assert exists d, n :: Closes(ShapesOf(rows, FirstBlank(rows)), StartOf(rows, FirstBlank(rows)).value, d, n);
    return Some(count);
  }
}
