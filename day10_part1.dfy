/**
 * Pipe maze, farthest point of the loop (day10/part1.py). Pipes connect two
 * of the four directions; from the start tile the code tries each direction
 * in turn, walking from pipe to pipe and numbering them by depth, until a
 * walk returns to the start. The answer is half the loop length, rounded up.
 */
module Day10Pipes {
  import opened Common

  datatype Direction = North | South | East | West

  /** The opposite direction. */
  function Inverse(d: Direction): Direction
  {
    match d
    case North => South
    case South => North
    case East => West
    case West => East
  }

  /** Inverting twice is the identity, and no direction is its own inverse. */
  lemma InverseInvolution(d: Direction)
    ensures Inverse(Inverse(d)) == d && Inverse(d) != d
  {
  }

  /** A tile position: x grows to the east and y to the south. */
  datatype Position = Position(x: int, y: int)

  /** The neighbouring tile in direction d. */
  function Moved(p: Position, d: Direction): Position
  {
    match d
    case North => Position(p.x, p.y - 1)
    case South => Position(p.x, p.y + 1)
    case East => Position(p.x + 1, p.y)
    case West => Position(p.x - 1, p.y)
  }

  /** Moving back the opposite way returns to the tile, and a move always leaves it. */
  lemma MovedInverse(p: Position, d: Direction)
    ensures Moved(Moved(p, d), Inverse(d)) == p
    ensures Moved(p, d) != p
  {
  }

  /** The keys of PIPE_EXITS. */
  predicate IsPipeShape(c: char)
  {
    c == '|' || c == '-' || c == 'L' || c == 'J' || c == '7' || c == 'F'
  }

  /** PIPE_EXITS: the two directions a pipe shape connects. */
  function Exits(c: char): (Direction, Direction)
    requires IsPipeShape(c)
  {
    match c
    case '|' => (North, South)
    case '-' => (East, West)
    case 'L' => (North, East)
    case 'J' => (North, West)
    case '7' => (South, West)
    case 'F' => (South, East)
  }

  /** Every shape connects two different directions. */
  lemma ExitsDistinct(c: char)
    requires IsPipeShape(c)
    ensures Exits(c).0 != Exits(c).1
  {
  }

  /** Pipe.can_enter: the entrance is one of the exits. */
  predicate CanEnter(shape: char, entrance: Direction)
    requires IsPipeShape(shape)
  {
    entrance == Exits(shape).0 || entrance == Exits(shape).1
  }

  /** Pipe.follow: leave by the exit that is not the entrance, to the neighbour there. */
  function FollowPipe(position: Position, shape: char, entrance: Direction): (Direction, Position)
    requires IsPipeShape(shape)
  {
    var exits := Exits(shape);
    var direction := if entrance == exits.0 then exits.1 else exits.0;
    (direction, Moved(position, direction))
  }

  /**
   * Entering through one exit, the walk leaves through the other one, to
   * the neighbouring tile, from which the way back leads into the pipe.
   */
  lemma FollowOtherExit(position: Position, shape: char, entrance: Direction)
    requires IsPipeShape(shape) && CanEnter(shape, entrance)
    ensures var (direction, next) := FollowPipe(position, shape, entrance);
      direction != entrance && CanEnter(shape, direction) &&
      {direction, entrance} == {Exits(shape).0, Exits(shape).1} &&
      next == Moved(position, direction) && Moved(next, Inverse(direction)) == position
  {
    ExitsDistinct(shape);
  }

  // ---------------------------------------------------------------------
  // Walks through the maze
  // ---------------------------------------------------------------------

  /** The shape of every pipe tile. */
  type Shapes = map<Position, char>

  /**
   * From start heading in direction d, the heading and the tile reached
   * after passing through n pipes; None once the walk hits a tile that is
   * not a pipe or a pipe without an exit facing the walk.
   */
  function Walk(shapes: Shapes, start: Position, d: Direction, n: nat): Option<(Direction, Position)>
  {
    if n == 0 then Some((d, Moved(start, d)))
    else
      match Walk(shapes, start, d, n - 1)
      case None => None
      case Some(step) =>
        var (heading, position) := step;
        if position in shapes && IsPipeShape(shapes[position]) && CanEnter(shapes[position], Inverse(heading))
        then Some(FollowPipe(position, shapes[position], Inverse(heading)))
        else None
  }

  /** A walk that has stopped stays stopped. */
  lemma {:induction false} WalkPrefix(shapes: Shapes, start: Position, d: Direction, k: nat, n: nat)
    requires k <= n && Walk(shapes, start, d, n).Some?
    ensures Walk(shapes, start, d, k).Some?
    decreases n
  {
    if k < n {
      WalkPrefix(shapes, start, d, k, n - 1);
    }
  }

  /** The tile at step k of a walk known to get that far. */
  function At(shapes: Shapes, start: Position, d: Direction, k: nat): Position
    requires Walk(shapes, start, d, k).Some?
  {
    Walk(shapes, start, d, k).value.1
  }

  /**
   * The first n pipes of the walk are all different tiles and none of
   * them, past the first step, is the start.
   */
  predicate Walked(shapes: Shapes, start: Position, d: Direction, n: nat)
  {
    Walk(shapes, start, d, n).Some? &&
    (forall k :: 0 <= k <= n ==> Walk(shapes, start, d, k).Some?) &&
    (forall k :: 0 <= k < n ==> At(shapes, start, d, k) != start) &&
    (forall j, k :: 0 <= j < k < n ==> At(shapes, start, d, j) != At(shapes, start, d, k))
  }

  /** The tiles of the first n steps of a walk. */
  function Trail(shapes: Shapes, start: Position, d: Direction, n: nat): (t: seq<Position>)
    requires forall k :: 0 <= k <= n ==> Walk(shapes, start, d, k).Some?
    ensures |t| == n
  {
    if n == 0 then [] else Trail(shapes, start, d, n - 1) + [At(shapes, start, d, n - 1)]
  }

  lemma {:induction false} TrailAt(shapes: Shapes, start: Position, d: Direction, n: nat)
    requires forall k :: 0 <= k <= n ==> Walk(shapes, start, d, k).Some?
    ensures forall k :: 0 <= k < n ==> Trail(shapes, start, d, n)[k] == At(shapes, start, d, k)
  {
    if n > 0 {
      TrailAt(shapes, start, d, n - 1);
    }
  }

  /** Heading d, the walk passes n different pipes and then reaches the start again: a loop of length n. */
  predicate Closes(shapes: Shapes, start: Position, d: Direction, n: nat)
  {
    n >= 1 && Walked(shapes, start, d, n) && At(shapes, start, d, n) == start
  }

  /**
   * The walk of n pipes stops short of the start: the next tile is not an
   * enterable pipe, or it is one the walk has passed already.
   */
  predicate Blocked(shapes: Shapes, start: Position, d: Direction, n: nat)
  {
    Walked(shapes, start, d, n) && At(shapes, start, d, n) != start &&
    (Walk(shapes, start, d, n + 1).None? ||
     exists j :: 0 <= j < n && At(shapes, start, d, j) == At(shapes, start, d, n))
  }

  /** A blocked walk never closes a loop, however far one looks. */
  lemma BlockedNeverCloses(shapes: Shapes, start: Position, d: Direction, n: nat, m: nat)
    requires Blocked(shapes, start, d, n)
    ensures !Closes(shapes, start, d, m)
  {
    if m > n && Walk(shapes, start, d, m).Some? {
      WalkPrefix(shapes, start, d, n + 1, m);
    }
  }

  /** Heading one way, at most one loop length closes. */
  lemma ClosesUnique(shapes: Shapes, start: Position, d: Direction, n: nat, m: nat)
    requires Closes(shapes, start, d, n) && Closes(shapes, start, d, m)
    ensures n == m
  {
  }

  // ---------------------------------------------------------------------
  // The maze
  // ---------------------------------------------------------------------

  /** A pipe tile and the depth the walk has numbered it with, 0 when unvisited. */
  datatype Pipe = Pipe(position: Position, shape: char, depth: int)

  /** The shape of each pipe. */
  function PipeShapes(pipes: map<Position, Pipe>): Shapes
  {
    map p | p in pipes :: pipes[p].shape
  }

  /** Storing a pipe changes the shape at its position only. */
  lemma PipeShapesUpdate(pipes: map<Position, Pipe>, p: Position, pipe: Pipe)
    ensures PipeShapes(pipes[p := pipe]) == PipeShapes(pipes)[p := pipe.shape]
  {
  }

  /** The positions of the pipes not numbered yet. */
  function UnmarkedSet(pipes: map<Position, Pipe>): set<Position>
  {
    set p | p in pipes && pipes[p].depth == 0
  }

  /** Numbering an unnumbered pipe leaves one pipe fewer to number. */
  lemma UnmarkedShrinks(pipes: map<Position, Pipe>, p: Position, depth: int)
    requires p in pipes && pipes[p].depth == 0 && depth != 0
    ensures |UnmarkedSet(pipes[p := pipes[p].(depth := depth)])| < |UnmarkedSet(pipes)|
  {
    var after := UnmarkedSet(pipes[p := pipes[p].(depth := depth)]);
    assert UnmarkedSet(pipes) == after + {p};
    assert p !in after;
  }

  /**
   * One more pipe on a walk: if the walk has passed n different pipes and
   * the next tile is an enterable pipe it has not passed, it has passed
   * n + 1 different pipes.
   */
  lemma WalkedStep(shapes: Shapes, start: Position, d: Direction, n: nat)
    requires Walked(shapes, start, d, n) && Walk(shapes, start, d, n + 1).Some?
    requires At(shapes, start, d, n) != start
    requires forall k :: 0 <= k < n ==> At(shapes, start, d, k) != At(shapes, start, d, n)
    ensures Walked(shapes, start, d, n + 1)
  {
    assert forall k :: 0 <= k <= n ==> Walk(shapes, start, d, k).Some?;
  }

  /** Every entry is a pipe shape stored under its own position. */
  predicate PipesValid(pipes: map<Position, Pipe>)
  {
    forall p :: p in pipes ==> pipes[p].position == p && IsPipeShape(pipes[p].shape)
  }

  /**
   * What follow leaves behind, starting from the pipes before: the
   * numbered tiles of path are the first depth steps of the walk, all
   * different and none of them the start; they were unnumbered and now carry
   * 1..depth; every other pipe is unchanged; complete says whether the next
   * tile is the start, and otherwise the next tile is not an enterable pipe,
   * is on the path or was numbered before.
   */
  ghost predicate FollowOutcome(before: map<Position, Pipe>, after: map<Position, Pipe>, s: Position,
                                direction: Direction, complete: bool, depth: int, path: seq<Position>)
  {
    var shapes := PipeShapes(before);
    depth == |path| && Walked(shapes, s, direction, depth) &&
    (forall k :: 0 <= k < depth ==>
      path[k] == At(shapes, s, direction, k) &&
      path[k] in before && before[path[k]].depth == 0 && path[k] in after && after[path[k]].depth == k + 1) &&
    (forall p :: p in after && p !in path ==> p in before && after[p] == before[p]) &&
    (complete <==> depth >= 1 && At(shapes, s, direction, depth) == s) &&
    (!complete ==>
      var next := At(shapes, s, direction, depth);
      Walk(shapes, s, direction, depth + 1).None? || next in path || (next in before && before[next].depth != 0))
  }

  /** The walk part of follow's loop state: depth pipes passed, about to look at position. */
  predicate WalkState(shapes: Shapes, s: Position, direction: Direction, depth: nat, path: seq<Position>,
                      heading: Direction, position: Position)
  {
    Walked(shapes, s, direction, depth) &&
    Walk(shapes, s, direction, depth) == Some((heading, position)) &&
    path == Trail(shapes, s, direction, depth)
  }

  /** Passing through an enterable pipe not on the path, other than the start, extends the walk. */
  lemma WalkStateStep(shapes: Shapes, s: Position, direction: Direction, depth: nat, path: seq<Position>,
                      heading: Direction, position: Position)
    requires WalkState(shapes, s, direction, depth, path, heading, position)
    requires position != s && position !in path
    requires position in shapes && IsPipeShape(shapes[position]) && CanEnter(shapes[position], Inverse(heading))
    ensures var next := FollowPipe(position, shapes[position], Inverse(heading));
      WalkState(shapes, s, direction, depth + 1, path + [position], next.0, next.1)
  {
    TrailAt(shapes, s, direction, depth);
    WalkedStep(shapes, s, direction, depth);
  }

  /**
   * The map part of follow's loop state: the tiles of path were unnumbered
   * and carry 1, 2, ...; every other pipe is as before.
   */
  predicate MarkState(pipes: map<Position, Pipe>, marked: map<Position, Pipe>, path: seq<Position>)
  {
    PipesValid(marked) && marked.Keys == pipes.Keys && PipeShapes(marked) == PipeShapes(pipes) &&
    (forall k :: 0 <= k < |path| ==>
      path[k] in pipes && pipes[path[k]].depth == 0 && path[k] in marked && marked[path[k]].depth == k + 1) &&
    (forall p :: p in marked && p !in path ==> marked[p] == pipes[p])
  }

  /** Numbering an unnumbered pipe extends the path by it and leaves one pipe fewer to number. */
  lemma MarkStateStep(pipes: map<Position, Pipe>, marked: map<Position, Pipe>, path: seq<Position>, position: Position)
    requires MarkState(pipes, marked, path)
    requires position in marked && marked[position].depth == 0
    ensures position !in path
    ensures var marked' := marked[position := marked[position].(depth := |path| + 1)];
      MarkState(pipes, marked', path + [position]) && |UnmarkedSet(marked')| < |UnmarkedSet(marked)|
  {
    UnmarkedShrinks(marked, position, |path| + 1);
    PipeShapesUpdate(marked, position, marked[position].(depth := |path| + 1));
  }

  /** When the loop stops, or returns at the start, follow's outcome holds. */
  lemma FollowLoopDone(pipes: map<Position, Pipe>, marked: map<Position, Pipe>, s: Position,
                       direction: Direction, depth: nat, path: seq<Position>,
                       heading: Direction, position: Position, complete: bool)
    requires WalkState(PipeShapes(pipes), s, direction, depth, path, heading, position)
    requires MarkState(pipes, marked, path)
    requires complete ==> depth >= 1 && position == s
    requires !complete ==> (position != s &&
      (position !in marked || !CanEnter(marked[position].shape, Inverse(heading)) || marked[position].depth != 0))
    ensures FollowOutcome(pipes, marked, s, direction, complete, depth, path)
  {
    FollowLoopPath(pipes, marked, s, direction, depth, path, heading, position);
    if !complete && position in marked && marked[position].depth != 0 && position !in path {
      assert marked[position] == pipes[position];
    }
  }

  /** The path part of follow's outcome. */
  lemma FollowLoopPath(pipes: map<Position, Pipe>, marked: map<Position, Pipe>, s: Position,
                       direction: Direction, depth: nat, path: seq<Position>,
                       heading: Direction, position: Position)
    requires WalkState(PipeShapes(pipes), s, direction, depth, path, heading, position)
    requires MarkState(pipes, marked, path)
    ensures depth == |path| && At(PipeShapes(pipes), s, direction, depth) == position
    ensures forall k :: 0 <= k < depth ==>
      path[k] == At(PipeShapes(pipes), s, direction, k) &&
      path[k] in pipes && pipes[path[k]].depth == 0 && path[k] in marked && marked[path[k]].depth == k + 1
    ensures forall p :: p in marked && p !in path ==> p in pipes && marked[p] == pipes[p]
  {
    TrailAt(PipeShapes(pipes), s, direction, depth);
  }

  /** One pass of follow's loop through an enterable, unnumbered pipe keeps both loop states. */
  lemma FollowStep(pipes: map<Position, Pipe>, s: Position, direction: Direction, depth: nat,
                   path: seq<Position>, heading: Direction, position: Position, marked: map<Position, Pipe>)
    requires depth == |path| && position != s
    requires WalkState(PipeShapes(pipes), s, direction, depth, path, heading, position)
    requires MarkState(pipes, marked, path)
    requires position in marked && CanEnter(marked[position].shape, Inverse(heading)) && marked[position].depth == 0
    ensures var pipe := marked[position];
      var marked' := marked[position := pipe.(depth := depth + 1)];
      var next := FollowPipe(pipe.position, pipe.shape, Inverse(heading));
      WalkState(PipeShapes(pipes), s, direction, depth + 1, path + [position], next.0, next.1) &&
      MarkState(pipes, marked', path + [position]) &&
      |UnmarkedSet(marked')| < |UnmarkedSet(marked)|
  {
    var shapes := PipeShapes(pipes);
    var pipe := marked[position];
    MarkStateStep(pipes, marked, path, position);
    assert pipe.position == position && pipe.shape == shapes[position];
    WalkStateStep(shapes, s, direction, depth, path, heading, position);
  }

  /** The while loop of follow, on the pipes map. */
  method WalkFrom(pipes: map<Position, Pipe>, s: Position, direction: Direction)
    returns (complete: bool, depth: int, marked: map<Position, Pipe>, ghost path: seq<Position>)
    requires PipesValid(pipes)
    ensures PipesValid(marked) && marked.Keys == pipes.Keys && PipeShapes(marked) == PipeShapes(pipes)
    ensures FollowOutcome(pipes, marked, s, direction, complete, depth, path)
  {
    ghost var shapes := PipeShapes(pipes);
    marked := pipes;
    var heading := direction;
    var position := Moved(s, direction);
    depth := 0;
    path := [];
    while position in marked
      invariant depth == |path|
      invariant WalkState(shapes, s, direction, depth, path, heading, position)
      invariant MarkState(pipes, marked, path)
      invariant position != s
      decreases |UnmarkedSet(marked)|
    {
      var pipe := marked[position];
      if !CanEnter(pipe.shape, Inverse(heading)) {
        break;
      }
      if pipe.depth != 0 {
        break;
      }
      FollowStep(pipes, s, direction, depth, path, heading, position, marked);
      depth := depth + 1;
      marked := marked[position := pipe.(depth := depth)];
      path := path + [position];
      var next := FollowPipe(pipe.position, pipe.shape, Inverse(heading));
      heading, position := next.0, next.1;
      if position == s {
        FollowLoopDone(pipes, marked, s, direction, depth, path, heading, position, true);
        return true, depth, marked, path;
      }
    }
    FollowLoopDone(pipes, marked, s, direction, depth, path, heading, position, false);
    complete := false;
  }

  /**
   * The maze: pipe tiles by position, the start tile once seen, and the
   * largest pipe coordinates. Pipe records live only in the pipes map, so
   * setting a pipe's depth is modelled as replacing its entry.
   */
  class Maze {
    var width: int
    var height: int
    var pipes: map<Position, Pipe>
    var start: Option<Position>

    /** Every entry is a pipe shape stored under its own position, within width and height. */
    ghost predicate Valid()
      reads this
    {
      1 <= width && 1 <= height && PipesValid(pipes) &&
      forall p :: p in pipes ==> p.x <= width && p.y <= height
    }

    /** width and height are the largest pipe coordinates, or 1. */
    ghost predicate Tight()
      reads this
    {
      (width == 1 || exists p :: p in pipes && p.x == width) &&
      (height == 1 || exists p :: p in pipes && p.y == height)
    }

    /** No pipe is numbered. */
    ghost predicate Unmarked()
      reads this
    {
      forall p :: p in pipes ==> pipes[p].depth == 0
    }

    /** The shapes of the pipes. */
    function Shapes(): Shapes
      reads this
    {
      PipeShapes(pipes)
    }

    constructor ()
      ensures Valid() && Tight() && Unmarked()
      ensures width == 1 && height == 1 && pipes == map[] && start == None
    {
      width := 1;
      height := 1;
      pipes := map[];
      start := None;
    }

    /** add_tile: 'S' records the start, a pipe shape adds a fresh pipe, anything else is ignored. */
    method AddTile(position: Position, shape: char)
      requires Valid()
      modifies this
      ensures Valid() && (old(Tight()) ==> Tight()) && (old(Unmarked()) ==> Unmarked())
      ensures shape == 'S' ==>
        start == Some(position) && pipes == old(pipes) && width == old(width) && height == old(height)
      ensures shape != 'S' && !IsPipeShape(shape) ==>
        start == old(start) && pipes == old(pipes) && width == old(width) && height == old(height)
      ensures shape != 'S' && IsPipeShape(shape) ==>
        start == old(start) && pipes == old(pipes)[position := Pipe(position, shape, 0)] &&
        width == Max(old(width), position.x) && height == Max(old(height), position.y)
      ensures Shapes() == if IsPipeShape(shape) then old(Shapes())[position := shape] else old(Shapes())
    {
      if shape == 'S' {
        start := Some(position);
        return;
      }
      if !IsPipeShape(shape) {
        return;
      }
      PipeShapesUpdate(pipes, position, Pipe(position, shape, 0));
      width := Max(width, position.x);
      height := Max(height, position.y);
      pipes := pipes[position := Pipe(position, shape, 0)];
    }

    /**
     * follow: walk from the start heading in direction, numbering each
     * unnumbered pipe passed with depth 1, 2, ... The ghost path lists the
     * numbered tiles. complete tells whether the walk came back to the start.
     */
    method Follow(direction: Direction) returns (complete: bool, depth: int, ghost path: seq<Position>)
      requires Valid() && start.Some?
      modifies this
      ensures Valid() && start == old(start) && width == old(width) && height == old(height)
      ensures pipes.Keys == old(pipes.Keys) && Shapes() == old(Shapes())
      ensures FollowOutcome(old(pipes), pipes, start.value, direction, complete, depth, path)
    {
      var marked;
      complete, depth, marked, path := WalkFrom(pipes, start.value, direction);
      pipes := marked;
    }

    /** reset: every depth back to 0, nothing else changed. */
    method Reset()
      requires Valid()
      modifies this
      ensures Valid() && Unmarked() && start == old(start) && width == old(width) && height == old(height)
      ensures pipes.Keys == old(pipes.Keys) && Shapes() == old(Shapes())
      ensures forall p :: p in pipes ==> pipes[p] == old(pipes[p]).(depth := 0)
    {
      var keys := pipes.Keys;
      while keys != {}
        invariant keys <= pipes.Keys && pipes.Keys == old(pipes.Keys)
        invariant start == old(start) && width == old(width) && height == old(height)
        invariant forall p :: p in pipes ==> pipes[p] == if p in keys then old(pipes[p]) else old(pipes[p]).(depth := 0)
        decreases keys
      {
        var p :| p in keys;
        pipes := pipes[p := pipes[p].(depth := 0)];
        keys := keys - {p};
      }
    }
  }

  // ---------------------------------------------------------------------
  // Reading the maze
  // ---------------------------------------------------------------------

  /** The index of the first empty row, where reading stops, or the number of rows. */
  function FirstBlank(rows: seq<string>): (n: nat)
    ensures n <= |rows|
    ensures forall k :: 0 <= k < n ==> rows[k] != []
    ensures n < |rows| ==> rows[n] == []
  {
    if |rows| == 0 || rows[0] == [] then 0 else 1 + FirstBlank(rows[1..])
  }

  /** The pipes among the first n characters of a row read as row number y. */
  function RowShapes(row: string, y: int, n: nat): Shapes
    requires n <= |row|
  {
    if n == 0 then map[]
    else if IsPipeShape(row[n - 1]) then RowShapes(row, y, n - 1)[Position(n, y) := row[n - 1]]
    else RowShapes(row, y, n - 1)
  }

  /** The pipes of the first m rows; the tile at Position(x, y) is character x - 1 of row y - 1. */
  function ShapesOf(rows: seq<string>, m: nat): Shapes
    requires m <= |rows|
  {
    if m == 0 then map[] else ShapesOf(rows, m - 1) + RowShapes(rows[m - 1], m, |rows[m - 1]|)
  }

  lemma {:induction false} RowShapesMeans(row: string, y: int, n: nat)
    requires n <= |row|
    ensures forall p :: p in RowShapes(row, y, n) <==> p.y == y && 1 <= p.x <= n && IsPipeShape(row[p.x - 1])
    ensures forall p :: p in RowShapes(row, y, n) ==> RowShapes(row, y, n)[p] == row[p.x - 1]
  {
    if n > 0 {
      RowShapesMeans(row, y, n - 1);
    }
  }

  /** A tile is a pipe of the maze exactly when its character is a pipe shape, and it has that shape. */
  lemma {:induction false} ShapesOfMeans(rows: seq<string>, m: nat)
    requires m <= |rows|
    ensures forall p :: p in ShapesOf(rows, m) <==>
      1 <= p.y <= m && 1 <= p.x <= |rows[p.y - 1]| && IsPipeShape(rows[p.y - 1][p.x - 1])
    ensures forall p :: p in ShapesOf(rows, m) ==> ShapesOf(rows, m)[p] == rows[p.y - 1][p.x - 1]
  {
    if m > 0 {
      ShapesOfMeans(rows, m - 1);
      RowShapesMeans(rows[m - 1], m, |rows[m - 1]|);
    }
  }

  /** The later of two sightings of the start: b when there is one. */
  function Later(a: Option<Position>, b: Option<Position>): Option<Position>
  {
    if b.Some? then b else a
  }

  /** The last 'S' among the first n characters of row y. */
  function RowStart(row: string, y: int, n: nat): Option<Position>
    requires n <= |row|
  {
    if n == 0 then None
    else if row[n - 1] == 'S' then Some(Position(n, y))
    else RowStart(row, y, n - 1)
  }

  /** The start of the first m rows: the last 'S' read. */
  function StartOf(rows: seq<string>, m: nat): Option<Position>
    requires m <= |rows|
  {
    if m == 0 then None else Later(StartOf(rows, m - 1), RowStart(rows[m - 1], m, |rows[m - 1]|))
  }

  /** Whether character x - 1 of row y - 1 of the first m rows is an 'S'. */
  predicate IsStartTile(rows: seq<string>, m: nat, x: int, y: int)
    requires m <= |rows|
  {
    1 <= y <= m && 1 <= x <= |rows[y - 1]| && rows[y - 1][x - 1] == 'S'
  }

  lemma {:induction false} RowStartMeans(row: string, y: int, n: nat)
    requires n <= |row|
    ensures RowStart(row, y, n).None? <==> forall k :: 0 <= k < n ==> row[k] != 'S'
    ensures RowStart(row, y, n).Some? ==>
      var p := RowStart(row, y, n).value;
      p.y == y && 1 <= p.x <= n && row[p.x - 1] == 'S' && forall k :: p.x <= k < n ==> row[k] != 'S'
  {
    if n > 0 {
      RowStartMeans(row, y, n - 1);
    }
  }

  /**
   * There is no start exactly when no tile is an 'S'; otherwise the start
   * is an 'S' and every 'S' comes before it in reading order.
   */
  lemma {:induction false} StartOfMeans(rows: seq<string>, m: nat)
    requires m <= |rows|
    ensures StartOf(rows, m).None? <==> forall x, y :: !IsStartTile(rows, m, x, y)
    ensures StartOf(rows, m).Some? ==>
      var p := StartOf(rows, m).value;
      IsStartTile(rows, m, p.x, p.y) &&
      forall x, y :: IsStartTile(rows, m, x, y) ==> y < p.y || (y == p.y && x <= p.x)
  {
    if m > 0 {
      StartOfMeans(rows, m - 1);
      RowStartMeans(rows[m - 1], m, |rows[m - 1]|);
      forall x, y | IsStartTile(rows, m, x, y)
        ensures IsStartTile(rows, m - 1, x, y) || (y == m && rows[m - 1][x - 1] == 'S')
      {
      }
      var row := RowStart(rows[m - 1], m, |rows[m - 1]|);
      if row.Some? {
        assert IsStartTile(rows, m, row.value.x, m);
      } else if StartOf(rows, m - 1).Some? {
        var p := StartOf(rows, m - 1).value;
        assert IsStartTile(rows, m, p.x, p.y);
      }
    }
  }

  /** The maze holds exactly what the first m rows describe, with no pipe numbered. */
  ghost predicate Loaded(maze: Maze, rows: seq<string>, m: nat)
    requires m <= |rows|
    reads maze
  {
    maze.Valid() && maze.Tight() && maze.Unmarked() &&
    maze.Shapes() == ShapesOf(rows, m) && maze.start == StartOf(rows, m)
  }

  /** The inner reading loop: add every character of row y as a tile. */
  method LoadRow(maze: Maze, rows: seq<string>, y: nat)
    requires 1 <= y <= |rows| && Loaded(maze, rows, y - 1)
    modifies maze
    ensures Loaded(maze, rows, y)
  {
    var row := rows[y - 1];
    ghost var before := ShapesOf(rows, y - 1);
    ghost var start := StartOf(rows, y - 1);
    var x := 1;
    while x <= |row|
      invariant 1 <= x <= |row| + 1
      invariant maze.Valid() && maze.Tight() && maze.Unmarked()
      invariant maze.Shapes() == before + RowShapes(row, y, x - 1)
      invariant maze.start == Later(start, RowStart(row, y, x - 1))
    {
      RowShapesStep(before, row, y, x);
      maze.AddTile(Position(x, y), row[x - 1]);
      x := x + 1;
    }
  }

  /** Reading character x - 1 of row y adds its tile to the shapes read before. */
  lemma RowShapesStep(base: Shapes, row: string, y: int, x: nat)
    requires 1 <= x <= |row|
    ensures base + RowShapes(row, y, x) ==
      if IsPipeShape(row[x - 1]) then (base + RowShapes(row, y, x - 1))[Position(x, y) := row[x - 1]]
      else base + RowShapes(row, y, x - 1)
  {
  }

  /** The reading loop of run: the rows up to the first empty one, each taken as already stripped. */
  method Load(rows: seq<string>) returns (maze: Maze)
    ensures fresh(maze) && maze.Valid() && maze.Tight() && maze.Unmarked()
    ensures maze.Shapes() == ShapesOf(rows, FirstBlank(rows))
    ensures maze.start == StartOf(rows, FirstBlank(rows))
  {
    maze := new Maze();
    var done := 0;
    ghost var n := FirstBlank(rows);
    while done < |rows| && rows[done] != []
      invariant 0 <= done <= n
      invariant Loaded(maze, rows, done)
    {
      LoadRow(maze, rows, done + 1);
      done := done + 1;
    }
    assert done == n;
  }

  // ---------------------------------------------------------------------
  // The answer
  // ---------------------------------------------------------------------

  /** On a maze with no pipe numbered, follow either closes the loop or is blocked. */
  lemma FollowOnUnmarked(before: map<Position, Pipe>, after: map<Position, Pipe>, s: Position,
                         direction: Direction, complete: bool, depth: int, path: seq<Position>)
    requires FollowOutcome(before, after, s, direction, complete, depth, path)
    requires forall p :: p in before ==> before[p].depth == 0
    ensures complete ==> Closes(PipeShapes(before), s, direction, depth)
    ensures !complete ==> Blocked(PipeShapes(before), s, direction, depth)
  {
    var shapes := PipeShapes(before);
    MovedInverse(s, direction);
    if !complete {
      var next := At(shapes, s, direction, depth);
      if next in path {
        var j :| 0 <= j < |path| && path[j] == next;
        assert At(shapes, s, direction, j) == next;
      }
    }
  }

  /** The order in which run tries the directions. */
  const Directions: seq<Direction> := [North, South, East, West]

  /**
   * The direction loop of run: follow each direction in turn, resetting
   * after a walk that does not come back, until one closes the loop.
   * complete says whether one did; it is then the first direction in
   * order that closes a loop, and depth is that loop's length.
   */
  method FindLoop(maze: Maze) returns (complete: bool, depth: int)
    requires maze.Valid() && maze.Unmarked() && maze.start.Some?
    modifies maze
    ensures maze.Valid() && maze.start == old(maze.start) && maze.Shapes() == old(maze.Shapes())
    ensures maze.width == old(maze.width) && maze.height == old(maze.height)
    ensures complete ==> depth >= 0 && exists i :: (0 <= i < |Directions| &&
      Closes(maze.Shapes(), maze.start.value, Directions[i], depth) &&
      forall j, n :: 0 <= j < i ==> !Closes(maze.Shapes(), maze.start.value, Directions[j], n))
    ensures !complete ==> (maze.Unmarked() &&
      forall d, n :: !Closes(maze.Shapes(), maze.start.value, d, n))
  {
    ghost var shapes := maze.Shapes();
    ghost var s := maze.start.value;
    var i := 0;
    complete, depth := false, 0;
    while i < |Directions|
      invariant 0 <= i <= |Directions|
      invariant maze.Valid() && maze.Unmarked() && maze.start == old(maze.start)
      invariant maze.Shapes() == shapes
      invariant maze.width == old(maze.width) && maze.height == old(maze.height)
      invariant NoneClose(shapes, s, i)
    {
      ghost var before := maze.pipes;
      ghost var path;
      complete, depth, path := maze.Follow(Directions[i]);
      FollowOnUnmarked(before, maze.pipes, s, Directions[i], complete, depth, path);
      if complete {
        return;
      }
      NeverCloses(shapes, s, i, depth);
      maze.Reset();
      i := i + 1;
    }
    NoDirectionCloses(shapes, s);
  }

  /** None of the first i directions closes a loop. */
  ghost predicate NoneClose(shapes: Shapes, start: Position, i: nat)
  {
    forall j, n :: 0 <= j < i && j < |Directions| ==> !Closes(shapes, start, Directions[j], n)
  }

  /** After a blocked walk in direction i, none of the first i + 1 directions closes a loop. */
  lemma NeverCloses(shapes: Shapes, start: Position, i: nat, n: nat)
    requires i < |Directions| && NoneClose(shapes, start, i) && Blocked(shapes, start, Directions[i], n)
    ensures NoneClose(shapes, start, i + 1)
  {
    forall m: nat
      ensures !Closes(shapes, start, Directions[i], m)
    {
      BlockedNeverCloses(shapes, start, Directions[i], n, m);
    }
  }

  /** The four directions are all there are. */
  lemma NoDirectionCloses(shapes: Shapes, start: Position)
    requires NoneClose(shapes, start, |Directions|)
    ensures forall d, n :: !Closes(shapes, start, d, n)
  {
    forall d, n: nat
      ensures !Closes(shapes, start, d, n)
    {
      assert d == Directions[0] || d == Directions[1] || d == Directions[2] || d == Directions[3];
    }
  }

  /**
   * run: read the maze, find the loop, and answer ceil(depth / 2), written
   * (depth + 1) / 2 on integers, where depth is the loop length of the
   * first direction in north, south, east, west order that closes. None
   * where the source raises: no start tile, or no direction closes a loop.
   */
  method Run(rows: seq<string>) returns (result: Option<int>)
    ensures var shapes := ShapesOf(rows, FirstBlank(rows));
      var start := StartOf(rows, FirstBlank(rows));
      (result.Some? <==> start.Some? && exists d, n :: Closes(shapes, start.value, d, n)) &&
      (result.Some? ==> exists i, n: nat :: (0 <= i < |Directions| &&
        Closes(shapes, start.value, Directions[i], n) &&
        (forall j, m :: 0 <= j < i ==> !Closes(shapes, start.value, Directions[j], m)) &&
        2 * result.value - 1 <= n <= 2 * result.value))
  {
    var maze := Load(rows);
    if maze.start.None? {
      return None;
    }
    var complete, depth := FindLoop(maze);
    if !complete {
      return None;
    }
    result := Some((depth + 1) / 2);
  }
}
