/**
 * Haunted wasteland, single walk (day08/part1.py). A network of named
 * nodes, each with a left and a right exit, is walked from AAA following
 * an L/R instruction string over and over, until node ZZZ is reached; the
 * answer is the number of moves.
 */
module Day08Network {
  import opened Common

  /** A node of the network and the names of its two exits. */
  datatype Node = Node(name: string, leftExit: string, rightExit: string)

  // ---------------------------------------------------------------------
  // The nodes dict, kept as its values in insertion order
  // ---------------------------------------------------------------------

  /** No two entries share a name. */
  predicate DistinctNames(nodes: seq<Node>)
  {
    forall i, j :: 0 <= i < j < |nodes| ==> nodes[i].name != nodes[j].name
  }

  /** nodes[name]: the entry with that name, None where the source raises KeyError. */
  function Lookup(nodes: seq<Node>, name: string): (r: Option<Node>)
    ensures r.Some? ==> r.value in nodes && r.value.name == name
    ensures r.None? ==> forall i :: 0 <= i < |nodes| ==> nodes[i].name != name
  {
    if |nodes| == 0 then None
    else if nodes[0].name == name then Some(nodes[0])
    else Lookup(nodes[1..], name)
  }

  /** nodes[node.name] = node: replace the entry of that name in place, or append one. */
  function Insert(nodes: seq<Node>, node: Node): seq<Node>
  {
    if |nodes| == 0 then [node]
    else if nodes[0].name == node.name then [node] + nodes[1..]
    else [nodes[0]] + Insert(nodes[1..], node)
  }

  /** Inserting keeps names distinct, makes the name find the new node and leaves other names alone. */
  lemma {:induction false} InsertMeans(nodes: seq<Node>, node: Node)
    requires DistinctNames(nodes)
    ensures DistinctNames(Insert(nodes, node))
    ensures Lookup(Insert(nodes, node), node.name) == Some(node)
    ensures forall name :: name != node.name ==> Lookup(Insert(nodes, node), name) == Lookup(nodes, name)
    ensures forall i :: 0 <= i < |Insert(nodes, node)| ==>
      Insert(nodes, node)[i] == node || Insert(nodes, node)[i] in nodes
  {
    InsertDistinct(nodes, node);
    InsertFinds(nodes, node);
    forall name | name != node.name
      ensures Lookup(Insert(nodes, node), name) == Lookup(nodes, name)
    {
      InsertOthers(nodes, node, name);
    }
    InsertFrom(nodes, node);
  }

  lemma DistinctTail(nodes: seq<Node>)
    requires |nodes| > 0 && DistinctNames(nodes)
    ensures DistinctNames(nodes[1..])
  {
    var rest := nodes[1..];
    forall i, j | 0 <= i < j < |rest|
      ensures rest[i].name != rest[j].name
    {
      assert rest[i] == nodes[i + 1] && rest[j] == nodes[j + 1];
    }
  }

  lemma {:induction false} InsertFrom(nodes: seq<Node>, node: Node)
    ensures forall i :: 0 <= i < |Insert(nodes, node)| ==>
      Insert(nodes, node)[i] == node || Insert(nodes, node)[i] in nodes
    decreases |nodes|
  {
    if |nodes| > 0 && nodes[0].name != node.name {
      var rest := nodes[1..];
      InsertFrom(rest, node);
      var r, q := Insert(nodes, node), Insert(rest, node);
      assert r == [nodes[0]] + q;
      forall i | 0 < i < |r|
        ensures r[i] == node || r[i] in nodes
      {
        assert r[i] == q[i - 1];
        if r[i] != node {
          var k :| 0 <= k < |rest| && rest[k] == r[i];
          assert nodes[k + 1] == r[i];
        }
      }
    }
  }

  lemma {:induction false} InsertFinds(nodes: seq<Node>, node: Node)
    ensures Lookup(Insert(nodes, node), node.name) == Some(node)
    decreases |nodes|
  {
    if |nodes| > 0 && nodes[0].name != node.name {
      InsertFinds(nodes[1..], node);
      assert Insert(nodes, node) == [nodes[0]] + Insert(nodes[1..], node);
      assert ([nodes[0]] + Insert(nodes[1..], node))[1..] == Insert(nodes[1..], node);
    }
  }

  lemma {:induction false} InsertOthers(nodes: seq<Node>, node: Node, name: string)
    requires name != node.name
    ensures Lookup(Insert(nodes, node), name) == Lookup(nodes, name)
    decreases |nodes|
  {
    if |nodes| > 0 {
      if nodes[0].name == node.name {
        assert ([node] + nodes[1..])[1..] == nodes[1..];
      } else {
        InsertOthers(nodes[1..], node, name);
        assert ([nodes[0]] + Insert(nodes[1..], node))[1..] == Insert(nodes[1..], node);
      }
    }
  }

  lemma {:induction false} InsertDistinct(nodes: seq<Node>, node: Node)
    requires DistinctNames(nodes)
    ensures DistinctNames(Insert(nodes, node))
    decreases |nodes|
  {
    if |nodes| > 0 {
      var rest := nodes[1..];
      DistinctTail(nodes);
      if nodes[0].name == node.name {
        var r := [node] + rest;
        forall i, j | 0 <= i < j < |r| ensures r[i].name != r[j].name {
          assert r[j] == nodes[j];
          if i > 0 {
            assert r[i] == nodes[i];
          }
        }
      } else {
        InsertDistinct(rest, node);
        InsertFrom(rest, node);
        var r, q := Insert(nodes, node), Insert(rest, node);
        assert r == [nodes[0]] + q;
        forall i, j | 0 <= i < j < |r| ensures r[i].name != r[j].name {
          assert r[j] == q[j - 1];
          if i > 0 {
            assert r[i] == q[i - 1];
          } else if r[j] != node {
            var k :| 0 <= k < |rest| && rest[k] == r[j];
            assert nodes[k + 1] == r[j];
          }
        }
      }
    }
  }

  /** The last of the parsed nodes with that name. */
  function LastNamed(parsed: seq<Node>, name: string): Option<Node>
  {
    if |parsed| == 0 then None
    else if parsed[|parsed| - 1].name == name then Some(parsed[|parsed| - 1])
    else LastNamed(parsed[..|parsed| - 1], name)
  }

  /** The nodes dict after inserting the parsed nodes in order. */
  function Build(parsed: seq<Node>): seq<Node>
  {
    if |parsed| == 0 then [] else Insert(Build(parsed[..|parsed| - 1]), parsed[|parsed| - 1])
  }

  /** In the dict built from the parsed nodes, every name finds the last node parsed with it. */
  lemma {:induction false} BuildMeans(parsed: seq<Node>)
    ensures DistinctNames(Build(parsed))
    ensures forall name :: Lookup(Build(parsed), name) == LastNamed(parsed, name)
  {
    if |parsed| > 0 {
      BuildMeans(parsed[..|parsed| - 1]);
      InsertMeans(Build(parsed[..|parsed| - 1]), parsed[|parsed| - 1]);
    }
  }

  // ---------------------------------------------------------------------
  // The walk
  // ---------------------------------------------------------------------

  /** Why a walk gives no answer: a missing node, an instruction other than L or R, or running out of fuel. */
  datatype WalkError = MissingNode | BadDirection | OutOfFuel

  /** One move: L takes the left exit, R the right exit, anything else raises. */
  function Next(nodes: seq<Node>, node: Node, direction: char): (r: Result<Node, WalkError>)
    ensures direction == 'L' ==> (r.Ok? <==> Lookup(nodes, node.leftExit).Some?)
    ensures direction == 'L' && r.Ok? ==> r.value == Lookup(nodes, node.leftExit).value
    ensures direction == 'R' ==> (r.Ok? <==> Lookup(nodes, node.rightExit).Some?)
    ensures direction == 'R' && r.Ok? ==> r.value == Lookup(nodes, node.rightExit).value
    ensures direction != 'L' && direction != 'R' ==> r == Err(BadDirection)
    ensures r.Err? ==> (r.error == MissingNode || r.error == BadDirection)
  {
    if direction == 'L' then
      match Lookup(nodes, node.leftExit)
      case None => Err(MissingNode)
      case Some(n) => Ok(n)
    else if direction == 'R' then
      match Lookup(nodes, node.rightExit)
      case None => Err(MissingNode)
      case Some(n) => Ok(n)
    else Err(BadDirection)
  }

  /** Where in the instructions move k falls: k reduced modulo n by repeated subtraction. */
  function Phase(n: nat, k: nat): (p: nat)
    requires n > 0
    ensures p < n
    decreases k
  {
    if k < n then k else Phase(n, k - n)
  }

  /** The phase advances by one with every move and wraps to 0 after the last instruction. */
  lemma {:induction false} PhaseNext(n: nat, k: nat)
    requires n > 0
    ensures Phase(n, k + 1) == if Phase(n, k) == n - 1 then 0 else Phase(n, k) + 1
    decreases k
  {
    if k >= n {
      PhaseNext(n, k - n);
    }
  }

  /** The instruction of move k, the instructions repeated without end. */
  function Cycle(instructions: string, k: nat): char
    requires |instructions| > 0
  {
    instructions[Phase(|instructions|, k)]
  }

  /** The node after k moves from start, the instructions applied cyclically; none are made when there are none. */
  function After(nodes: seq<Node>, instructions: string, start: Node, k: nat): Result<Node, WalkError>
  {
    if k == 0 || |instructions| == 0 then Ok(start)
    else
      match After(nodes, instructions, start, k - 1)
      case Err(e) => Err(e)
      case Ok(node) => Next(nodes, node, Cycle(instructions, k - 1))
  }

  /** The walk from node at move k on: the first move count, up to limit, at which it stands on goal. */
  function Scan(nodes: seq<Node>, instructions: string, node: Node, goal: string, k: nat, limit: nat)
    : Result<nat, WalkError>
    requires |instructions| > 0 || k >= limit
    decreases limit - k
  {
    if node.name == goal then Ok(k)
    else if k >= limit then Err(OutOfFuel)
    else
      match Next(nodes, node, Cycle(instructions, k))
      case Err(e) => Err(e)
      case Ok(next) => Scan(nodes, instructions, next, goal, k + 1, limit)
  }

  /** The outcome of run with at most fuel passes over the instructions. */
  function Outcome(nodes: seq<Node>, instructions: string, fuel: nat): Result<nat, WalkError>
  {
    match Lookup(nodes, "AAA")
    case None => Err(MissingNode)
    case Some(start) => Scan(nodes, instructions, start, "ZZZ", 0, fuel * |instructions|)
  }

  /** Each of the first n moves succeeds and none stands on goal. */
  ghost predicate OffGoal(nodes: seq<Node>, instructions: string, start: Node, goal: string, n: nat)
  {
    forall j :: 0 <= j < n ==>
      After(nodes, instructions, start, j).Ok? && After(nodes, instructions, start, j).value.name != goal
  }

  /** A scan from move k stopping at n means the walk stands on goal at move n and not before. */
  lemma {:induction false} ScanFinds(nodes: seq<Node>, instructions: string, start: Node, goal: string,
                                     k: nat, limit: nat)
    requires |instructions| > 0 || k >= limit
    requires After(nodes, instructions, start, k).Ok? && OffGoal(nodes, instructions, start, goal, k)
    requires Scan(nodes, instructions, After(nodes, instructions, start, k).value, goal, k, limit).Ok?
    ensures var n := Scan(nodes, instructions, After(nodes, instructions, start, k).value, goal, k, limit).value;
      k <= n && (n == k || n <= limit) &&
      After(nodes, instructions, start, n).Ok? && After(nodes, instructions, start, n).value.name == goal &&
      OffGoal(nodes, instructions, start, goal, n)
    decreases limit - k
  {
    var node := After(nodes, instructions, start, k).value;
    if node.name != goal {
      assert After(nodes, instructions, start, k + 1) == Next(nodes, node, Cycle(instructions, k));
      ScanFinds(nodes, instructions, start, goal, k + 1, limit);
    }
  }

  /** A scan from move k running out of fuel means no move up to limit stands on goal. */
  lemma {:induction false} ScanExhausts(nodes: seq<Node>, instructions: string, start: Node, goal: string,
                                        k: nat, limit: nat)
    requires |instructions| > 0 || k >= limit
    requires After(nodes, instructions, start, k).Ok? && OffGoal(nodes, instructions, start, goal, k)
    requires Scan(nodes, instructions, After(nodes, instructions, start, k).value, goal, k, limit) == Err(OutOfFuel)
    ensures k <= limit ==> OffGoal(nodes, instructions, start, goal, limit + 1)
    decreases limit - k
  {
    var node := After(nodes, instructions, start, k).value;
    if k < limit {
      assert After(nodes, instructions, start, k + 1) == Next(nodes, node, Cycle(instructions, k));
      ScanExhausts(nodes, instructions, start, goal, k + 1, limit);
    }
  }

  /** A scan from move k failing means some later move within limit fails that way, all moves before it off goal. */
  lemma {:induction false} ScanFails(nodes: seq<Node>, instructions: string, start: Node, goal: string,
                                     k: nat, limit: nat)
    requires |instructions| > 0 || k >= limit
    requires After(nodes, instructions, start, k).Ok? && OffGoal(nodes, instructions, start, goal, k)
    requires var r := Scan(nodes, instructions, After(nodes, instructions, start, k).value, goal, k, limit);
      r.Err? && r.error != OutOfFuel
    ensures var r := Scan(nodes, instructions, After(nodes, instructions, start, k).value, goal, k, limit);
      exists j :: k < j <= limit && After(nodes, instructions, start, j) == Err(r.error) &&
        OffGoal(nodes, instructions, start, goal, j)
    decreases limit - k
  {
    var node := After(nodes, instructions, start, k).value;
    var next := Next(nodes, node, Cycle(instructions, k));
    assert After(nodes, instructions, start, k + 1) == next;
    if next.Ok? {
      ScanFails(nodes, instructions, start, goal, k + 1, limit);
    }
  }

  /**
   * A result of n moves means the walk from AAA stands on ZZZ after n
   * moves and on no earlier count, within fuel passes; running out of fuel
   * means no move up to fuel passes stands on ZZZ; a bad instruction, or a
   * missing exit node once AAA exists, is the error of some move within fuel
   * passes, every move before it off ZZZ.
   */
  lemma OutcomeMeans(nodes: seq<Node>, instructions: string, fuel: nat)
    ensures Outcome(nodes, instructions, fuel) != Err(MissingNode) ==> Lookup(nodes, "AAA").Some?
    ensures Outcome(nodes, instructions, fuel).Ok? ==>
      var start := Lookup(nodes, "AAA").value;
      var n := Outcome(nodes, instructions, fuel).value;
      n <= fuel * |instructions| &&
      After(nodes, instructions, start, n).Ok? && After(nodes, instructions, start, n).value.name == "ZZZ" &&
      OffGoal(nodes, instructions, start, "ZZZ", n)
    ensures Outcome(nodes, instructions, fuel) == Err(OutOfFuel) ==>
      OffGoal(nodes, instructions, Lookup(nodes, "AAA").value, "ZZZ", fuel * |instructions| + 1)
    ensures Outcome(nodes, instructions, fuel) == Err(BadDirection) ==>
      exists j :: 0 < j <= fuel * |instructions| &&
        After(nodes, instructions, Lookup(nodes, "AAA").value, j) == Err(BadDirection) &&
        OffGoal(nodes, instructions, Lookup(nodes, "AAA").value, "ZZZ", j)
    ensures Outcome(nodes, instructions, fuel) == Err(MissingNode) && Lookup(nodes, "AAA").Some? ==>
      exists j :: 0 < j <= fuel * |instructions| &&
        After(nodes, instructions, Lookup(nodes, "AAA").value, j) == Err(MissingNode) &&
        OffGoal(nodes, instructions, Lookup(nodes, "AAA").value, "ZZZ", j)
  {
    match Lookup(nodes, "AAA")
    case None =>
    case Some(start) =>
      var r := Outcome(nodes, instructions, fuel);
      if r.Ok? {
        ScanFinds(nodes, instructions, start, "ZZZ", 0, fuel * |instructions|);
      } else if r == Err(OutOfFuel) {
        ScanExhausts(nodes, instructions, start, "ZZZ", 0, fuel * |instructions|);
      } else {
        ScanFails(nodes, instructions, start, "ZZZ", 0, fuel * |instructions|);
      }
  }

  /** Off goal and within the limit, a scan makes the next move. */
  lemma ScanMove(nodes: seq<Node>, instructions: string, node: Node, goal: string, k: nat, limit: nat)
    requires |instructions| > 0 && node.name != goal && k < limit
    ensures var next := Next(nodes, node, Cycle(instructions, k));
      Scan(nodes, instructions, node, goal, k, limit) ==
        if next.Err? then Err(next.error) else Scan(nodes, instructions, next.value, goal, k + 1, limit)
  {
  }

  /** One more pass of n moves moves the limit by n, and stays within fuel passes. */
  lemma PassBound(passes: nat, fuel: nat, n: nat)
    requires passes < fuel
    ensures (passes + 1) * n == passes * n + n
    ensures passes * n + n <= fuel * n
  {
    MulSucc(passes, n);
    MulMonotone(passes + 1, fuel, n);
  }

  lemma MulSucc(a: nat, n: nat)
    ensures (a + 1) * n == a * n + n
  {
  }

  lemma {:induction false} MulMonotone(a: nat, b: nat, n: nat)
    requires a <= b
    ensures a * n <= b * n
    decreases b - a
  {
    if a < b {
      MulMonotone(a + 1, b, n);
      MulSucc(a, n);
    }
  }

  /**
   * The walk of run: from AAA, pass over the instructions until ZZZ is
   * reached, stopping mid-string as soon as it is, counting every move.
   * At most fuel passes are made.
   */
  method Run(nodes: seq<Node>, instructions: string, fuel: nat) returns (result: Result<nat, WalkError>)
    ensures result == Outcome(nodes, instructions, fuel)
  {
    var start := Lookup(nodes, "AAA");
    if start.None? {
      return Err(MissingNode);
    }
    ghost var limit := fuel * |instructions|;
    var current := start.value;
    var steps := 0;
    var passes := 0;
    while current.name != "ZZZ"
      invariant 0 <= passes <= fuel && steps == passes * |instructions|
      invariant |instructions| > 0 ==> Phase(|instructions|, steps) == 0
      invariant Scan(nodes, instructions, current, "ZZZ", steps, limit) == Outcome(nodes, instructions, fuel)
      decreases fuel - passes
    {
      if passes == fuel {
        return Err(OutOfFuel);
      }
      PassBound(passes, fuel, |instructions|);
      ghost var base := steps;
      var j := 0;
      while j < |instructions|
        invariant 0 <= j <= |instructions| && steps == base + j && base + |instructions| <= limit
        invariant j < |instructions| ==> Phase(|instructions|, steps) == j
        invariant 0 < j == |instructions| ==> Phase(|instructions|, steps) == 0
        invariant Scan(nodes, instructions, current, "ZZZ", steps, limit) == Outcome(nodes, instructions, fuel)
        invariant current.name != "ZZZ"
      {
        var direction := instructions[j];
        PhaseNext(|instructions|, steps);
        assert direction == Cycle(instructions, steps);
        var next := Next(nodes, current, direction);
        ScanMove(nodes, instructions, current, "ZZZ", steps, limit);
        if next.Err? {
          return Err(next.error);
        }
        current := next.value;
        steps := steps + 1;
        if current.name == "ZZZ" {
          return Ok(steps);
        }
        j := j + 1;
      }
      passes := passes + 1;
    }
    return Ok(steps);
  }
}
