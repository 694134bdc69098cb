/**
 * Haunted wasteland, ghost walk (day08/part2.py). Every node whose name
 * ends in A starts an instance; all instances follow the instructions in
 * lockstep, an instance that has reached a node ending in Z stays there,
 * and each instance counts its own moves. Once all stand on Z nodes the
 * answer is the least common multiple of the counts.
 */
module Day08Ghosts {
  import opened Common
  import opened Day08Network

  // ---------------------------------------------------------------------
  // Divisibility and the least common multiple (math.lcm)
  // ---------------------------------------------------------------------

  /** Whether d divides n, by repeated subtraction; 0 divides only 0. */
  predicate Divides(d: nat, n: nat)
    decreases n
  {
    if n == 0 then true else if d == 0 || n < d then false else Divides(d, n - d)
  }

  lemma {:induction false} DividesAdd(d: nat, x: nat, y: nat)
    requires Divides(d, x) && Divides(d, y)
    ensures Divides(d, x + y)
    decreases x
  {
    if x > 0 {
      DividesAdd(d, x - d, y);
      assert x + y - d == (x - d) + y;
    }
  }

  lemma {:induction false} DividesSub(d: nat, x: nat, y: nat)
    requires Divides(d, x) && Divides(d, y) && y <= x
    ensures Divides(d, x - y)
    decreases y
  {
    if y > 0 {
      DividesSub(d, x - d, y - d);
      assert (x - d) - (y - d) == x - y;
    }
  }

  /** a divides a * b. */
  lemma {:induction false} DividesProduct(a: nat, b: nat)
    ensures Divides(a, a * b)
    decreases b
  {
    if b > 0 {
      DividesProduct(a, b - 1);
      assert a * b == a * (b - 1) + a;
      assert Divides(a, a) by {
        assert a - a == 0;
      }
      DividesAdd(a, a * (b - 1), a);
    }
  }

  /** Two distinct multiples of a lie at least a apart. */
  lemma Spacing(a: nat, m: nat, n: nat)
    requires Divides(a, m) && Divides(a, n) && m < n
    ensures m + a <= n
  {
    DividesSub(a, n, m);
  }

  /** The first multiple of a, from m up to a * b, that b divides. */
  function LcmFrom(a: nat, b: nat, m: nat): (r: nat)
    requires a > 0 && b > 0 && Divides(a, m) && 0 < m <= a * b
    ensures Divides(a, r) && Divides(b, r) && m <= r <= a * b
    decreases a * b - m
  {
    DividesProduct(b, a);
    assert b * a == a * b;
    if Divides(b, m) then m
    else
      DividesProduct(a, b);
      Spacing(a, m, a * b);
      assert Divides(a, a) by {
        assert a - a == 0;
      }
      DividesAdd(a, m, a);
      LcmFrom(a, b, m + a)
  }

  /** lcm of two counts: the least positive common multiple, 0 when either is 0. */
  function Lcm(a: nat, b: nat): nat
  {
    if a == 0 || b == 0 then 0
    else
      DividesProduct(a, b);
      assert a <= a * b;
      assert Divides(a, a) by {
        assert a - a == 0;
      }
      LcmFrom(a, b, a)
  }

  /** The search from m skips no common multiple. */
  lemma {:induction false} LcmFromLeast(a: nat, b: nat, m: nat, c: nat)
    requires a > 0 && b > 0 && Divides(a, m) && 0 < m <= a * b
    requires forall x :: 0 < x < m && Divides(a, x) ==> !Divides(b, x)
    requires 0 < c && Divides(a, c) && Divides(b, c)
    ensures LcmFrom(a, b, m) <= c
    decreases a * b - m
  {
    DividesProduct(b, a);
    assert b * a == a * b;
    if !Divides(b, m) {
      DividesProduct(a, b);
      Spacing(a, m, a * b);
      assert Divides(a, a) by {
        assert a - a == 0;
      }
      DividesAdd(a, m, a);
      forall x | 0 < x < m + a && Divides(a, x)
        ensures !Divides(b, x)
      {
        if m < x {
          Spacing(a, m, x);
        }
      }
      LcmFromLeast(a, b, m + a, c);
    }
  }

  /** Subtracting l from a common multiple c until it drops below l leaves 0: l divides c. */
  lemma {:induction false} LeastDivides(a: nat, b: nat, l: nat, c: nat)
    requires l > 0 && Divides(a, l) && Divides(b, l)
    requires forall x :: 0 < x < l && Divides(a, x) ==> !Divides(b, x)
    requires Divides(a, c) && Divides(b, c)
    ensures Divides(l, c)
    decreases c
  {
    if c >= l {
      DividesSub(a, c, l);
      DividesSub(b, c, l);
      LeastDivides(a, b, l, c - l);
    }
  }

  /**
   * For positive a and b, Lcm(a, b) is a positive common multiple of both,
   * no smaller positive number is one, and it divides every common multiple.
   */
  lemma LcmMeans(a: nat, b: nat)
    requires a > 0 && b > 0
    ensures Lcm(a, b) > 0 && Divides(a, Lcm(a, b)) && Divides(b, Lcm(a, b))
    ensures forall c :: 0 < c < Lcm(a, b) ==> !(Divides(a, c) && Divides(b, c))
    ensures forall c :: Divides(a, c) && Divides(b, c) ==> Divides(Lcm(a, b), c)
  {
    DividesProduct(a, b);
    assert Divides(a, a) by {
      assert a - a == 0;
    }
    forall c | 0 < c && Divides(a, c) && Divides(b, c)
      ensures Lcm(a, b) <= c
    {
      assert forall x :: 0 < x < a ==> !Divides(a, x);
      LcmFromLeast(a, b, a, c);
    }
    forall c | Divides(a, c) && Divides(b, c)
      ensures Divides(Lcm(a, b), c)
    {
      LeastDivides(a, b, Lcm(a, b), c);
    }
  }

  /** math.lcm(*counts): folded from the left, 1 for no counts. */
  function LcmAll(counts: seq<nat>): nat
  {
    if |counts| == 0 then 1 else Lcm(LcmAll(counts[..|counts| - 1]), counts[|counts| - 1])
  }

  /**
   * With every count positive, LcmAll is positive, every count divides it,
   * and it divides every common multiple of the counts, so no smaller
   * positive number is a common multiple; a zero count makes it 0.
   */
  lemma {:induction false} LcmAllMeans(counts: seq<nat>)
    ensures (forall i :: 0 <= i < |counts| ==> counts[i] > 0) ==>
      LcmAll(counts) > 0 &&
      (forall i :: 0 <= i < |counts| ==> Divides(counts[i], LcmAll(counts))) &&
      (forall c :: (forall i :: 0 <= i < |counts| ==> Divides(counts[i], c)) ==> Divides(LcmAll(counts), c))
    ensures (exists i :: 0 <= i < |counts| && counts[i] == 0) ==> LcmAll(counts) == 0
  {
    if |counts| == 0 {
      forall c: nat
        ensures Divides(1, c)
      {
        OneDivides(c);
      }
    } else {
      var prefix := counts[..|counts| - 1];
      var last := counts[|counts| - 1];
      LcmAllMeans(prefix);
      if forall i :: 0 <= i < |counts| ==> counts[i] > 0 {
        assert forall i :: 0 <= i < |prefix| ==> prefix[i] == counts[i];
        assert forall i :: 0 <= i < |prefix| ==> prefix[i] > 0;
        LcmMeans(LcmAll(prefix), last);
        forall i | 0 <= i < |counts|
          ensures Divides(counts[i], LcmAll(counts))
        {
          if i < |prefix| {
            assert prefix[i] == counts[i];
            DividesTransitive(counts[i], LcmAll(prefix), LcmAll(counts));
          }
        }
        assert LcmAll(counts) == Lcm(LcmAll(prefix), last);
        forall c | forall i :: 0 <= i < |counts| ==> Divides(counts[i], c)
          ensures Divides(LcmAll(counts), c)
        {
          assert forall i :: 0 <= i < |prefix| ==> Divides(prefix[i], c);
          assert Divides(LcmAll(prefix), c);
          assert Divides(last, c);
        }
      } else {
        var i :| 0 <= i < |counts| && counts[i] == 0;
        if i < |prefix| {
          assert prefix[i] == 0;
        }
      }
    }
  }

  lemma {:induction false} OneDivides(c: nat)
    ensures Divides(1, c)
  {
    if c > 0 {
      OneDivides(c - 1);
    }
  }

  lemma {:induction false} DividesTransitive(a: nat, b: nat, c: nat)
    requires Divides(a, b) && Divides(b, c)
    ensures Divides(a, c)
    decreases c
  {
    if c > 0 {
      DividesTransitive(a, b, c - b);
      DividesAdd(a, c - b, b);
      assert c - b + b == c;
    }
  }

  // ---------------------------------------------------------------------
  // Instances
  // ---------------------------------------------------------------------

  /** is_start: the name ends in A. */
  predicate IsStart(node: Node)
  {
    |node.name| > 0 && node.name[|node.name| - 1] == 'A'
  }

  /** is_end: the name ends in Z. */
  predicate IsEnd(node: Node)
  {
    |node.name| > 0 && node.name[|node.name| - 1] == 'Z'
  }

  /** The start nodes, in the order of the dict. */
  function Starts(nodes: seq<Node>): seq<Node>
  {
    if |nodes| == 0 then []
    else if IsStart(nodes[0]) then [nodes[0]] + Starts(nodes[1..])
    else Starts(nodes[1..])
  }

  /** The instances are exactly the start nodes of the dict. */
  lemma {:induction false} StartsMeans(nodes: seq<Node>)
    ensures forall n :: n in Starts(nodes) <==> n in nodes && IsStart(n)
  {
    if |nodes| > 0 {
      StartsMeans(nodes[1..]);
      assert nodes == [nodes[0]] + nodes[1..];
    }
  }

  predicate AllEnd(instances: seq<Node>)
  {
    forall i :: 0 <= i < |instances| ==> IsEnd(instances[i])
  }

  /** The move of one instance: one on an end node stays, any other takes its exit. */
  function Follow(nodes: seq<Node>, node: Node, direction: char): (r: Result<Node, WalkError>)
    ensures IsEnd(node) ==> r == Ok(node)
    ensures !IsEnd(node) ==> r == Next(nodes, node, direction)
  {
    if IsEnd(node) then Ok(node) else Next(nodes, node, direction)
  }

  /** The list next_nodes becomes: every instance's move, the first failing one failing it all. */
  function AdvanceAll(nodes: seq<Node>, instances: seq<Node>, direction: char): (r: Result<seq<Node>, WalkError>)
    ensures r.Ok? ==> |r.value| == |instances|
  {
    if |instances| == 0 then Ok([])
    else
      match Follow(nodes, instances[0], direction)
      case Err(e) => Err(e)
      case Ok(n) =>
        match AdvanceAll(nodes, instances[1..], direction)
        case Err(e) => Err(e)
        case Ok(rest) => Ok([n] + rest)
  }

  /**
   * Advancing succeeds exactly when every instance's move does, and then
   * holds those moves in order; a failure is the failure of some move.
   */
  lemma {:induction false} AdvanceAllMeans(nodes: seq<Node>, instances: seq<Node>, direction: char)
    ensures var r := AdvanceAll(nodes, instances, direction);
      (r.Ok? ==>
        (|r.value| == |instances| &&
         forall i :: 0 <= i < |instances| ==> Follow(nodes, instances[i], direction) == Ok(r.value[i]))) &&
      (r.Err? ==> exists i :: 0 <= i < |instances| && Follow(nodes, instances[i], direction) == Err(r.error)) &&
      ((forall i :: 0 <= i < |instances| ==> Follow(nodes, instances[i], direction).Ok?) ==> r.Ok?)
  {
    if |instances| > 0 {
      var rest := instances[1..];
      AdvanceAllMeans(nodes, rest, direction);
      assert forall i :: 0 < i < |instances| ==> instances[i] == rest[i - 1];
      assert forall i :: 0 <= i < |rest| ==> rest[i] == instances[i + 1];
    }
  }

  /** New steps counts: every instance not yet on an end node counts one more move. */
  function Bump(instances: seq<Node>, counts: seq<nat>): (r: seq<nat>)
    requires |counts| == |instances|
    ensures |r| == |counts|
    ensures forall i :: 0 <= i < |r| ==> r[i] == if IsEnd(instances[i]) then counts[i] else counts[i] + 1
  {
    seq(|counts|, i requires 0 <= i < |counts| => if IsEnd(instances[i]) then counts[i] else counts[i] + 1)
  }

  /** The lockstep walk from move k on: the counts once all instances stand on end nodes, within limit moves. */
  function GhostScan(nodes: seq<Node>, instructions: string, instances: seq<Node>, counts: seq<nat>,
                     k: nat, limit: nat): Result<seq<nat>, WalkError>
    requires |counts| == |instances|
    requires |instructions| > 0 || k >= limit
    decreases limit - k
  {
    if AllEnd(instances) then Ok(counts)
    else if k >= limit then Err(OutOfFuel)
    else
      match AdvanceAll(nodes, instances, Cycle(instructions, k))
      case Err(e) => Err(e)
      case Ok(next) => GhostScan(nodes, instructions, next, Bump(instances, counts), k + 1, limit)
  }

  /** Off the end nodes and within the limit, the lockstep scan makes the next move. */
  lemma GhostScanMove(nodes: seq<Node>, instructions: string, instances: seq<Node>, counts: seq<nat>,
                      k: nat, limit: nat)
    requires |counts| == |instances| && |instructions| > 0
    requires !AllEnd(instances) && k < limit
    ensures var next := AdvanceAll(nodes, instances, Cycle(instructions, k));
      GhostScan(nodes, instructions, instances, counts, k, limit) ==
        if next.Err? then Err(next.error)
        else GhostScan(nodes, instructions, next.value, Bump(instances, counts), k + 1, limit)
  {
  }

  function Zeros(n: nat): (r: seq<nat>)
    ensures |r| == n && forall i :: 0 <= i < n ==> r[i] == 0
  {
    seq(n, _ => 0)
  }

  /** The outcome of run with at most fuel passes over the instructions. */
  function Outcome(nodes: seq<Node>, instructions: string, fuel: nat): Result<nat, WalkError>
  {
    var starts := Starts(nodes);
    match GhostScan(nodes, instructions, starts, Zeros(|starts|), 0, fuel * |instructions|)
    case Err(e) => Err(e)
    case Ok(counts) => Ok(LcmAll(counts))
  }

  // ---------------------------------------------------------------------
  // The lockstep walk is each instance's own walk
  // ---------------------------------------------------------------------

  /** Each of the first n moves of the walk from start succeeds and none stands on an end node. */
  ghost predicate OffEnd(nodes: seq<Node>, instructions: string, start: Node, n: nat)
  {
    forall m :: 0 <= m < n ==>
      After(nodes, instructions, start, m).Ok? && !IsEnd(After(nodes, instructions, start, m).value)
  }

  /**
   * After k lockstep moves, instance i stands where its own walk from
   * starts[i] is after counts[i] moves, has met no end node before, and
   * has stopped counting only on an end node.
   */
  ghost predicate Tracks(nodes: seq<Node>, instructions: string, starts: seq<Node>, instances: seq<Node>,
                         counts: seq<nat>, k: nat)
  {
    |starts| == |instances| == |counts| &&
    forall i :: 0 <= i < |starts| ==> TracksOne(nodes, instructions, starts[i], instances[i], counts[i], k)
  }

  /** The same for one instance standing on node after counting count of k lockstep moves. */
  ghost predicate TracksOne(nodes: seq<Node>, instructions: string, start: Node, node: Node, count: nat, k: nat)
  {
    count <= k &&
    After(nodes, instructions, start, count) == Ok(node) &&
    OffEnd(nodes, instructions, start, count) &&
    (count < k ==> IsEnd(node))
  }

  lemma TracksOneStep(nodes: seq<Node>, instructions: string, start: Node, node: Node, count: nat, k: nat,
                      next: Node)
    requires |instructions| > 0
    requires TracksOne(nodes, instructions, start, node, count, k)
    requires Follow(nodes, node, Cycle(instructions, k)) == Ok(next)
    ensures TracksOne(nodes, instructions, start, next, if IsEnd(node) then count else count + 1, k + 1)
  {
    if !IsEnd(node) {
      assert After(nodes, instructions, start, k + 1) == Next(nodes, node, Cycle(instructions, k));
    }
  }

  lemma TracksStep(nodes: seq<Node>, instructions: string, starts: seq<Node>, instances: seq<Node>,
                   counts: seq<nat>, k: nat, next: seq<Node>)
    requires |instructions| > 0
    requires Tracks(nodes, instructions, starts, instances, counts, k)
    requires AdvanceAll(nodes, instances, Cycle(instructions, k)) == Ok(next)
    ensures Tracks(nodes, instructions, starts, next, Bump(instances, counts), k + 1)
  {
    AdvanceAllMeans(nodes, instances, Cycle(instructions, k));
    var bumped := Bump(instances, counts);
    forall i | 0 <= i < |starts|
      ensures TracksOne(nodes, instructions, starts[i], next[i], bumped[i], k + 1)
    {
      TracksOneStep(nodes, instructions, starts[i], instances[i], counts[i], k, next[i]);
    }
  }

  /** Once every instance stands on an end node, counts[i] is the first arrival of the walk from starts[i]. */
  lemma {:induction false} GhostScanMeans(nodes: seq<Node>, instructions: string, starts: seq<Node>,
                                          instances: seq<Node>, counts: seq<nat>, k: nat, limit: nat)
    requires |counts| == |instances|
    requires |instructions| > 0 || k >= limit
    requires Tracks(nodes, instructions, starts, instances, counts, k)
    requires GhostScan(nodes, instructions, instances, counts, k, limit).Ok?
    ensures var r := GhostScan(nodes, instructions, instances, counts, k, limit).value;
      |r| == |starts| &&
      forall i :: 0 <= i < |starts| ==>
        r[i] <= Max(k, limit) &&
        After(nodes, instructions, starts[i], r[i]).Ok? && IsEnd(After(nodes, instructions, starts[i], r[i]).value) &&
        OffEnd(nodes, instructions, starts[i], r[i])
    decreases limit - k
  {
    if !AllEnd(instances) {
      AdvanceAllMeans(nodes, instances, Cycle(instructions, k));
      var next := AdvanceAll(nodes, instances, Cycle(instructions, k)).value;
      TracksStep(nodes, instructions, starts, instances, counts, k, next);
      GhostScanMeans(nodes, instructions, starts, next, Bump(instances, counts), k + 1, limit);
    }
  }

  /**
   * A result means every start node's own walk reaches an end node, within
   * fuel passes, after exactly the count whose lcm is the result; no start
   * nodes give 1.
   */
  lemma OutcomeMeans(nodes: seq<Node>, instructions: string, fuel: nat)
    ensures Outcome(nodes, instructions, fuel).Ok? ==>
      var starts := Starts(nodes);
      exists counts: seq<nat> ::
        (|counts| == |starts| && Outcome(nodes, instructions, fuel) == Ok(LcmAll(counts)) &&
         forall i :: 0 <= i < |starts| ==>
           counts[i] <= fuel * |instructions| &&
           After(nodes, instructions, starts[i], counts[i]).Ok? &&
           IsEnd(After(nodes, instructions, starts[i], counts[i]).value) &&
           OffEnd(nodes, instructions, starts[i], counts[i]))
    ensures Starts(nodes) == [] ==> Outcome(nodes, instructions, fuel) == Ok(1)
  {
    var starts := Starts(nodes);
    var limit := fuel * |instructions|;
    var scan := GhostScan(nodes, instructions, starts, Zeros(|starts|), 0, limit);
    if scan.Ok? {
      GhostScanMeans(nodes, instructions, starts, starts, Zeros(|starts|), 0, limit);
      assert |scan.value| == |starts|;
      assert Outcome(nodes, instructions, fuel) == Ok(LcmAll(scan.value));
    }
  }

  // ---------------------------------------------------------------------
  // The loops of run
  // ---------------------------------------------------------------------

  /** The loop over instances for one direction: builds next_nodes and counts the moves in steps. */
  method AdvanceInstances(nodes: seq<Node>, instances: seq<Node>, direction: char, steps: array<nat>)
    returns (result: Result<seq<Node>, WalkError>)
    requires steps.Length == |instances|
    modifies steps
    ensures result == AdvanceAll(nodes, instances, direction)
    ensures result.Ok? ==> steps[..] == Bump(instances, old(steps[..]))
    ensures forall i :: 0 <= i < steps.Length ==>
      steps[i] == old(steps[i]) || (!IsEnd(instances[i]) && steps[i] == old(steps[i]) + 1)
  {
    ghost var before := steps[..];
    var next: seq<Node> := [];
    var i := 0;
    GlueNothing(AdvanceAll(nodes, instances, direction));
    assert instances[i..] == instances;
    while i < |instances|
      invariant 0 <= i <= |instances|
      invariant AdvanceAll(nodes, instances, direction) == Glue(next, AdvanceAll(nodes, instances[i..], direction))
      invariant forall j :: 0 <= j < i ==> steps[j] == if IsEnd(instances[j]) then before[j] else before[j] + 1
      invariant forall j :: i <= j < steps.Length ==> steps[j] == before[j]
    {
      var node := instances[i];
      GlueStep(nodes, instances, direction, i, next);
      if IsEnd(node) {
        next := next + [node];
      } else {
        var moved := Next(nodes, node, direction);
        if moved.Err? {
          return Err(moved.error);
        }
        next := next + [moved.value];
        steps[i] := steps[i] + 1;
      }
      i := i + 1;
    }
    assert instances[i..] == [];
    assert next + [] == next;
    BumpOf(instances, before, steps[..]);
    return Ok(next);
  }

  lemma BumpOf(instances: seq<Node>, before: seq<nat>, after: seq<nat>)
    requires |before| == |after| == |instances|
    requires forall j :: 0 <= j < |after| ==> after[j] == if IsEnd(instances[j]) then before[j] else before[j] + 1
    ensures after == Bump(instances, before)
  {
  }

  lemma GlueNothing(r: Result<seq<Node>, WalkError>)
    ensures Glue([], r) == r
  {
    if r.Ok? {
      assert [] + r.value == r.value;
    }
  }

  /** One more instance moved: its move joins the prefix, or its failure is the result. */
  lemma GlueStep(nodes: seq<Node>, instances: seq<Node>, direction: char, i: nat, prefix: seq<Node>)
    requires i < |instances|
    ensures var f := Follow(nodes, instances[i], direction);
      Glue(prefix, AdvanceAll(nodes, instances[i..], direction)) ==
        if f.Err? then Err(f.error)
        else Glue(prefix + [f.value], AdvanceAll(nodes, instances[i + 1..], direction))
  {
    assert instances[i..][1..] == instances[i + 1..];
    var rest := AdvanceAll(nodes, instances[i + 1..], direction);
    if rest.Ok? {
      var f := Follow(nodes, instances[i], direction);
      if f.Ok? {
        assert prefix + ([f.value] + rest.value) == (prefix + [f.value]) + rest.value;
      }
    }
  }

  /** The earlier entries of next_nodes in front of what the rest of the loop yields. */
  function Glue(prefix: seq<Node>, rest: Result<seq<Node>, WalkError>): (r: Result<seq<Node>, WalkError>)
    ensures rest.Err? ==> r == rest
    ensures rest.Ok? ==> r == Ok(prefix + rest.value)
  {
    match rest
    case Err(e) => Err(e)
    case Ok(v) => Ok(prefix + v)
  }

  /**
   * One pass of the for loop over the instructions: every direction
   * advances all instances, stopping early once all stand on end nodes.
   */
  method Pass(nodes: seq<Node>, instructions: string, instances: seq<Node>, steps: array<nat>,
              ghost moves: nat, ghost limit: nat)
    returns (result: Result<seq<Node>, WalkError>, ghost after: nat)
    requires steps.Length == |instances| && !AllEnd(instances)
    requires |instructions| > 0 ==> Phase(|instructions|, moves) == 0
    requires |instructions| > 0 || moves >= limit
    requires moves + |instructions| <= limit
    modifies steps
    ensures result.Err? ==>
      GhostScan(nodes, instructions, instances, old(steps[..]), moves, limit) == Err(result.error)
    ensures result.Ok? ==>
      steps.Length == |result.value| && (|instructions| > 0 || after >= limit) &&
      GhostScan(nodes, instructions, result.value, steps[..], after, limit) ==
        GhostScan(nodes, instructions, instances, old(steps[..]), moves, limit) &&
      (AllEnd(result.value) ||
       (after == moves + |instructions| && (|instructions| > 0 ==> Phase(|instructions|, after) == 0)))
  {
    ghost var scan := GhostScan(nodes, instructions, instances, steps[..], moves, limit);
    var current := instances;
    after := moves;
    var j := 0;
    while j < |instructions|
      invariant steps.Length == |current|
      invariant 0 <= j <= |instructions| && after == moves + j
      invariant j < |instructions| ==> Phase(|instructions|, after) == j
      invariant 0 < j == |instructions| ==> Phase(|instructions|, after) == 0
      invariant GhostScan(nodes, instructions, current, steps[..], after, limit) == scan
      invariant !AllEnd(current)
    {
      var direction := instructions[j];
      PhaseNext(|instructions|, after);
      assert direction == Cycle(instructions, after);
      GhostScanMove(nodes, instructions, current, steps[..], after, limit);
      var advanced := AdvanceInstances(nodes, current, direction, steps);
      if advanced.Err? {
        return Err(advanced.error), after;
      }
      current := advanced.value;
      after := after + 1;
      if AllEnd(current) {
        break;
      }
      j := j + 1;
    }
    return Ok(current), after;
  }

  /** The loop invariant of run: the scan from here is the scan from the start, fuel - passes passes left. */
  ghost predicate Progress(nodes: seq<Node>, instructions: string, instances: seq<Node>, counts: seq<nat>,
                           moves: nat, passes: nat, fuel: nat, scan: Result<seq<nat>, WalkError>)
  {
    |counts| == |instances| && passes <= fuel &&
    (!AllEnd(instances) ==>
      moves == passes * |instructions| && (|instructions| > 0 ==> Phase(|instructions|, moves) == 0)) &&
    (|instructions| > 0 || moves >= fuel * |instructions|) &&
    GhostScan(nodes, instructions, instances, counts, moves, fuel * |instructions|) == scan
  }

  /** A pass that neither fails nor runs out keeps the invariant with one pass fewer left. */
  lemma ProgressStep(nodes: seq<Node>, instructions: string, instances: seq<Node>, counts: seq<nat>,
                     moves: nat, passes: nat, fuel: nat, scan: Result<seq<nat>, WalkError>,
                     next: seq<Node>, nextCounts: seq<nat>, after: nat)
    requires Progress(nodes, instructions, instances, counts, moves, passes, fuel, scan)
    requires passes < fuel && !AllEnd(instances)
    requires |nextCounts| == |next| && (|instructions| > 0 || after >= fuel * |instructions|)
    requires GhostScan(nodes, instructions, next, nextCounts, after, fuel * |instructions|) ==
      GhostScan(nodes, instructions, instances, counts, moves, fuel * |instructions|)
    requires AllEnd(next) ||
      (after == moves + |instructions| && (|instructions| > 0 ==> Phase(|instructions|, after) == 0))
    ensures Progress(nodes, instructions, next, nextCounts, after, passes + 1, fuel, scan)
  {
    PassBound(passes, fuel, |instructions|);
  }

  /**
   * The walk of run: all start instances pass over the instructions in
   * lockstep until all stand on end nodes, and the answer is the lcm of
   * their steps. At most fuel passes are made.
   */
  method Run(nodes: seq<Node>, instructions: string, fuel: nat) returns (result: Result<nat, WalkError>)
    ensures result == Outcome(nodes, instructions, fuel)
  {
    var instances := Starts(nodes);
    var steps := new nat[|instances|](_ => 0);
    assert steps[..] == Zeros(|instances|);
    ghost var scan := GhostScan(nodes, instructions, instances, steps[..], 0, fuel * |instructions|);
    ghost var moves: nat := 0;
    var passes := 0;
    while !AllEnd(instances)
      invariant steps.Length == |instances|
      invariant Progress(nodes, instructions, instances, steps[..], moves, passes, fuel, scan)
      decreases fuel - passes
    {
      if passes == fuel {
        return Err(OutOfFuel);
      }
      PassBound(passes, fuel, |instructions|);
      ghost var counts := steps[..];
      var passed;
      ghost var after;
      passed, after := Pass(nodes, instructions, instances, steps, moves, fuel * |instructions|);
      if passed.Err? {
        return Err(passed.error);
      }
      ProgressStep(nodes, instructions, instances, counts, moves, passes, fuel, scan,
                   passed.value, steps[..], after);
      instances, moves := passed.value, after;
      passes := passes + 1;
    }
    return Ok(LcmAll(steps[..]));
  }
}
