/**
 * The HASHMAP procedure (day15/part2.py): 256 boxes, each an ordered
 * table of lenses keyed by label. "label=f" puts a lens of focal length f
 * into box HASH(label), replacing one with the same label in its slot or
 * appending it; "label-" takes the lens with that label out. The answer
 * sums (box + 1) * slot * focal length over every lens.
 */
module Day15Boxes {
  import opened Common
  import Day15Hash

  /** One parsed step of the sequence. */
  datatype Operation = Put(name: string, focal: nat) | Remove(name: string)

  /** An OrderedDict[str, int]: (label, focal length) pairs in insertion order. */
  type Lenses = seq<(string, nat)>

  /** The boxes that have been created so far, by box number. */
  type Boxes = map<int, Lenses>

  /** The labels of a box, in slot order. */
  function Labels(box: Lenses): (ls: seq<string>)
    ensures |ls| == |box|
    ensures forall i :: 0 <= i < |box| ==> ls[i] == box[i].0
  {
    if |box| == 0 then [] else [box[0].0] + Labels(box[1..])
  }

  /** No label occurs twice in a box. */
  predicate DistinctLabels(box: Lenses)
  {
    forall i, j :: 0 <= i < j < |box| ==> box[i].0 != box[j].0
  }

  /** The slot of the first lens with that label, or |box| when there is none. */
  function IndexOf(box: Lenses, name: string): (k: nat)
    ensures k <= |box|
    ensures k < |box| ==> box[k].0 == name
    ensures forall j :: 0 <= j < k ==> box[j].0 != name
    ensures k == |box| <==> name !in Labels(box)
  {
    if |box| == 0 then 0
    else if box[0].0 == name then 0
    else
      var k := IndexOf(box[1..], name);
      assert Labels(box) == [box[0].0] + Labels(box[1..]);
      assert forall j :: 1 <= j < |box| ==> box[j] == box[1..][j - 1];
      k + 1
  }

  /** The first slot holding the label is the one IndexOf reports. */
  lemma IndexOfUnique(box: Lenses, name: string, k: nat)
    requires k <= |box|
    requires k < |box| ==> box[k].0 == name
    requires forall j :: 0 <= j < k ==> box[j].0 != name
    requires k == |box| ==> name !in Labels(box)
    ensures IndexOf(box, name) == k
  {
  }

  /** The focal length stored under the label, if any. */
  function Find(box: Lenses, name: string): (f: Option<nat>)
    ensures f.Some? <==> name in Labels(box)
  {
    var k := IndexOf(box, name);
    if k < |box| then Some(box[k].1) else None
  }

  /** boxes[box_id][label] = focal: overwrite the lens in its slot, or append a new one. */
  function Assign(box: Lenses, name: string, focal: nat): (r: Lenses)
  {
    var k := IndexOf(box, name);
    if k < |box| then box[k := (name, focal)] else box + [(name, focal)]
  }

  /** del boxes[box_id][label]: the lens with that label leaves, the rest keep their order. */
  function Delete(box: Lenses, name: string): (r: Lenses)
    ensures |r| <= |box|
    ensures forall i :: 0 <= i < |r| ==> r[i].0 != name
  {
    if |box| == 0 then []
    else if box[0].0 == name then Delete(box[1..], name)
    else [box[0]] + Delete(box[1..], name)
  }

  // ---- the laws of an ordered table --------------------------------------

  /** An existing label keeps its slot and the other lenses stay; a new label goes last. */
  lemma AssignSlots(box: Lenses, name: string, focal: nat)
    ensures name in Labels(box) ==> |Assign(box, name, focal)| == |box|
    ensures name in Labels(box) ==> Assign(box, name, focal)[IndexOf(box, name)] == (name, focal)
    ensures forall i :: 0 <= i < |box| && i != IndexOf(box, name) ==> Assign(box, name, focal)[i] == box[i]
    ensures name !in Labels(box) ==> Assign(box, name, focal)[|box|] == (name, focal)
    ensures Labels(Assign(box, name, focal))[..|box|] == Labels(box)
  {
    var r := Assign(box, name, focal);
    assert Labels(r)[..|box|] == Labels(box) by {
      forall i | 0 <= i < |box| ensures Labels(r)[i] == Labels(box)[i] {
      }
    }
  }

  /** After putting, the label holds the new focal length. */
  lemma FindAssigned(box: Lenses, name: string, focal: nat)
    ensures Find(Assign(box, name, focal), name) == Some(focal)
  {
    var k := IndexOf(box, name);
    var r := Assign(box, name, focal);
    IndexOfUnique(r, name, k);
  }

  /** Putting one label leaves every other label's lens as it was. */
  lemma FindAssignedOther(box: Lenses, name: string, focal: nat, other: string)
    requires other != name
    ensures Find(Assign(box, name, focal), other) == Find(box, other)
  {
    var k := IndexOf(box, other);
    var r := Assign(box, name, focal);
    if k < |box| {
      IndexOfUnique(r, other, k);
    } else {
      assert other !in Labels(r) by {
        forall i | 0 <= i < |r| ensures r[i].0 != other {
          if i < |box| {
            assert r[i] == box[i] || r[i] == (name, focal);
          }
        }
      }
    }
  }

  /** Putting keeps labels distinct. */
  lemma AssignDistinct(box: Lenses, name: string, focal: nat)
    requires DistinctLabels(box)
    ensures DistinctLabels(Assign(box, name, focal))
  {
    var k := IndexOf(box, name);
    var r := Assign(box, name, focal);
    forall i, j | 0 <= i < j < |r| ensures r[i].0 != r[j].0 {
      if j == |box| {
        assert Labels(box)[i] == box[i].0;
      }
    }
  }

  /** After removing, the label is gone. */
  lemma FindDeleted(box: Lenses, name: string)
    ensures Find(Delete(box, name), name) == None
  {
    var r := Delete(box, name);
    forall i | 0 <= i < |r| ensures Labels(r)[i] != name {
    }
  }

  /** Looking up in a box with one more lens in front. */
  lemma FindCons(x: (string, nat), box: Lenses, other: string)
    ensures Find([x] + box, other) == if x.0 == other then Some(x.1) else Find(box, other)
  {
    var b := [x] + box;
    IndexOfCons(x, box, other);
    var k := IndexOf(box, other);
    if x.0 == other {
      assert Find(b, other) == Some(b[0].1);
    } else if k < |box| {
      assert b[k + 1] == box[k];
      assert Find(b, other) == Some(box[k].1);
    } else {
      assert IndexOf(b, other) == |b|;
    }
  }

  /** The slot of a label in a box with one more lens in front. */
  lemma IndexOfCons(x: (string, nat), box: Lenses, other: string)
    ensures IndexOf([x] + box, other) == if x.0 == other then 0 else IndexOf(box, other) + 1
  {
    assert ([x] + box)[1..] == box;
  }

  /** Removing one label leaves every other label's lens as it was. */
  lemma {:induction false} FindDeletedOther(box: Lenses, name: string, other: string)
    requires other != name
    ensures Find(Delete(box, name), other) == Find(box, other)
    decreases |box|
  {
    if |box| > 0 {
      FindDeletedOther(box[1..], name, other);
      assert box == [box[0]] + box[1..];
      FindCons(box[0], box[1..], other);
      if box[0].0 != name {
        FindCons(box[0], Delete(box[1..], name), other);
      }
    }
  }

  /** Removing keeps labels distinct, and only lenses of the box remain. */
  lemma {:induction false} DeleteDistinct(box: Lenses, name: string)
    requires DistinctLabels(box)
    ensures DistinctLabels(Delete(box, name))
    ensures forall i :: 0 <= i < |Delete(box, name)| ==> Delete(box, name)[i] in box
    decreases |box|
  {
    if |box| > 0 {
      assert DistinctLabels(box[1..]) by {
        forall i, j | 0 <= i < j < |box[1..]| ensures box[1..][i].0 != box[1..][j].0 {
          assert box[1..][i] == box[i + 1] && box[1..][j] == box[j + 1];
        }
      }
      DeleteDistinct(box[1..], name);
      var rest := Delete(box[1..], name);
      forall i | 0 <= i < |rest| ensures rest[i] in box {
        assert rest[i] in box[1..];
      }
      if box[0].0 != name {
        var r := [box[0]] + rest;
        forall i, j | 0 <= i < j < |r| ensures r[i].0 != r[j].0 {
          if i == 0 {
            var k :| 0 <= k < |box[1..]| && box[1..][k] == r[j];
            assert box[k + 1] == r[j];
          } else {
            assert r[i] == rest[i - 1] && r[j] == rest[j - 1];
          }
        }
      }
    }
  }

  /** Removing a label that is absent changes nothing. */
  lemma {:induction false} DeleteAbsent(box: Lenses, name: string)
    requires name !in Labels(box)
    ensures Delete(box, name) == box
    decreases |box|
  {
    if |box| > 0 {
      assert Labels(box) == [box[0].0] + Labels(box[1..]);
      DeleteAbsent(box[1..], name);
    }
  }

  /** In a box with distinct labels, del takes out exactly the label's slot; the lenses before and after keep their order. */
  lemma DeleteSlot(box: Lenses, name: string)
    requires DistinctLabels(box) && name in Labels(box)
    ensures Delete(box, name) == box[..IndexOf(box, name)] + box[IndexOf(box, name) + 1..]
  {
    var k := IndexOf(box, name);
    forall j | 0 <= j < |box| && j != k ensures box[j].0 != name {
    }
    DeleteAt(box, name, k);
  }

  /** A label held only in slot k: del takes out slot k and nothing else. */
  lemma {:induction false} DeleteAt(box: Lenses, name: string, k: nat)
    requires k < |box| && box[k].0 == name
    requires forall j :: 0 <= j < |box| && j != k ==> box[j].0 != name
    ensures Delete(box, name) == box[..k] + box[k + 1..]
    decreases |box|
  {
    var tail := box[1..];
    if k == 0 {
      DeleteNone(tail, name);
    } else {
      forall j | 0 <= j < |tail| && j != k - 1 ensures tail[j].0 != name {
        assert tail[j] == box[j + 1];
      }
      DeleteAt(tail, name, k - 1);
      assert box[..k] == [box[0]] + tail[..k - 1];
      assert box[k + 1..] == tail[k..];
    }
  }

  /** del of a label no lens has keeps the box. */
  lemma {:induction false} DeleteNone(box: Lenses, name: string)
    requires forall j :: 0 <= j < |box| ==> box[j].0 != name
    ensures Delete(box, name) == box
    decreases |box|
  {
    if |box| > 0 {
      DeleteNone(box[1..], name);
    }
  }

  /** Putting a new label and removing it again gives back the box. */
  lemma {:induction false} DeleteUndoesNewAssign(box: Lenses, name: string, focal: nat)
    requires name !in Labels(box)
    ensures Delete(Assign(box, name, focal), name) == box
    decreases |box|
  {
    if |box| == 0 {
      assert Delete([(name, focal)], name) == Delete([], name);
    } else {
      assert Labels(box) == [box[0].0] + Labels(box[1..]);
      DeleteUndoesNewAssign(box[1..], name, focal);
      assert Assign(box, name, focal) == [box[0]] + Assign(box[1..], name, focal);
    }
  }

  /** Putting the same label twice keeps only the second focal length, in the first one's slot. */
  lemma AssignTwice(box: Lenses, name: string, f: nat, g: nat)
    ensures Assign(Assign(box, name, f), name, g) == Assign(box, name, g)
  {
    if IndexOf(box, name) < |box| {
      AssignTwiceInPlace(box, name, f, g);
    } else {
      AssignTwiceAppended(box, name, f, g);
    }
  }

  lemma AssignTwiceInPlace(box: Lenses, name: string, f: nat, g: nat)
    requires IndexOf(box, name) < |box|
    ensures Assign(Assign(box, name, f), name, g) == Assign(box, name, g)
  {
    var k := IndexOf(box, name);
    var once := box[k := (name, f)];
    IndexOfUpdate(box, name, (name, f));
    var twice := once[k := (name, g)];
    assert twice == box[k := (name, g)] by {
      forall j | 0 <= j < |box| ensures twice[j] == box[k := (name, g)][j] {
      }
    }
  }

  /** Replacing the lens in a label's slot by another with that label keeps the slot. */
  lemma {:induction false} IndexOfUpdate(box: Lenses, name: string, lens: (string, nat))
    requires IndexOf(box, name) < |box| && lens.0 == name
    ensures IndexOf(box[IndexOf(box, name) := lens], name) == IndexOf(box, name)
    decreases |box|
  {
    var k := IndexOf(box, name);
    if k > 0 {
      var b := box[k := lens];
      assert b[1..] == box[1..][k - 1 := lens];
      IndexOfUpdate(box[1..], name, lens);
    }
  }

  lemma AssignTwiceAppended(box: Lenses, name: string, f: nat, g: nat)
    requires IndexOf(box, name) == |box|
    ensures Assign(Assign(box, name, f), name, g) == Assign(box, name, g)
  {
    var k := |box|;
    var once := box + [(name, f)];
    assert forall j :: 0 <= j < k ==> once[j] == box[j];
    IndexOfUnique(once, name, k);
    assert once[k := (name, g)] == box + [(name, g)];
  }

  // ---- one step and the whole sequence ---------------------------------

  /** The box a label belongs in. */
  function BoxOf(name: string): (id: nat)
    ensures id < 256
  {
    Day15Hash.Hash(name)
  }

  /** The box with that number, an absent one being empty. */
  function BoxAt(boxes: Boxes, id: int): Lenses
  {
    if id in boxes then boxes[id] else []
  }

  /** One pass of the loop in run. */
  function Apply(boxes: Boxes, op: Operation): Boxes
  {
    var id := BoxOf(op.name);
    match op
    case Put(name, focal) =>
      var box := if id in boxes then boxes[id] else [];
      boxes[id := Assign(box, name, focal)]
    case Remove(name) =>
      if id in boxes && name in Labels(boxes[id]) then boxes[id := Delete(boxes[id], name)]
      else boxes
  }

  /** One step changes only the box of its label. */
  lemma ApplyOthers(boxes: Boxes, op: Operation)
    ensures forall id :: id != BoxOf(op.name) ==> (id in Apply(boxes, op) <==> id in boxes)
    ensures forall id :: id in boxes && id != BoxOf(op.name) ==> Apply(boxes, op)[id] == boxes[id]
  {
  }

  /** Removing a label that is not in its box changes nothing. */
  lemma RemoveAbsent(boxes: Boxes, name: string)
    requires name !in Labels(BoxAt(boxes, BoxOf(name)))
    ensures Apply(boxes, Remove(name)) == boxes
  {
  }

  /** The steps applied in order from no boxes at all. */
  function Arrange(ops: seq<Operation>): Boxes
  {
    if |ops| == 0 then map[] else Apply(Arrange(ops[..|ops| - 1]), ops[|ops| - 1])
  }

  /**
   * What the loop keeps true: box numbers are in 0..255, no box holds the
   * same label twice, and every lens sits in the box its label hashes to.
   */
  predicate WellFormed(boxes: Boxes)
  {
    forall id :: id in boxes ==>
      0 <= id < 256 && DistinctLabels(boxes[id]) &&
      forall i :: 0 <= i < |boxes[id]| ==> BoxOf(boxes[id][i].0) == id
  }

  lemma ApplyWellFormed(boxes: Boxes, op: Operation)
    requires WellFormed(boxes)
    ensures WellFormed(Apply(boxes, op))
  {
    var id := BoxOf(op.name);
    var box := BoxAt(boxes, id);
    var r := Apply(boxes, op);
    ApplyOthers(boxes, op);
    match op
    case Put(name, focal) =>
      AssignDistinct(box, name, focal);
      var b := Assign(box, name, focal);
      assert forall i :: 0 <= i < |b| ==> BoxOf(b[i].0) == id by {
        forall i | 0 <= i < |b| ensures BoxOf(b[i].0) == id {
          if name in Labels(box) || i < |box| {
            assert b[i] == (name, focal) || b[i] == box[i];
          }
        }
      }
    case Remove(name) =>
      if id in boxes && name in Labels(boxes[id]) {
        DeleteDistinct(box, name);
      }
  }

  lemma {:induction false} ArrangeWellFormed(ops: seq<Operation>)
    ensures WellFormed(Arrange(ops))
    decreases |ops|
  {
    if |ops| > 0 {
      ArrangeWellFormed(ops[..|ops| - 1]);
      ApplyWellFormed(Arrange(ops[..|ops| - 1]), ops[|ops| - 1]);
    }
  }

  /** Right after a Put, the label's box holds that focal length for it. */
  lemma ArrangeLastPut(ops: seq<Operation>, name: string, focal: nat)
    ensures Find(BoxAt(Arrange(ops + [Put(name, focal)]), BoxOf(name)), name) == Some(focal)
  {
    ArrangeWellFormed(ops);
    var before := Arrange(ops);
    assert (ops + [Put(name, focal)])[..|ops|] == ops;
    FindAssigned(BoxAt(before, BoxOf(name)), name, focal);
  }

  /** The loop of run over the parsed steps, hashing each label into its box number. */
  method Run(ops: seq<Operation>) returns (boxes: Boxes)
    ensures boxes == Arrange(ops)
    ensures WellFormed(boxes)
  {
    boxes := map[];
    var n := 0;
    while n < |ops|
      invariant 0 <= n <= |ops|
      invariant boxes == Arrange(ops[..n])
    {
      assert ops[..n + 1][..n] == ops[..n];
      ghost var before := boxes;
      assert Arrange(ops[..n + 1]) == Apply(before, ops[n]);
      var op := ops[n];
      var boxId := Day15Hash.HashOf(op.name);
      assert boxId == BoxOf(op.name);
      match op {
        case Put(name, focal) =>
          if boxId !in boxes {
            boxes := boxes[boxId := []];
          }
          boxes := boxes[boxId := Assign(boxes[boxId], name, focal)];
          assert boxes == before[boxId := Assign(BoxAt(before, boxId), name, focal)];
        case Remove(name) =>
          if boxId in boxes && name in Labels(boxes[boxId]) {
            boxes := boxes[boxId := Delete(boxes[boxId], name)];
          }
      }
      assert boxes == Apply(before, op);
      n := n + 1;
    }
    assert ops[..n] == ops;
    ArrangeWellFormed(ops);
  }

  // ---- focusing power ----------------------------------------------------

  /** Power of the lenses box[from..] of box number id, with 1-based slots. */
  function BoxPower(id: int, box: Lenses, from: nat): int
    requires from <= |box|
    decreases |box| - from
  {
    if from == |box| then 0 else (id + 1) * (from + 1) * box[from].1 + BoxPower(id, box, from + 1)
  }

  /** Power of boxes id..255. */
  function PowerFrom(boxes: Boxes, id: nat): int
    requires id <= 256
    decreases 256 - id
  {
    if id == 256 then 0 else BoxPower(id, BoxAt(boxes, id), 0) + PowerFrom(boxes, id + 1)
  }

  /** The focusing power of all boxes. */
  function FocusingPower(boxes: Boxes): int
  {
    PowerFrom(boxes, 0)
  }

  /** Every lens adds a positive amount, so the power is never negative. */
  lemma {:induction false} BoxPowerNonNegative(id: nat, box: Lenses, from: nat)
    requires from <= |box|
    ensures BoxPower(id, box, from) >= 0
    decreases |box| - from
  {
    if from < |box| {
      BoxPowerNonNegative(id, box, from + 1);
      assert (id + 1) * (from + 1) * box[from].1 >= 0;
    }
  }

  /** An empty box adds nothing: a box that was emptied counts like one never created. */
  lemma EmptyBoxPower(id: int)
    ensures BoxPower(id, [], 0) == 0
  {
  }

  /**
   * The total loop of run, visiting box numbers 0..255 in ascending order
   * and skipping those never created.
   */
  method TotalPower(boxes: Boxes) returns (total: int)
    ensures total == FocusingPower(boxes)
  {
    total := 0;
    var id := 0;
    while id < 256
      invariant 0 <= id <= 256
      invariant total + PowerFrom(boxes, id) == FocusingPower(boxes)
    {
      if id in boxes {
        var lenses := boxes[id];
        var slot := 0;
        while slot < |lenses|
          invariant 0 <= slot <= |lenses|
          invariant total + BoxPower(id, lenses, slot) + PowerFrom(boxes, id + 1) == FocusingPower(boxes)
        {
          var power := (id + 1) * (slot + 1) * lenses[slot].1;
          total := total + power;
          slot := slot + 1;
        }
      }
      id := id + 1;
    }
  }

  /** The answer: the power after applying every step. */
  method FocusingPowerOf(ops: seq<Operation>) returns (total: int)
    ensures total == FocusingPower(Arrange(ops))
  {
    var boxes := Run(ops);
    total := TotalPower(boxes);
  }
}
