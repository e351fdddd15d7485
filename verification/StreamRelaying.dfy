/** Relaying a stream that parses as a whole: which of the records that its parse returned can be read back. */
module StreamRelaying {
  import GapZeroing
  import opened Slots
  import opened StrideMeaning
  import opened StrideNormalization
  import opened TaskChain
  import opened TaskParsing
  import opened Words

  /** The tasks stand at these bases, as the collecting loop reads them. */
  ghost predicate AreCollected(content: seq<Byte>, stride: nat, bases: seq<nat>, tasks: seq<Moved>) {
    && |tasks| == |bases|
    && forall i {:trigger tasks[i]} :: 0 <= i < |tasks| ==>
         tasks[i].base == bases[i] && IsMoved(content, stride, tasks[i])
  }

  /** Whatever the checking walk accepts, the collecting loop collects. */
  lemma {:induction false} WalkIsCollected(
    content: seq<Byte>, size: nat, stride: nat, count: nat, offset: nat, seen: set<nat>, bases: seq<nat>)
    requires WalkFrom(content, size, count, offset, seen) == Ok(bases)
    ensures CollectFrom(content, stride, count, offset, seen).Ok?
    ensures AreCollected(content, stride, bases, CollectFrom(content, stride, count, offset, seen).value)
    decreases count
  {
    if offset !in seen && count > 0 {
      var task := Moved(offset, Link(content, offset), Body(content, offset, stride));
      if task.next != 0 {
        WalkIsCollected(content, size, stride, count - 1, task.next, seen + {offset}, bases[1..]);
        var rest := CollectFrom(content, stride, count - 1, task.next, seen + {offset}).value;
        OneMoreCollectedTask(content, stride, bases, task, rest);
      }
    }
  }

  lemma OneMoreCollectedTask(content: seq<Byte>, stride: nat, bases: seq<nat>, task: Moved, rest: seq<Moved>)
    requires bases != [] && task.base == bases[0] && IsMoved(content, stride, task)
    requires AreCollected(content, stride, bases[1..], rest)
    ensures AreCollected(content, stride, bases, [task] + rest)
  {
    var all := [task] + rest;
    forall i {:trigger all[i]} | 0 <= i < |all|
      ensures all[i].base == bases[i] && IsMoved(content, stride, all[i])
    {
      if i > 0 {
        assert all[i] == rest[i - 1] && bases[i] == bases[1..][i - 1];
      }
    }
  }

  /** On a walk every link is on the grid and inside the stream. */
  lemma LinkOnGrid(content: seq<Byte>, count: nat, bases: seq<nat>, i: nat)
    requires IsWalk(content, |content|, count, bases) && i < |bases|
    ensures bases[i] % 0x100 == 0 && bases[i] + 0x20 <= |content|
    ensures Link(content, bases[i]) % 0x100 == 0 && Link(content, bases[i]) <= |content|
    ensures i + 1 < |bases| ==> Link(content, bases[i]) == bases[i + 1] != 0
  {
    assert i > 0 ==> LinkFits(bases[i], |content|);
    if i + 1 < |bases| {
      assert Link(content, bases[i + 1 - 1]) == bases[i + 1] && LinkFits(bases[i + 1], |content|);
    }
  }

  /** The bound of the stream's parse is never short of a forward task's extent. */
  lemma BoundHoldsExtent(content: seq<Byte>, count: nat, bases: seq<nat>, task: Moved, i: nat)
    requires IsWalk(content, |content|, count, bases) && i < |bases|
    requires task.base == bases[i] && task.base + 0x20 <= |content| && task.next == Link(content, task.base)
    ensures Forward(task) ==> GapZeroing.Bound(bases, |content|, i) >= Extent(|content|, task)
  {
    LinkOnGrid(content, count, bases, i);
  }

  /** Of a parsed stream that is relaid, the records of a task are read back if and only if it had none, or its link
      is null or forward, its records end within the stride, and theirs that ran past the next base are zero there. */
  lemma RelaidRecordsSurviveIff(
    content: seq<Byte>, count: nat, parsed: seq<GapZeroing.Task>, tasks: seq<Moved>, stride: nat, out: seq<Byte>,
    i: nat)
    requires GapZeroing.ParseStream(content, count) == Ok(parsed) && i < |parsed|
    requires Collect(content, stride, count) == Ok(tasks)
    requires Fit(tasks, stride) && Relayable(tasks, stride) && IsRelaid(tasks, stride, out)
    ensures |tasks| == |parsed| && tasks[i].base == parsed[i].base <= |content|
    ensures Parse(out, SlotBase(i, stride), stride).Ok?
    ensures Parse(out, SlotBase(i, stride), stride).value.records == parsed[i].records <==>
            || parsed[i].records == []
            || (Forward(tasks[i]) && parsed[i].end <= stride && OverrunIsZero(content, tasks[i], parsed[i].end))
  {
    GapZeroing.ParseStreamIsParse(content, count, parsed);
    var bases := GapZeroing.Bases(parsed);
    WalkIsPath(content, |content|, count, bases);
    WalkIsCollected(content, |content|, stride, count, 0, {}, bases);
    assert tasks[i].base == bases[i] == parsed[i].base;
    LinkOnGrid(content, count, bases, i);
    BoundHoldsExtent(content, count, bases, tasks[i], i);
    var limit := GapZeroing.Bound(bases, |content|, i);
    var p := Parsed(parsed[i].records, parsed[i].end, parsed[i].terminated, false);
    ParsedIsComplete(content, limit, parsed[i], p);
    RecordsSurviveIff(content, tasks, stride, out, i, limit, p);
  }

  lemma ParsedIsComplete(content: seq<Byte>, limit: nat, task: GapZeroing.Task, p: Parsed)
    requires GapZeroing.ParseOne(content, task.base, limit) == Ok(task)
    requires p == Parsed(task.records, task.end, task.terminated, false)
    ensures Complete(content, task.base, limit, p)
  {
  }
}
