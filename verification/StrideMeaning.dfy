/** Re-laying a stream at a uniform stride keeps its meaning: the same tasks, in
    the same order, with the same records. */
module StrideMeaning {
  import opened Slots
  import opened Sorting
  import opened StrideNormalization
  import opened TaskChain
  import opened TaskParsing
  import opened Words

  /** The link is null or leads to a higher base. */
  predicate Forward(task: Moved) {
    task.next == 0 || task.next > task.base
  }

  /** Bytes from the task to the task it links to, or to the stream end. */
  function Extent(size: nat, task: Moved): nat
    requires Forward(task) && task.base <= size
  {
    if task.next != 0 then task.next - task.base else size - task.base
  }

  ghost predicate IsMoved(content: seq<Byte>, stride: nat, task: Moved) {
    && task.base + 0x20 <= |content|
    && task.next == Link(content, task.base)
    && task.body == Body(content, task.base, stride)
  }

  /** What the source task's own parse, limited to `limit`, must be for it to have a meaning to keep. */
  ghost predicate Complete(content: seq<Byte>, base: nat, limit: nat, p: Parsed) {
    && Parse(content, base, limit) == Ok(p)
    && !p.truncated && (p.terminated || p.end >= limit)
  }

  /** `slot` stands at `at` and holds the task's body, zeros, and some link. */
  ghost predicate Holds(out: seq<Byte>, at: nat, stride: nat, body: seq<Byte>, slot: seq<Byte>) {
    && |slot| == stride >= 0x20 && SameBytes(slot, 0, out, at, stride)
    && DiffersInLink(body, slot)
    && forall k :: |body| <= k < stride && !(NEXT_POINTER <= k < 0x20) ==> slot[k] == 0
  }

  /** In the relaid stream slot `i` holds the padded body with its new link. */
  lemma RelaidSlot(tasks: seq<Moved>, stride: nat, out: seq<Byte>, i: nat) returns (slot: seq<Byte>)
    requires Fit(tasks, stride) && Relayable(tasks, stride) && IsRelaid(tasks, stride, out) && i < |tasks|
    ensures Holds(out, SlotBase(i, stride), stride, tasks[i].body, slot)
    ensures Word(slot, NEXT_POINTER) == Target(Bases(tasks), tasks[i].next, stride)
  {
    slot := RelaidSlots(tasks, stride)[i];
    assert SlotIs(out, i, stride, slot);
  }

  /** A slot that is zero from its record start on parses to no records. */
  lemma HeaderOnly(slot: seq<Byte>, out: seq<Byte>, at: nat, stride: nat, content: seq<Byte>, base: nat, end: nat)
    requires |slot| == stride >= 0x20 && SameBytes(slot, 0, out, at, stride)
    requires SameBytes(content, base, slot, 0, 4) && end == RecordStart(content, base)
    requires end + 4 <= stride ==> Word(slot, end) == 0
    ensures Parse(out, at, stride) == Ok(Parsed([], end, end + 4 <= stride, false))
  {
    SameWord(content, base, slot, 0, 4, base);
    SameWord(slot, 0, out, at, stride, 0);
    if end + 4 <= stride {
      SameWord(slot, 0, out, at, stride, end);
    }
  }

  /** The bytes of a forward task up to its extent stand at `at`, its link aside, with zeros behind them. */
  ghost predicate IsClipped(content: seq<Byte>, task: Moved, out: seq<Byte>, at: nat, stride: nat)
    requires Forward(task) && task.base <= |content|
  {
    var extent := Extent(|content|, task);
    && task.base + extent <= |content| && at + stride <= |out| && stride >= 0x20
    && 0x20 <= extent && (task.next != 0 ==> 0x100 <= extent)
    && forall x {:trigger out[x]} :: at <= x < at + stride && !(at + NEXT_POINTER <= x < at + 0x20) ==>
         out[x] == if x - at < extent then content[x - at + task.base] else 0
  }

  lemma HeldIsClipped(content: seq<Byte>, task: Moved, stride: nat, slot: seq<Byte>, out: seq<Byte>, at: nat)
    requires IsMoved(content, stride, task) && Forward(task) && task.next <= |content|
    requires Holds(out, at, stride, task.body, slot)
    requires 0x20 <= Extent(|content|, task) && (task.next != 0 ==> 0x100 <= Extent(|content|, task))
    ensures IsClipped(content, task, out, at, stride)
  {
    forall x {:trigger out[x]} | at <= x < at + stride && !(at + NEXT_POINTER <= x < at + 0x20)
      ensures out[x] == if x - at < Extent(|content|, task) then content[x - at + task.base] else 0
    {
      assert slot[x - at] == out[x - at - 0 + at];
      assert x - at < |task.body| ==> slot[x - at] == task.body[x - at];
    }
  }

  lemma HeaderIsKept(content: seq<Byte>, task: Moved, out: seq<Byte>, at: nat, stride: nat)
    requires Forward(task) && task.base <= |content| && IsClipped(content, task, out, at, stride)
    ensures task.base + 4 <= |content| && RecordStart(out, at) == RecordStart(content, task.base)
  {
    assert SameBytes(out, at, content, task.base, 4);
    SameWord(out, at, content, task.base, 4, at);
  }

  /** A word behind the header is zero in the slot if it was zero, or if it begins behind the extent. */
  lemma ZeroIsKept(content: seq<Byte>, task: Moved, out: seq<Byte>, at: nat, stride: nat, pos: nat)
    requires Forward(task) && task.base <= |content| && IsClipped(content, task, out, at, stride)
    requires HEADER_SIZE <= pos && pos + 4 <= stride
    requires || Extent(|content|, task) <= pos
             || (task.base + pos + 4 <= |content| && Word(content, task.base + pos) == 0)
    ensures Word(out, at + pos) == 0
  {
    if pos < Extent(|content|, task) {
      ZeroWordBytes(content, task.base + pos);
    }
    ZeroWordBytes(out, at + pos);
  }

  /** Where a complete parse of the source ended, the slot's parse cannot go on. */
  lemma SlotStops(
    content: seq<Byte>, task: Moved, out: seq<Byte>, at: nat, stride: nat, limit: nat, p: Parsed)
    requires Forward(task) && task.base <= |content| && IsClipped(content, task, out, at, stride)
    requires Complete(content, task.base, limit, p) && (p.terminated || limit >= Extent(|content|, task))
    ensures p.end >= HEADER_SIZE && Stops(out, at, p.end, stride)
  {
    ParseShape(content, task.base, RecordStart(content, task.base), limit);
    if p.end + 4 <= stride {
      ZeroIsKept(content, task, out, at, stride, p.end);
    }
  }

  /** Every byte of the records that lies behind the extent, where the slot holds zeros, is zero. */
  ghost predicate OverrunIsZero(content: seq<Byte>, task: Moved, end: nat)
    requires Forward(task) && task.base <= |content|
  {
    forall k :: task.base + Extent(|content|, task) <= k < task.base + end && k < |content| ==> content[k] == 0
  }

  /** The slot holds the bytes of the records if and only if those behind the extent are zero. */
  lemma SlotHasRecordBytes(content: seq<Byte>, task: Moved, out: seq<Byte>, at: nat, stride: nat, pos: nat, end: nat)
    requires Forward(task) && task.base <= |content| && IsClipped(content, task, out, at, stride)
    requires HEADER_SIZE <= pos <= HEADER_SIZE + 4 && pos <= end <= stride && task.base + end <= |content|
    ensures SameBytes(content, task.base + pos, out, at + pos, end - pos) <==> OverrunIsZero(content, task, end)
  {
    forall k | task.base + pos <= k < task.base + end
      ensures out[k - (task.base + pos) + (at + pos)] ==
              if k - task.base < Extent(|content|, task) then content[k] else 0
    {
      assert k - (task.base + pos) + (at + pos) == k - task.base + at;
    }
  }

  /** A task whose link is null or forward keeps its records, as far as they lie in its extent or are zero. */
  lemma ForwardTaskSurvives(
    content: seq<Byte>, task: Moved, out: seq<Byte>, at: nat, stride: nat, limit: nat, p: Parsed)
    requires Forward(task) && task.base <= |content| && IsClipped(content, task, out, at, stride)
    requires Complete(content, task.base, limit, p) && (p.terminated || limit >= Extent(|content|, task))
    requires p.records == [] || (p.end <= stride && OverrunIsZero(content, task, p.end))
    ensures Parse(out, at, stride) == Ok(Parsed(p.records, p.end, p.end + 4 <= stride, false))
  {
    var pos := RecordStart(content, task.base);
    HeaderIsKept(content, task, out, at, stride);
    SlotStops(content, task, out, at, stride, limit, p);
    ParseShape(content, task.base, pos, limit);
    if p.records == [] {
      ParseEnds(out, at, pos, stride);
    } else {
      RecordsMove(content, task, out, at, stride, limit, pos);
    }
  }

  lemma RecordsMove(content: seq<Byte>, task: Moved, out: seq<Byte>, at: nat, stride: nat, limit: int, pos: nat)
    requires Forward(task) && task.base <= |content| && IsClipped(content, task, out, at, stride)
    requires HEADER_SIZE <= pos <= HEADER_SIZE + 4
    requires var p := ParseFrom(content, task.base, pos, limit);
             && !p.truncated && p.records != [] && p.end <= stride
             && OverrunIsZero(content, task, p.end) && Stops(out, at, p.end, stride)
    ensures var p := ParseFrom(content, task.base, pos, limit);
            ParseFrom(out, at, pos, stride) == Parsed(p.records, p.end, p.end + 4 <= stride, false)
  {
    ParseShape(content, task.base, pos, limit);
    SlotHasRecordBytes(content, task, out, at, stride, pos, ParseFrom(content, task.base, pos, limit).end);
    ParseTransfers(content, task.base, limit, out, at, stride, pos);
  }

  /** Records read back from the slot end within the stride, and were zero wherever they had run past the extent. */
  lemma SurvivorFits(content: seq<Byte>, task: Moved, out: seq<Byte>, at: nat, stride: nat, limit: nat, p: Parsed)
    requires Forward(task) && task.base <= |content| && IsClipped(content, task, out, at, stride)
    requires Complete(content, task.base, limit, p) && p.records != []
    requires Parse(out, at, stride).value.records == p.records
    ensures p.end <= stride && OverrunIsZero(content, task, p.end)
  {
    var pos := RecordStart(content, task.base);
    HeaderIsKept(content, task, out, at, stride);
    ParsedIsLaid(content, task.base, pos, limit);
    ParsedIsLaid(out, at, pos, stride);
    LaidDeterminesBytes(content, task.base, out, at, pos, p.records);
    SlotHasRecordBytes(content, task, out, at, stride, pos, p.end);
  }

  /** A backward link makes the extent negative, and the body is dropped: the slot
      of such a task parses to no records at all. */
  lemma BackwardTaskIsEmptied(content: seq<Byte>, task: Moved, stride: nat, slot: seq<Byte>, out: seq<Byte>, at: nat)
    requires IsMoved(content, stride, task) && !Forward(task)
    requires Holds(out, at, stride, task.body, slot)
    ensures Parse(out, at, stride) == Ok(Parsed([], HEADER_SIZE, HEADER_SIZE + 4 <= stride, false))
  {
    assert task.body == [];
    HeaderOnly(slot, out, at, stride, slot, 0, HEADER_SIZE);
  }

  /** So a task's records survive the move if and only if it had none, or its link is null or forward, they end
      within the stride, and every byte of theirs behind the task's extent is zero. */
  lemma RecordsSurviveIff(
    content: seq<Byte>, tasks: seq<Moved>, stride: nat, out: seq<Byte>, i: nat, limit: nat, p: Parsed)
    requires Fit(tasks, stride) && Relayable(tasks, stride) && IsRelaid(tasks, stride, out) && i < |tasks|
    requires IsMoved(content, stride, tasks[i]) && tasks[i].next <= |content|
    requires tasks[i].base % 0x100 == 0 && tasks[i].next % 0x100 == 0
    requires Complete(content, tasks[i].base, limit, p)
    requires Forward(tasks[i]) ==> p.terminated || limit >= Extent(|content|, tasks[i])
    ensures Parse(out, SlotBase(i, stride), stride).Ok?
    ensures Parse(out, SlotBase(i, stride), stride).value.records == p.records <==>
            KeepsRecords(content, tasks[i], stride, p)
  {
    var slot := RelaidSlot(tasks, stride, out, i);
    var at := SlotBase(i, stride);
    if !Forward(tasks[i]) {
      BackwardTaskIsEmptied(content, tasks[i], stride, slot, out, at);
    } else {
      ExtentOnGrid(content, tasks[i]);
      HeldIsClipped(content, tasks[i], stride, slot, out, at);
      if KeepsRecords(content, tasks[i], stride, p) {
        ForwardTaskSurvives(content, tasks[i], out, at, stride, limit, p);
      } else if Parse(out, at, stride).value.records == p.records {
        SurvivorFits(content, tasks[i], out, at, stride, limit, p);
      }
    }
  }

  /** What decides it, before the move. */
  ghost predicate KeepsRecords(content: seq<Byte>, task: Moved, stride: nat, p: Parsed)
    requires task.base <= |content|
  {
    p.records == [] || (Forward(task) && p.end <= stride && OverrunIsZero(content, task, p.end))
  }

  lemma ExtentOnGrid(content: seq<Byte>, task: Moved)
    requires Forward(task) && task.base + 0x20 <= |content| && task.base % 0x100 == 0 && task.next % 0x100 == 0
    ensures Extent(|content|, task) >= 0x20 && (task.next != 0 ==> Extent(|content|, task) >= 0x100)
  {
    if task.next != 0 {
      GridApart(task.base, task.next);
    }
  }

  // ---- whole streams ----

  /** An ascending, aligned, null-terminated chain. */
  ghost predicate WellChained(content: seq<Byte>, count: nat, bases: seq<nat>) {
    && bases != [] && IsWalk(content, |content|, count, bases) && Ascending(bases)
    && Link(content, bases[|bases| - 1]) == 0
  }

  ghost function MovedTasks(content: seq<Byte>, stride: nat, bases: seq<nat>): (tasks: seq<Moved>)
    requires IsPath(content, bases)
    ensures |tasks| == |bases| && Fit(tasks, stride)
    ensures forall i :: 0 <= i < |bases| ==>
              tasks[i] == Moved(bases[i], Link(content, bases[i]), Body(content, bases[i], stride))
  {
    seq(|bases|, i requires 0 <= i < |bases| =>
      Moved(bases[i], Link(content, bases[i]), Body(content, bases[i], stride)))
  }

  lemma CollectStep(content: seq<Byte>, stride: nat, count: nat, task: Moved, seen: set<nat>, rest: seq<Moved>)
    requires count > 0 && task.base !in seen && IsMoved(content, stride, task) && task.next != 0
    requires CollectFrom(content, stride, count - 1, task.next, seen + {task.base}) == Ok(rest)
    ensures CollectFrom(content, stride, count, task.base, seen) == Ok([task] + rest)
  {
  }

  lemma CollectLast(content: seq<Byte>, stride: nat, count: nat, task: Moved, seen: set<nat>)
    requires count > 0 && task.base !in seen && IsMoved(content, stride, task) && task.next == 0
    ensures CollectFrom(content, stride, count, task.base, seen) == Ok([task])
  {
  }

  /** Each task links to the next, the last one nowhere. */
  ghost predicate Chained(tasks: seq<Moved>) {
    && tasks != [] && Distinct(Bases(tasks)) && tasks[|tasks| - 1].next == 0
    && forall i :: 0 < i < |tasks| ==> tasks[i - 1].next == tasks[i].base != 0
  }

  /** Every task is what the collecting loop reads at its base. */
  ghost predicate AreMoved(content: seq<Byte>, stride: nat, tasks: seq<Moved>) {
    forall j {:trigger IsMoved(content, stride, tasks[j])} :: 0 <= j < |tasks| ==> IsMoved(content, stride, tasks[j])
  }

  lemma {:induction false} ChainIsCollected(
    content: seq<Byte>, stride: nat, count: nat, tasks: seq<Moved>, i: nat, seen: set<nat>)
    requires Chained(tasks) && i < |tasks| <= count + i && AreMoved(content, stride, tasks)
    requires forall j :: i <= j < |tasks| ==> Bases(tasks)[j] !in seen
    ensures CollectFrom(content, stride, count, tasks[i].base, seen) == Ok(tasks[i..])
    decreases |tasks| - i
  {
    var task := tasks[i];
    assert IsMoved(content, stride, task) && Bases(tasks)[i] !in seen;
    if i + 1 < |tasks| {
      OthersUnseen(tasks, i, seen);
      ChainIsCollected(content, stride, count - 1, tasks, i + 1, seen + {task.base});
      OneMoreIsCollected(content, stride, count, tasks, i, seen);
    } else {
      CollectLast(content, stride, count, task, seen);
      assert tasks[i..] == [task];
    }
  }

  lemma OthersUnseen(tasks: seq<Moved>, i: nat, seen: set<nat>)
    requires i < |tasks| && Distinct(Bases(tasks)) && forall j :: i <= j < |tasks| ==> Bases(tasks)[j] !in seen
    ensures forall j :: i + 1 <= j < |tasks| ==> Bases(tasks)[j] !in seen + {tasks[i].base}
  {
  }

  lemma OneMoreIsCollected(
    content: seq<Byte>, stride: nat, count: nat, tasks: seq<Moved>, i: nat, seen: set<nat>)
    requires Chained(tasks) && i + 1 < |tasks| && count > 0 && IsMoved(content, stride, tasks[i])
    requires tasks[i].base !in seen
    requires CollectFrom(content, stride, count - 1, tasks[i + 1].base, seen + {tasks[i].base}) == Ok(tasks[i + 1..])
    ensures CollectFrom(content, stride, count, tasks[i].base, seen) == Ok(tasks[i..])
  {
    assert tasks[i + 1 - 1].next == tasks[i + 1].base != 0;
    CollectStep(content, stride, count, tasks[i], seen, tasks[i + 1..]);
    assert tasks[i..] == [tasks[i]] + tasks[i + 1..];
  }

  lemma WholeChainIsCollected(content: seq<Byte>, stride: nat, count: nat, tasks: seq<Moved>)
    requires Chained(tasks) && |tasks| <= count && tasks[0].base == 0 && AreMoved(content, stride, tasks)
    ensures Collect(content, stride, count) == Ok(tasks)
  {
    ChainIsCollected(content, stride, count, tasks, 0, {});
    assert tasks[0..] == tasks;
  }

  lemma MovedAreChained(content: seq<Byte>, stride: nat, count: nat, bases: seq<nat>)
    requires WellChained(content, count, bases)
    ensures Bases(MovedTasks(content, stride, bases)) == bases && Chained(MovedTasks(content, stride, bases))
  {
    var tasks := MovedTasks(content, stride, bases);
    forall i | 0 < i < |tasks|
      ensures tasks[i - 1].next == tasks[i].base != 0
    {
      assert Link(content, bases[i - 1]) == bases[i] != 0;
    }
    assert Bases(tasks) == bases;
  }

  /** Relinking sends every task to the slot after its own, and the last one nowhere. */
  lemma ChainTarget(content: seq<Byte>, stride: nat, count: nat, bases: seq<nat>, i: nat)
    requires WellChained(content, count, bases) && i < |bases|
    ensures var next := Link(content, bases[i]);
            && (next != 0 ==> next in bases)
            && Target(bases, next, stride) == if i + 1 < |bases| then SlotBase(i + 1, stride) else 0
  {
    if i + 1 < |bases| {
      assert Link(content, bases[i]) == bases[i + 1];
      assert Distinct(bases);
      var j := IndexOf(bases, bases[i + 1]);
      assert j == i + 1;
    }
  }

  lemma ChainTask(content: seq<Byte>, stride: nat, count: nat, bases: seq<nat>, i: nat)
    requires WellChained(content, count, bases) && i < |bases| && stride >= 0x20
    ensures var task := MovedTasks(content, stride, bases)[i];
            && IsMoved(content, stride, task) && Forward(task) && task.next <= |content|
            && |task.body| >= 0x20
            && Extent(|content|, task) == (if i + 1 < |bases| then bases[i + 1] else |content|) - bases[i]
            && Extent(|content|, task) >= 0x20 && (task.next != 0 ==> Extent(|content|, task) >= 0x100)
  {
    WalkGrid(content, count, bases, i);
    if i + 1 < |bases| {
      WalkGrid(content, count, bases, i + 1);
      assert Link(content, bases[i]) == bases[i + 1] && bases[i] < bases[i + 1];
      GridApart(bases[i], bases[i + 1]);
    }
  }

  lemma WalkGrid(content: seq<Byte>, count: nat, bases: seq<nat>, i: nat)
    requires WellChained(content, count, bases) && i < |bases|
    ensures bases[i] % 0x100 == 0 && bases[i] + 0x20 <= |content|
  {
    assert i > 0 ==> LinkFits(bases[i], |content|);
  }

  /** Such a chain is relaid without any exception, at every stride whose slots can be addressed. */
  lemma ChainIsRelayable(content: seq<Byte>, stride: nat, count: nat, bases: seq<nat>)
    requires WellChained(content, count, bases) && stride >= 0x20 && SlotBase(|bases|, stride) <= WORD_LIMIT
    ensures Collect(content, stride, count) == Ok(MovedTasks(content, stride, bases))
    ensures Bases(MovedTasks(content, stride, bases)) == bases
    ensures Relayable(MovedTasks(content, stride, bases), stride)
  {
    var tasks := MovedTasks(content, stride, bases);
    MovedAreChained(content, stride, count, bases);
    WholeChainIsCollected(content, stride, count, tasks);
    ChainLinksMap(content, stride, count, bases, tasks);
    forall i | 0 <= i < |tasks|
      ensures |tasks[i].body| >= 0x20
    {
      ChainTask(content, stride, count, bases, i);
    }
    LongBodiesSurvive(tasks, stride);
  }

  lemma LongBodiesSurvive(tasks: seq<Moved>, stride: nat)
    requires Fit(tasks, stride) && stride >= 0x20 && LinksMapFirst(tasks, stride, |tasks|)
    requires forall i :: 0 <= i < |tasks| ==> |tasks[i].body| >= 0x20
    ensures Relayable(tasks, stride)
  {
  }

  lemma ChainLinksMap(content: seq<Byte>, stride: nat, count: nat, bases: seq<nat>, tasks: seq<Moved>)
    requires WellChained(content, count, bases) && SlotBase(|bases|, stride) <= WORD_LIMIT
    requires tasks == MovedTasks(content, stride, bases) && Bases(tasks) == bases
    ensures LinksMapFirst(tasks, stride, |tasks|)
  {
    forall i | 0 <= i < |tasks|
      ensures LinkMaps(bases, tasks[i].next, stride)
    {
      ChainTarget(content, stride, count, bases, i);
      if i + 1 < |bases| {
        SlotsAreApart(i + 1, |bases|, stride);
        FirstSlot(stride, |bases|, i + 1);
      }
    }
  }

  lemma FirstSlot(stride: nat, n: nat, i: nat)
    requires i < n && SlotBase(n, stride) <= WORD_LIMIT
    ensures stride > 0 ==> SlotBase(i, stride) < WORD_LIMIT
    ensures stride == 0 ==> SlotBase(i, stride) == 0
  {
    SlotsAreApart(i, n, stride);
    if stride == 0 {
      SlotBaseIsProduct(i, stride);
    }
  }

  ghost function NewBases(n: nat, stride: nat): (bases: seq<nat>)
    ensures |bases| == n && forall i :: 0 <= i < n ==> bases[i] == SlotBase(i, stride)
  {
    seq(n, i requires 0 <= i < n => SlotBase(i, stride))
  }

  /** Slot addresses are on the 0x100 grid when the stride is. */
  lemma {:induction false} SlotsOnGrid(i: nat, stride: nat)
    requires stride % 0x100 == 0
    ensures SlotBase(i, stride) % 0x100 == 0
  {
    if i > 0 {
      SlotsOnGrid(i - 1, stride);
    }
  }

  /** A relaid stream is as long as its slots, and the link in slot `i` is the mapped one. */
  lemma LinkOfSlot(tasks: seq<Moved>, stride: nat, out: seq<Byte>, i: nat)
    requires Fit(tasks, stride) && Relayable(tasks, stride) && IsRelaid(tasks, stride, out) && i < |tasks|
    requires stride >= 0x20
    ensures SlotBase(i, stride) + 0x20 <= |out| == SlotBase(|tasks|, stride)
    ensures Link(out, SlotBase(i, stride)) == Target(Bases(tasks), tasks[i].next, stride)
  {
    SlotsAreApart(i, |tasks|, stride);
    var slot := RelaidSlot(tasks, stride, out, i);
    SameWord(slot, 0, out, SlotBase(i, stride), stride, NEXT_POINTER);
  }

  /** The relaid stream links slot to slot. */
  lemma RelaidLink(
    content: seq<Byte>, count: nat, bases: seq<nat>, stride: nat, out: seq<Byte>, i: nat)
    requires WellChained(content, count, bases) && stride >= 0x20 && SlotBase(|bases|, stride) <= WORD_LIMIT
    requires Relayable(MovedTasks(content, stride, bases), stride)
    requires IsRelaid(MovedTasks(content, stride, bases), stride, out) && i < |bases|
    ensures SlotBase(i, stride) + 0x20 <= |out| == SlotBase(|bases|, stride)
    ensures Link(out, SlotBase(i, stride)) == if i + 1 < |bases| then SlotBase(i + 1, stride) else 0
  {
    var tasks := MovedTasks(content, stride, bases);
    MovedAreChained(content, stride, count, bases);
    LinkOfSlot(tasks, stride, out, i);
    ChainTarget(content, stride, count, bases, i);
  }

  lemma RelaidIsChained(content: seq<Byte>, count: nat, bases: seq<nat>, stride: nat, out: seq<Byte>)
    requires WellChained(content, count, bases) && stride >= 0x20 && stride % 0x100 == 0
    requires SlotBase(|bases|, stride) <= WORD_LIMIT
    requires Relayable(MovedTasks(content, stride, bases), stride)
    requires IsRelaid(MovedTasks(content, stride, bases), stride, out)
    ensures WellChained(out, count, NewBases(|bases|, stride)) && |out| == SlotBase(|bases|, stride)
  {
    forall i | 0 <= i < |bases|
      ensures LinkedOn(out, |bases|, stride, i)
    {
      RelaidLink(content, count, bases, stride, out, i);
    }
    assert LinkedOn(out, |bases|, stride, 0);
    SlotsAreChained(out, count, |bases|, stride);
  }

  /** Slot `i` lies in the stream and links to the slot behind it, the last one to nothing. */
  ghost predicate LinkedOn(out: seq<Byte>, n: nat, stride: nat, i: nat) {
    && SlotBase(i, stride) + 0x20 <= |out| == SlotBase(n, stride)
    && Link(out, SlotBase(i, stride)) == if i + 1 < n then SlotBase(i + 1, stride) else 0
  }

  lemma SlotsAreChained(out: seq<Byte>, count: nat, n: nat, stride: nat)
    requires 0 < n <= count && stride >= 0x20 && stride % 0x100 == 0
    requires forall i :: 0 <= i < n ==> LinkedOn(out, n, stride, i)
    ensures WellChained(out, count, NewBases(n, stride))
  {
    var laid := NewBases(n, stride);
    assert LinkedOn(out, n, stride, n - 1);
    forall i | 0 <= i < n
      ensures laid[i] + 0x20 <= |out| && LinkFits(laid[i], |out|)
    {
      assert LinkedOn(out, n, stride, i);
      SlotsOnGrid(i, stride);
    }
    forall i | 0 < i < n
      ensures Link(out, laid[i - 1]) == laid[i] != 0
    {
      assert LinkedOn(out, n, stride, i - 1);
    }
    forall i, j | 0 <= i < j < n
      ensures laid[i] < laid[j]
    {
      SlotsAreApart(i, j, stride);
    }
  }

  /** The whole-stream hypothesis: each task's own parse, limited to its extent, is complete and fits the stride. */
  ghost predicate RecordsFit(content: seq<Byte>, bases: seq<nat>, stride: nat)
    requires IsPath(content, bases)
  {
    forall i :: 0 <= i < |bases| ==> TaskFits(content, bases, stride, i)
  }

  function SlotLength(content: seq<Byte>, bases: seq<nat>, i: nat): int
    requires i < |bases|
  {
    (if i + 1 < |bases| then bases[i + 1] else |content|) - bases[i]
  }

  ghost predicate TaskFits(content: seq<Byte>, bases: seq<nat>, stride: nat, i: nat)
    requires i < |bases| && IsPath(content, bases)
  {
    var limit := SlotLength(content, bases, i);
    var p := ParseFrom(content, bases[i], RecordStart(content, bases[i]), limit);
    !p.truncated && (p.terminated || p.end >= limit) && p.end <= stride
  }

  /** Relaying keeps the meaning of a stream: the new stream has exactly n slots,
      its walk is 0, stride, 2*stride, ..., and slot i parses to task i's records. */
  lemma NormalizationKeepsMeaning(content: seq<Byte>, count: nat, bases: seq<nat>, stride: nat, out: seq<Byte>)
    requires WellChained(content, count, bases) && RecordsFit(content, bases, stride)
    requires stride > 0 && stride % 0x100 == 0 && |bases| * stride <= WORD_LIMIT
    ensures Collect(content, stride, count) == Ok(MovedTasks(content, stride, bases))
    ensures Relayable(MovedTasks(content, stride, bases), stride)
    ensures IsRelaid(MovedTasks(content, stride, bases), stride, out) ==>
              && |out| == |bases| * stride
              && WalkFrom(out, |out|, count, 0, {}) == Ok(NewBases(|bases|, stride))
              && forall i :: 0 <= i < |bases| ==>
                   var p := Parse(content, bases[i], SlotLength(content, bases, i)).value;
                   Parse(out, SlotBase(i, stride), stride) == Ok(Parsed(p.records, p.end, p.end + 4 <= stride, false))
  {
    SlotBaseIsProduct(|bases|, stride);
    ChainIsRelayable(content, stride, count, bases);
    var tasks := MovedTasks(content, stride, bases);
    if IsRelaid(tasks, stride, out) {
      RelaidIsChained(content, count, bases, stride, out);
      WalkIsPath(out, |out|, count, NewBases(|bases|, stride));
      forall i | 0 <= i < |bases|
        ensures var p := Parse(content, bases[i], SlotLength(content, bases, i)).value;
                Parse(out, SlotBase(i, stride), stride) == Ok(Parsed(p.records, p.end, p.end + 4 <= stride, false))
      {
        TaskSurvives(content, count, bases, stride, out, i);
      }
    }
  }

  lemma TaskSurvives(content: seq<Byte>, count: nat, bases: seq<nat>, stride: nat, out: seq<Byte>, i: nat)
    requires WellChained(content, count, bases) && i < |bases| && TaskFits(content, bases, stride, i)
    requires stride >= 0x20 && Relayable(MovedTasks(content, stride, bases), stride)
    requires IsRelaid(MovedTasks(content, stride, bases), stride, out)
    ensures var p := Parse(content, bases[i], SlotLength(content, bases, i)).value;
            Parse(out, SlotBase(i, stride), stride) == Ok(Parsed(p.records, p.end, p.end + 4 <= stride, false))
  {
    var tasks, at := MovedTasks(content, stride, bases), SlotBase(i, stride);
    var slot := RelaidSlot(tasks, stride, out, i);
    ChainTask(content, stride, count, bases, i);
    HeldIsClipped(content, tasks[i], stride, slot, out, at);
    var limit := SlotLength(content, bases, i);
    ForwardTaskSurvives(content, tasks[i], out, at, stride, limit, Parse(content, bases[i], limit).value);
  }

  /** Relaying a relaid stream changes nothing. */
  lemma NormalizationIsIdempotent(
    content: seq<Byte>, count: nat, bases: seq<nat>, stride: nat, out: seq<Byte>, again: seq<Byte>)
    requires WellChained(content, count, bases) && stride > 0 && stride % 0x100 == 0
    requires |bases| * stride <= WORD_LIMIT
    requires Relayable(MovedTasks(content, stride, bases), stride)
    requires IsRelaid(MovedTasks(content, stride, bases), stride, out)
    ensures Collect(out, stride, count).Ok?
    ensures var tasks := Collect(out, stride, count).value;
            && Fit(tasks, stride) && Relayable(tasks, stride)
            && (IsRelaid(tasks, stride, again) ==> again == out)
  {
    SlotBaseIsProduct(|bases|, stride);
    RelaidIsChained(content, count, bases, stride, out);
    var laid := NewBases(|bases|, stride);
    ChainIsRelayable(out, stride, count, laid);
    if IsRelaid(MovedTasks(out, stride, laid), stride, again) {
      SlotsAreFixed(content, count, bases, stride, out);
      SlotsDetermineStream(again, out, RelaidSlots(MovedTasks(content, stride, bases), stride), stride);
    }
  }

  lemma SlotsAreFixed(content: seq<Byte>, count: nat, bases: seq<nat>, stride: nat, out: seq<Byte>)
    requires WellChained(content, count, bases) && stride >= 0x20 && SlotBase(|bases|, stride) <= WORD_LIMIT
    requires Relayable(MovedTasks(content, stride, bases), stride)
    requires IsRelaid(MovedTasks(content, stride, bases), stride, out)
    requires WellChained(out, count, NewBases(|bases|, stride))
    requires Relayable(MovedTasks(out, stride, NewBases(|bases|, stride)), stride)
    ensures RelaidSlots(MovedTasks(out, stride, NewBases(|bases|, stride)), stride) ==
            RelaidSlots(MovedTasks(content, stride, bases), stride)
  {
    forall i | 0 <= i < |bases|
      ensures RelaidSlots(MovedTasks(out, stride, NewBases(|bases|, stride)), stride)[i] ==
              RelaidSlots(MovedTasks(content, stride, bases), stride)[i]
    {
      SlotIsFixed(content, count, bases, stride, out, i);
    }
  }

  /** The body taken from a relaid slot is the whole slot, link included. */
  lemma SlotIsFixed(content: seq<Byte>, count: nat, bases: seq<nat>, stride: nat, out: seq<Byte>, i: nat)
    requires WellChained(content, count, bases) && stride >= 0x20 && i < |bases|
    requires SlotBase(|bases|, stride) <= WORD_LIMIT
    requires Relayable(MovedTasks(content, stride, bases), stride)
    requires IsRelaid(MovedTasks(content, stride, bases), stride, out)
    requires WellChained(out, count, NewBases(|bases|, stride))
    requires Relayable(MovedTasks(out, stride, NewBases(|bases|, stride)), stride)
    ensures RelaidSlots(MovedTasks(out, stride, NewBases(|bases|, stride)), stride)[i] ==
            RelaidSlots(MovedTasks(content, stride, bases), stride)[i]
  {
    var laid, at := NewBases(|bases|, stride), SlotBase(i, stride);
    var slot := RelaidSlots(MovedTasks(content, stride, bases), stride)[i];
    RelaidLink(content, count, bases, stride, out, i);
    MovedAreChained(content, stride, count, bases);
    MovedAreChained(out, stride, count, laid);
    ChainTarget(content, stride, count, bases, i);
    ChainTarget(out, stride, count, laid, i);
    assert SlotIs(out, i, stride, slot);
    BodyOfSlot(out, at, stride, slot);
    PutSame(slot, NEXT_POINTER);
  }

  lemma BodyOfSlot(out: seq<Byte>, at: nat, stride: nat, slot: seq<Byte>)
    requires SameBytes(slot, 0, out, at, stride) && |slot| == stride >= 0x20
    requires Link(out, at) == at + stride || (Link(out, at) == 0 && |out| == at + stride)
    ensures Padded(Body(out, at, stride), stride) == slot
  {
    forall k | 0 <= k < stride
      ensures Body(out, at, stride)[k] == slot[k]
    {
      assert slot[k] == out[k - 0 + at];
    }
  }
}
