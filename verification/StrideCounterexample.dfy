/** Three streams that are relaid without an error although one of their tasks loses or changes its records. */
module StrideCounterexample {
  import GapCounterexample
  import GapZeroing
  import opened Slots
  import opened StreamRelaying
  import opened StrideMeaning
  import opened StrideNormalization
  import opened TaskChain
  import opened TaskParsing
  import opened Words

  const STRIDE: nat := 0x100

  // ---- a backward link ----

  const BACKWARD_SIZE: nat := 0x300

  /** Three tasks, 0 to 0x200 to 0x100; the second one holds a record of one word. */
  function Backward(): (content: seq<Byte>)
    ensures |content| == BACKWARD_SIZE
  {
    seq(BACKWARD_SIZE, k => if k == 0x1D then 2 else if k == 0x21D || k == 0x228 then 1 else 0)
  }

  function BackwardTasks(): (tasks: seq<Moved>)
    ensures Fit(tasks, STRIDE)
  {
    var content := Backward();
    [Moved(0, 0x200, Body(content, 0, STRIDE)), Moved(0x200, 0x100, []), Moved(0x100, 0, Body(content, 0x100, STRIDE))]
  }

  function ShortParse(): Parsed {
    Parsed([Record(HEADER_SIZE, 1, Values(Backward(), 0x22C, 1))], 0x30, true, false)
  }

  lemma BackwardLinks()
    ensures var content := Backward();
            Link(content, 0) == 0x200 && Link(content, 0x200) == 0x100 && Link(content, 0x100) == 0
  {
  }

  lemma BackwardIsCollected()
    ensures Collect(Backward(), STRIDE, 3) == Ok(BackwardTasks())
    ensures IsMoved(Backward(), STRIDE, BackwardTasks()[1])
  {
    var content, tasks := Backward(), BackwardTasks();
    BackwardLinks();
    assert Body(content, 0x200, STRIDE) == [];
    forall j | 0 <= j < |tasks|
      ensures IsMoved(content, STRIDE, tasks[j])
    {
      if j == 0 {
      } else if j == 1 {
      } else {
        assert j == 2;
      }
    }
    assert Bases(tasks) == [0, 0x200, 0x100];
    WholeChainIsCollected(content, STRIDE, 3, tasks);
  }

  lemma BackwardIsRelayable()
    ensures Relayable(BackwardTasks(), STRIDE)
  {
    var content, tasks := Backward(), BackwardTasks();
    BackwardLinks();
    var bases := Bases(tasks);
    assert bases == [0, 0x200, 0x100];
    forall i | 0 <= i < |tasks|
      ensures LinkMaps(bases, tasks[i].next, STRIDE)
    {
      TargetIsAddressable(bases, tasks[i].next);
    }
    forall i | 0 <= i < |tasks|
      ensures Survives(tasks[i].body, RelaidSlots(tasks, STRIDE)[i])
    {
      if i == 1 {
        assert tasks[i].body == [];
      } else {
        assert |tasks[i].body| >= 0x20;
      }
    }
  }

  lemma TargetIsAddressable(bases: seq<nat>, next: nat)
    requires |bases| <= 3 && (next == 0 || next in bases)
    ensures LinkMaps(bases, next, STRIDE)
  {
    if next != 0 {
      SlotBaseIsProduct(IndexOf(bases, next), STRIDE);
    }
  }

  /** A task with one record, of one word for register 1. */
  lemma OneShortRecord(content: seq<Byte>, base: nat, bound: nat)
    requires base + 0x34 <= |content| && bound >= 0x34
    requires Word(content, base + HEADER_SIZE) == 1 && Word(content, base + 0x30) == 0
    ensures ParseFrom(content, base, HEADER_SIZE, bound) ==
            Parsed([Record(HEADER_SIZE, 1, Values(content, base + 0x2C, 1))], 0x30, true, false)
  {
    assert WordCount(1) == 1 && Register(1) == 1;
    ParseStep(content, base, HEADER_SIZE, bound);
    ParseEnds(content, base, 0x30, bound);
    var record := RecordAt(content, base, HEADER_SIZE);
    assert [record] + [] == [record];
  }

  lemma ShortTaskParses()
    ensures Complete(Backward(), 0x200, STRIDE, ShortParse())
  {
    var content := Backward();
    assert Word(content, 0x200) == 0 && Word(content, 0x228) == 1 && Word(content, 0x230) == 0;
    OneShortRecord(content, 0x200, STRIDE);
  }

  /** The link from 0x200 back to 0x100: every exception is avoided, and the task's record is gone. */
  lemma BackwardLinkLosesRecords(out: seq<Byte>)
    ensures Collect(Backward(), STRIDE, 3) == Ok(BackwardTasks()) && Relayable(BackwardTasks(), STRIDE)
    ensures Parse(Backward(), 0x200, STRIDE) == Ok(ShortParse())
    ensures IsRelaid(BackwardTasks(), STRIDE, out) ==>
              var slot := Parse(out, SlotBase(1, STRIDE), STRIDE);
              slot.Ok? && slot.value.records != ShortParse().records
  {
    BackwardIsCollected();
    BackwardIsRelayable();
    ShortTaskParses();
    if IsRelaid(BackwardTasks(), STRIDE, out) {
      RecordsSurviveIff(Backward(), BackwardTasks(), STRIDE, out, 1, STRIDE, ShortParse());
    }
  }

  // ---- a task longer than the stride ----

  const LONG_SIZE: nat := 0x200

  /** One task with one record of 64 zero words, and room behind it. */
  function Long(): (content: seq<Byte>)
    ensures |content| == LONG_SIZE
  {
    seq(LONG_SIZE, k => if k == 0x2B then 0xFC else 0)
  }

  function LongParse(): Parsed {
    Parsed([Record(HEADER_SIZE, 0, Values(Long(), 0x2C, 64))], 0x12C, true, false)
  }

  lemma LongIsChained()
    ensures WellChained(Long(), 1, [0])
  {
    assert Link(Long(), 0) == 0;
  }

  lemma LongTaskParses()
    ensures Complete(Long(), 0, LONG_SIZE, LongParse())
  {
    var content := Long();
    assert Word(content, 0) == 0 && Word(content, 0x28) == 0xFC00_0000 && Word(content, 0x12C) == 0;
    GapCounterexample.OneLongRecord(content, 0, LONG_SIZE);
  }

  /** A chain that meets every condition but the records' length: relaid without an exception, records gone. */
  lemma ShortStrideLosesRecords(out: seq<Byte>)
    ensures WellChained(Long(), 1, [0])
    ensures Collect(Long(), STRIDE, 1) == Ok(MovedTasks(Long(), STRIDE, [0]))
    ensures Relayable(MovedTasks(Long(), STRIDE, [0]), STRIDE)
    ensures Parse(Long(), 0, LONG_SIZE) == Ok(LongParse())
    ensures IsRelaid(MovedTasks(Long(), STRIDE, [0]), STRIDE, out) ==>
              var slot := Parse(out, SlotBase(0, STRIDE), STRIDE);
              slot.Ok? && slot.value.records != LongParse().records
  {
    LongIsChained();
    LongTaskParses();
    SlotBaseIsProduct(1, STRIDE);
    ChainIsRelayable(Long(), STRIDE, 1, [0]);
    if IsRelaid(MovedTasks(Long(), STRIDE, [0]), STRIDE, out) {
      RecordsSurviveIff(Long(), MovedTasks(Long(), STRIDE, [0]), STRIDE, out, 0, LONG_SIZE, LongParse());
    }
  }

  // ---- records that run past the next base ----

  const WIDE_STRIDE: nat := 0x200

  function OverrunBases(): seq<nat> {
    [0, 0x100, 0x200]
  }

  lemma OverrunIsChained()
    ensures WellChained(GapCounterexample.Overrun(1), 3, OverrunBases())
  {
    GapCounterexample.OverrunWalks(1);
    assert Link(GapCounterexample.Overrun(1), 0x200) == 0;
  }

  /** Byte 0x204 lies in the second task's record and behind its extent. */
  lemma OverrunIsNotZero(content: seq<Byte>, task: Moved)
    requires |content| == 0x300 && content[0x204] == 1 && task.base == 0x100 && task.next == 0x200
    ensures !OverrunIsZero(content, task, 0x12C)
  {
    assert Extent(|content|, task) == 0x100;
  }

  lemma OverrunFacts()
    ensures var content, parsed := GapCounterexample.Overrun(1), GapCounterexample.Tasks(1);
            && |content| == 0x300 && content[0x204] == 1 && Link(content, 0x100) == 0x200
            && |parsed| == 3 && parsed[1].records != [] && parsed[1].end == 0x12C
  {
  }

  lemma SecondTaskIsLost(content: seq<Byte>, parsed: seq<GapZeroing.Task>, tasks: seq<Moved>, out: seq<Byte>)
    requires |content| == 0x300 && content[0x204] == 1
    requires GapZeroing.ParseStream(content, 3) == Ok(parsed) && |parsed| == |tasks| == 3
    requires parsed[1].records != [] && parsed[1].end == 0x12C
    requires Collect(content, WIDE_STRIDE, 3) == Ok(tasks) && tasks[1].base == 0x100 && tasks[1].next == 0x200
    requires Fit(tasks, WIDE_STRIDE) && Relayable(tasks, WIDE_STRIDE) && IsRelaid(tasks, WIDE_STRIDE, out)
    ensures var slot := Parse(out, SlotBase(1, WIDE_STRIDE), WIDE_STRIDE);
            slot.Ok? && slot.value.records != parsed[1].records
  {
    OverrunIsNotZero(content, tasks[1]);
    RelaidRecordsSurviveIff(content, 3, parsed, tasks, WIDE_STRIDE, out, 1);
  }

  /** A stream that parses, well chained, with every record ending within the stride: relaid without an exception,
      and the second task's record reads differently. */
  lemma OverrunLosesRecords(out: seq<Byte>)
    ensures GapZeroing.ParseStream(GapCounterexample.Overrun(1), 3) == Ok(GapCounterexample.Tasks(1))
    ensures WellChained(GapCounterexample.Overrun(1), 3, OverrunBases())
    ensures var tasks := MovedTasks(GapCounterexample.Overrun(1), WIDE_STRIDE, OverrunBases());
            && Collect(GapCounterexample.Overrun(1), WIDE_STRIDE, 3) == Ok(tasks) && Relayable(tasks, WIDE_STRIDE)
            && (IsRelaid(tasks, WIDE_STRIDE, out) ==>
                  var slot := Parse(out, SlotBase(1, WIDE_STRIDE), WIDE_STRIDE);
                  slot.Ok? && slot.value.records != GapCounterexample.Tasks(1)[1].records)
  {
    var content, parsed := GapCounterexample.Overrun(1), GapCounterexample.Tasks(1);
    GapCounterexample.OverrunParses(1);
    OverrunIsChained();
    SlotBaseIsProduct(3, WIDE_STRIDE);
    ChainIsRelayable(content, WIDE_STRIDE, 3, OverrunBases());
    var tasks := MovedTasks(content, WIDE_STRIDE, OverrunBases());
    OverrunFacts();
    if IsRelaid(tasks, WIDE_STRIDE, out) {
      SecondTaskIsLost(content, parsed, tasks, out);
    }
  }
}
