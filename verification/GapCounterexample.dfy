/** Streams that parse although the bound was wrong: one record runs into the next task, and one is not read at all. */
module GapCounterexample {
  import opened GapZeroing
  import opened TaskChain
  import opened TaskParsing
  import opened Words

  const SIZE: nat := 0x300

  /** Three tasks, 0 to 0x100 to 0x200; the second holds one record of 64 words, zero but for a byte that is also
      the third task's header byte at 0x204. */
  function Overrun(extra: Byte): (content: seq<Byte>)
    ensures |content| == SIZE
  {
    seq(SIZE, k =>
      if k == 0x1D then 1 else if k == 0x11D then 2 else if k == 0x12B then 0xFC else if k == 0x204 then extra else 0)
  }

  function LongRecord(extra: Byte): Record {
    Record(HEADER_SIZE, 0, Values(Overrun(extra), 0x12C, 64))
  }

  function Tasks(extra: Byte): (tasks: seq<Task>) {
    [Task(0, [], HEADER_SIZE, true), Task(0x100, [LongRecord(extra)], 0x12C, true), Task(0x200, [], HEADER_SIZE, true)]
  }

  lemma OverrunWalks(extra: Byte)
    ensures IsWalk(Overrun(extra), SIZE, 3, [0, 0x100, 0x200])
  {
    var content := Overrun(extra);
    assert Link(content, 0) == 0x100 && Link(content, 0x100) == 0x200 && Link(content, 0x200) == 0;
  }

  /** A task whose first record word is zero. */
  lemma EmptyTask(content: seq<Byte>, base: nat, bound: nat)
    requires base + HEADER_SIZE + 4 <= |content| && bound >= HEADER_SIZE + 4
    requires Word(content, base) == 0 && Word(content, base + HEADER_SIZE) == 0
    ensures ParseOne(content, base, bound) == Ok(Task(base, [], HEADER_SIZE, true))
  {
    ParseEnds(content, base, HEADER_SIZE, bound);
  }

  /** A task whose one record holds 64 words for register 0. */
  lemma OneLongRecord(content: seq<Byte>, base: nat, bound: nat)
    requires base + 0x130 <= |content| && bound >= 0x130
    requires Word(content, base + HEADER_SIZE) == 0xFC00_0000 && Word(content, base + 0x12C) == 0
    ensures ParseFrom(content, base, HEADER_SIZE, bound) ==
            Parsed([Record(HEADER_SIZE, 0, Values(content, base + 0x2C, 64))], 0x12C, true, false)
  {
    assert WordCount(0xFC00_0000) == 64 && Register(0xFC00_0000) == 0;
    ParseStep(content, base, HEADER_SIZE, bound);
    ParseEnds(content, base, 0x12C, bound);
    var record := RecordAt(content, base, HEADER_SIZE);
    assert [record] + [] == [record];
  }

  lemma LongTask(extra: Byte)
    ensures ParseOne(Overrun(extra), 0x100, 0x200) == Ok(Task(0x100, [LongRecord(extra)], 0x12C, true))
  {
    var content := Overrun(extra);
    assert Word(content, 0x100) == 0 && Word(content, 0x128) == 0xFC00_0000 && Word(content, 0x22C) == 0;
    OneLongRecord(content, 0x100, 0x200);
  }

  lemma OverrunParses(extra: Byte)
    ensures ParseStream(Overrun(extra), 3) == Ok(Tasks(extra))
  {
    var content, tasks := Overrun(extra), Tasks(extra);
    OverrunWalks(extra);
    assert Bases(tasks) == [0, 0x100, 0x200];
    assert Word(content, 0) == 0 && Word(content, 0x28) == 0 && Word(content, 0x200) == 0 && Word(content, 0x228) == 0;
    EmptyTask(content, 0, 0x100);
    LongTask(extra);
    EmptyTask(content, 0x200, SIZE);
    forall i | 0 <= i < 3
      ensures ParseOne(content, tasks[i].base, Bound(Bases(tasks), SIZE, i)) == Ok(tasks[i])
    {
      if i == 0 {
      } else if i == 1 {
      } else {
        assert i == 2;
      }
    }
    ParseStreamIsParse(content, 3, tasks);
  }

  lemma OverrunIsUnconfined(extra: Byte)
    ensures Tasks(extra)[1].base + Tasks(extra)[1].end > Tasks(extra)[2].base && !Confined(SIZE, Tasks(extra))
  {
    var bases := Bases(Tasks(extra));
    assert bases[2] == 0x200 && bases[2] in bases;
    assert Limit(bases, SIZE, Tasks(extra)[1].base) <= 0x200;
  }

  /** The stream parses, yet its second task's record passes the third task's base: zeroing its gaps raises. */
  lemma ParseDoesNotConfine(extra: Byte)
    ensures ParseStream(Overrun(extra), 3) == Ok(Tasks(extra))
    ensures Tasks(extra)[1].base + Tasks(extra)[1].end > Tasks(extra)[2].base && !Confined(SIZE, Tasks(extra))
  {
    OverrunParses(extra);
    OverrunIsUnconfined(extra);
  }

  // ---- a bound that is too small ----

  const CUT_SIZE: nat := 0x400

  /** Three tasks, 0 to 0x200 to 0x100; the second holds a record of 53 words up to 0x300 and one of one word behind
      it. Its bound is the third task's base, 0x100, which the first record just reaches. */
  function CutShort(): (content: seq<Byte>)
    ensures |content| == CUT_SIZE
  {
    seq(CUT_SIZE, k =>
      if k == 0x1D then 2 else if k == 0x21D then 1 else if k == 0x22B then 0xD0 else if k == 0x300 then 1 else 0)
  }

  function CutRecord(): Record {
    Record(HEADER_SIZE, 0, Values(CutShort(), 0x22C, 53))
  }

  function CutTasks(): (tasks: seq<Task>) {
    [Task(0, [], HEADER_SIZE, true), Task(0x200, [CutRecord()], 0x100, false), Task(0x100, [], HEADER_SIZE, true)]
  }

  lemma CutWalks()
    ensures IsWalk(CutShort(), CUT_SIZE, 3, [0, 0x200, 0x100])
  {
    var content := CutShort();
    assert Link(content, 0) == 0x200 && Link(content, 0x200) == 0x100 && Link(content, 0x100) == 0;
  }

  /** A record of 53 words at the start of a task whose bound is just behind it. */
  lemma RecordUpToBound(content: seq<Byte>, base: nat)
    requires base + 0x100 <= |content| && Word(content, base) == 0 && Word(content, base + HEADER_SIZE) == 0xD000_0000
    ensures ParseOne(content, base, 0x100) ==
            Ok(Task(base, [Record(HEADER_SIZE, 0, Values(content, base + 0x2C, 53))], 0x100, false))
  {
    assert WordCount(0xD000_0000) == 53 && Register(0xD000_0000) == 0;
    ParseStep(content, base, HEADER_SIZE, 0x100);
    ParseEnds(content, base, 0x100, 0x100);
    var record := RecordAt(content, base, HEADER_SIZE);
    assert [record] + [] == [record];
  }

  lemma CutWords()
    ensures var content := CutShort();
            && Word(content, 0) == 0 && Word(content, 0x28) == 0 && Word(content, 0x100) == 0
            && Word(content, 0x128) == 0 && Word(content, 0x200) == 0 && Word(content, 0x228) == 0xD000_0000
            && Word(content, 0x300) == 1
  {
  }

  lemma CutParses()
    ensures ParseStream(CutShort(), 3) == Ok(CutTasks())
  {
    var content, tasks := CutShort(), CutTasks();
    CutWalks();
    CutWords();
    assert Bases(tasks) == [0, 0x200, 0x100];
    EmptyTask(content, 0, 0x200);
    RecordUpToBound(content, 0x200);
    EmptyTask(content, 0x100, CUT_SIZE);
    forall i | 0 <= i < 3
      ensures ParseOne(content, tasks[i].base, Bound(Bases(tasks), CUT_SIZE, i)) == Ok(tasks[i])
    {
      if i == 0 {
      } else if i == 1 {
      } else {
        assert i == 2;
      }
    }
    ParseStreamIsParse(content, 3, tasks);
  }

  lemma CutIsConfined()
    ensures Confined(CUT_SIZE, CutTasks()) && Room(CutShort(), CutTasks(), 1) == 0x200
  {
    assert Bases(CutTasks()) == [0, 0x200, 0x100];
    assert forall b :: b in [0, 0x200, 0x100] ==> b == 0 || b == 0x200 || b == 0x100;
  }

  /** The stream parses and is confined, and zeroing its gaps raises nothing: yet the second task's slot holds another
      record, which the parse did not read and the zeroing erases. */
  lemma ZeroingErasesRecord(out: seq<Byte>)
    ensures ParseStream(CutShort(), 3) == Ok(CutTasks()) && Confined(CUT_SIZE, CutTasks())
    ensures Continues(CutShort(), 0x200, 0x100, 0x200)
    ensures IsZeroed(CutShort(), CutTasks(), out) ==> !SameSlotRecords(CutShort(), CutTasks(), out, 1)
  {
    CutParses();
    CutIsConfined();
    CutWords();
    if IsZeroed(CutShort(), CutTasks(), out) {
      ZeroingKeepsSlotIff(CutShort(), 3, CutTasks(), out, 1);
    }
  }
}
