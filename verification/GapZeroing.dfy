/** Parsing a whole task stream, and zeroing the bytes between its tasks. */
module GapZeroing {
  import opened Sorting
  import opened Words
  import opened TaskParsing
  import opened TaskChain

  datatype Task = Task(base: nat, records: seq<Record>, end: nat, terminated: bool)

  function Bases(tasks: seq<Task>): (bases: seq<nat>)
    ensures |bases| == |tasks| && forall i :: 0 <= i < |tasks| ==> bases[i] == tasks[i].base
  {
    seq(|tasks|, i requires 0 <= i < |tasks| => tasks[i].base)
  }

  /** The bound handed to the parse: the ABSOLUTE base of the next task in chain
      order, although the parse compares it with a task-relative position. */
  function Bound(bases: seq<nat>, size: nat, i: nat): nat
    requires i < |bases|
  {
    if i + 1 < |bases| then bases[i + 1] else size
  }

  function ParseOne(content: seq<Byte>, base: nat, bound: nat): (r: Result<Task>) {
    var p :- Parse(content, base, bound);
    if p.truncated || !(p.terminated || p.end >= bound) then Err(AssertionError)
    else Ok(Task(base, p.records, p.end, p.terminated))
  }

  /** The first `n` tasks; the first one that fails fails the whole. */
  function ParseAll(content: seq<Byte>, bases: seq<nat>, n: nat): (r: Result<seq<Task>>)
    requires n <= |bases|
  {
    if n == 0 then Ok([])
    else
      var before :- ParseAll(content, bases, n - 1);
      var task :- ParseOne(content, bases[n - 1], Bound(bases, |content|, n - 1));
      Ok(before + [task])
  }

  function ParseStream(content: seq<Byte>, count: nat): (r: Result<seq<Task>>) {
    var bases :- WalkFrom(content, |content|, count, 0, {});
    if |bases| != count then Err(AssertionError) else ParseAll(content, bases, count)
  }

  method ParseTaskStream(content: seq<Byte>, count: nat) returns (r: Result<seq<Task>>)
    ensures r == ParseStream(content, count)
  {
    var bases :- WalkChain(content, |content|, count);
    if |bases| != count {
      return Err(AssertionError);
    }
    var tasks: seq<Task> := [];
    for i := 0 to |bases|
      invariant ParseAll(content, bases, i) == Ok(tasks)
    {
      ghost var one := ParseOne(content, bases[i], Bound(bases, |content|, i));
      if one.Err? {
        FirstFailure(content, bases, i + 1, |bases|);
      }
      var bound := if i + 1 < |bases| then bases[i + 1] else |content|;
      var p :- ParseTask(content, bases[i], bound);
      if p.truncated {
        return Err(AssertionError);
      }
      if !(p.terminated || p.end >= bound) {
        return Err(AssertionError);
      }
      assert p.end >= HEADER_SIZE;
      var task := Task(bases[i], p.records, p.end, p.terminated);
      tasks := tasks + [task];
    }
    r := Ok(tasks);
  }

  /** A stream parses to `tasks` exactly when their bases are its walk and each
      task is what its own bound-limited parse yields. */
  ghost predicate IsParse(content: seq<Byte>, count: nat, tasks: seq<Task>) {
    && |tasks| == count
    && IsWalk(content, |content|, count, Bases(tasks))
    && forall i :: 0 <= i < count ==>
         ParseOne(content, tasks[i].base, Bound(Bases(tasks), |content|, i)) == Ok(tasks[i])
  }

  lemma ParseStreamIsParse(content: seq<Byte>, count: nat, tasks: seq<Task>)
    ensures ParseStream(content, count) == Ok(tasks) <==> IsParse(content, count, tasks)
  {
    if ParseStream(content, count) == Ok(tasks) {
      StreamParses(content, count, tasks);
    }
    if IsParse(content, count, tasks) {
      ParseIsOfStream(content, count, tasks);
    }
  }

  lemma StreamParses(content: seq<Byte>, count: nat, tasks: seq<Task>)
    requires ParseStream(content, count) == Ok(tasks)
    ensures IsParse(content, count, tasks)
  {
    var bases := WalkFrom(content, |content|, count, 0, {}).value;
    WalkIsPath(content, |content|, count, bases);
    ParseAllIsEach(content, bases, |bases|, tasks);
    EachHasItsBase(content, bases, tasks);
  }

  lemma EachHasItsBase(content: seq<Byte>, bases: seq<nat>, tasks: seq<Task>)
    requires |tasks| == |bases|
    requires forall j :: 0 <= j < |bases| ==> ParseOne(content, bases[j], Bound(bases, |content|, j)) == Ok(tasks[j])
    ensures Bases(tasks) == bases
  {
    forall j | 0 <= j < |bases|
      ensures tasks[j].base == bases[j]
    {
      assert ParseOne(content, bases[j], Bound(bases, |content|, j)) == Ok(tasks[j]);
    }
  }

  lemma ParseIsOfStream(content: seq<Byte>, count: nat, tasks: seq<Task>)
    requires IsParse(content, count, tasks)
    ensures ParseStream(content, count) == Ok(tasks)
  {
    var bases := Bases(tasks);
    WalkIsPath(content, |content|, count, bases);
    ParseAllIsEach(content, bases, |bases|, tasks);
  }

  lemma {:induction false} ParseAllIsEach(content: seq<Byte>, bases: seq<nat>, n: nat, tasks: seq<Task>)
    requires n <= |bases|
    ensures ParseAll(content, bases, n) == Ok(tasks) <==>
            |tasks| == n &&
            forall j :: 0 <= j < n ==> ParseOne(content, bases[j], Bound(bases, |content|, j)) == Ok(tasks[j])
  {
    if n > 0 && tasks != [] {
      var before, last := tasks[..|tasks| - 1], tasks[|tasks| - 1];
      assert tasks == before + [last];
      ParseAllIsEach(content, bases, n - 1, before);
    }
  }

  lemma {:induction false} FirstFailure(content: seq<Byte>, bases: seq<nat>, m: nat, n: nat)
    requires m <= n <= |bases| && ParseAll(content, bases, m).Err?
    ensures ParseAll(content, bases, n) == ParseAll(content, bases, m)
  {
    if m < n {
      FirstFailure(content, bases, m, n - 1);
    }
  }

  // ---- gaps ----

  /** The end of the slot at `base`: the next base up in address order, or the stream end. */
  function Limit(bases: seq<nat>, size: nat, base: nat): (limit: nat)
    ensures forall b :: b in bases && b > base ==> limit <= b
    ensures limit <= size && (limit == size || (limit in bases && limit > base))
  {
    if bases == [] then size
    else
      var rest := Limit(bases[1..], size, base);
      assert bases == [bases[0]] + bases[1..];
      if base < bases[0] < rest then bases[0] else rest
  }

  ghost predicate InGapOf(size: nat, tasks: seq<Task>, i: nat, k: nat)
    requires i < |tasks|
  {
    tasks[i].base + tasks[i].end <= k < Limit(Bases(tasks), size, tasks[i].base)
  }

  /** Byte `k` lies in the gap of one of the first `n` tasks. */
  ghost predicate InGapOfFirst(size: nat, tasks: seq<Task>, n: nat, k: nat)
    requires n <= |tasks|
  {
    exists i :: 0 <= i < n && InGapOf(size, tasks, i, k)
  }

  ghost predicate InGap(size: nat, tasks: seq<Task>, k: nat) {
    InGapOfFirst(size, tasks, |tasks|, k)
  }

  ghost predicate ConfinedUpTo(size: nat, tasks: seq<Task>, n: nat)
    requires n <= |tasks|
  {
    forall i :: 0 <= i < n ==> tasks[i].base + tasks[i].end <= Limit(Bases(tasks), size, tasks[i].base)
  }

  /** No record area passes the next base. */
  ghost predicate Confined(size: nat, tasks: seq<Task>) {
    ConfinedUpTo(size, tasks, |tasks|)
  }

  ghost predicate ZeroedUpTo(content: seq<Byte>, tasks: seq<Task>, n: nat, out: seq<Byte>)
    requires n <= |tasks|
  {
    && |out| == |content|
    && forall k :: 0 <= k < |content| ==> out[k] == if InGapOfFirst(|content|, tasks, n, k) then 0 else content[k]
  }

  /** `out` is `content` with its gaps, and nothing else, zeroed. */
  ghost predicate IsZeroed(content: seq<Byte>, tasks: seq<Task>, out: seq<Byte>) {
    ZeroedUpTo(content, tasks, |tasks|, out)
  }

  /** The header and records of task `i` lie in no gap, its own or another's. */
  lemma AreaIsNoGap(content: seq<Byte>, tasks: seq<Task>, i: nat, k: nat)
    requires Confined(|content|, tasks) && Distinct(Bases(tasks)) && i < |tasks|
    requires tasks[i].base <= k < tasks[i].base + tasks[i].end
    ensures !InGap(|content|, tasks, k)
  {
    var bases := Bases(tasks);
    forall j | 0 <= j < |tasks|
      ensures !InGapOf(|content|, tasks, j, k)
    {
      assert bases[i] in bases && bases[j] in bases;
      if bases[i] == bases[j] {
        assert i == j;
      }
    }
  }

  lemma AreaSurvives(content: seq<Byte>, tasks: seq<Task>, out: seq<Byte>, i: nat)
    requires IsZeroed(content, tasks, out) && Confined(|content|, tasks) && Distinct(Bases(tasks)) && i < |tasks|
    ensures SameBytes(content, tasks[i].base, out, tasks[i].base, tasks[i].end)
  {
    forall k | tasks[i].base <= k < tasks[i].base + tasks[i].end && k < |content|
      ensures content[k] == out[k]
    {
      AreaIsNoGap(content, tasks, i, k);
    }
  }

  /** A parse that keeps its bytes and still stops at its end is the same parse. */
  lemma SameParse(content: seq<Byte>, out: seq<Byte>, base: nat, bound: nat, task: Task)
    requires |out| == |content| && ParseOne(content, base, bound) == Ok(task) && task.end <= bound
    requires SameBytes(content, base, out, base, task.end) && Stops(out, base, task.end, bound)
    ensures ParseOne(out, base, bound) == Ok(task)
  {
    var pos := RecordStart(content, base);
    ParseShape(content, base, pos, bound);
    SameWord(content, base, out, base, task.end, base);
    ParseTransfers(content, base, bound, out, base, bound, pos);
  }

  lemma OneShape(content: seq<Byte>, base: nat, bound: nat, task: Task)
    requires ParseOne(content, base, bound) == Ok(task)
    ensures task.base == base && task.end >= HEADER_SIZE && task.end % 4 == 0
    ensures bound >= 0x100 ==> task.end <= bound
    ensures Stops(content, base, task.end, bound)
  {
    EndIsWordAligned(content, base, RecordStart(content, base), bound);
    ParseShape(content, base, RecordStart(content, base), bound);
    AlignedEnd(RecordStart(content, base), task.end);
  }

  lemma AlignedEnd(from: nat, to: nat)
    requires Aligned(from, to) && from % 4 == 0
    ensures to % 4 == 0
  {
  }

  lemma WalkShape(content: seq<Byte>, size: nat, count: nat, bases: seq<nat>, i: nat)
    requires IsWalk(content, size, count, bases) && i < |bases|
    ensures bases[i] % 0x100 == 0 && (i > 0 ==> bases[i] >= 0x100)
  {
    if i > 0 {
      assert LinkFits(bases[i], size) && Link(content, bases[i - 1]) == bases[i] != 0;
    }
  }

  /** What the proofs below need of a parsed stream: no parse is mentioned. */
  ghost predicate Shaped(size: nat, tasks: seq<Task>) {
    && Distinct(Bases(tasks))
    && forall i :: 0 <= i < |tasks| ==>
         && tasks[i].base % 0x100 == 0 && tasks[i].end >= HEADER_SIZE && tasks[i].end % 4 == 0
         && tasks[i].base + tasks[i].end <= size
  }

  lemma ParseIsShaped(content: seq<Byte>, count: nat, tasks: seq<Task>)
    requires IsParse(content, count, tasks) && Confined(|content|, tasks)
    ensures Shaped(|content|, tasks)
  {
    forall i | 0 <= i < count
      ensures tasks[i].base % 0x100 == 0 && tasks[i].end >= HEADER_SIZE && tasks[i].end % 4 == 0
      ensures tasks[i].base + tasks[i].end <= |content|
    {
      WalkShape(content, |content|, count, Bases(tasks), i);
      OneShape(content, tasks[i].base, Bound(Bases(tasks), |content|, i), tasks[i]);
    }
  }

  /** The terminator either lies in the gap and becomes four zero bytes, or is
      the header of the next task. */
  lemma TerminatorSurvives(content: seq<Byte>, tasks: seq<Task>, out: seq<Byte>, i: nat)
    requires Shaped(|content|, tasks) && Confined(|content|, tasks) && IsZeroed(content, tasks, out) && i < |tasks|
    requires var stop := tasks[i].base + tasks[i].end;
             stop + 4 <= |content| && Word(content, stop) == 0
    ensures Word(out, tasks[i].base + tasks[i].end) == 0
  {
    var stop, limit := tasks[i].base + tasks[i].end, Limit(Bases(tasks), |content|, tasks[i].base);
    if stop + 4 <= limit {
      GapIsZero(content, tasks, out, i, stop);
      GapIsZero(content, tasks, out, i, stop + 1);
      GapIsZero(content, tasks, out, i, stop + 2);
      GapIsZero(content, tasks, out, i, stop + 3);
    } else {
      HeaderAtLimit(content, tasks, out, i);
    }
  }

  lemma GapIsZero(content: seq<Byte>, tasks: seq<Task>, out: seq<Byte>, i: nat, k: nat)
    requires IsZeroed(content, tasks, out) && i < |tasks| && k < |content| && InGapOf(|content|, tasks, i, k)
    ensures out[k] == 0
  {
    assert InGap(|content|, tasks, k);
  }

  lemma HeaderAtLimit(content: seq<Byte>, tasks: seq<Task>, out: seq<Byte>, i: nat)
    requires Shaped(|content|, tasks) && Confined(|content|, tasks) && IsZeroed(content, tasks, out) && i < |tasks|
    requires var stop := tasks[i].base + tasks[i].end;
             Limit(Bases(tasks), |content|, tasks[i].base) < stop + 4 <= |content|
    ensures var stop := tasks[i].base + tasks[i].end;
            Word(out, stop) == Word(content, stop)
  {
    var stop, limit := tasks[i].base + tasks[i].end, Limit(Bases(tasks), |content|, tasks[i].base);
    var j :| 0 <= j < |tasks| && Bases(tasks)[j] == limit;
    AlignedNeighbours(tasks[i].base, tasks[i].end, tasks[j].base);
    AreaSurvives(content, tasks, out, j);
    SameWord(content, stop, out, stop, tasks[j].end, stop);
  }

  lemma AlignedNeighbours(base: nat, end: nat, next: nat)
    requires base % 0x100 == 0 && next % 0x100 == 0 && end % 4 == 0 && base + end <= next < base + end + 4
    ensures next == base + end
  {
    var b, n, e := base / 0x100, next / 0x100, end / 4;
    assert next - base - end == 4 * (0x40 * n - 0x40 * b - e);
  }

  /** A walk depends on the links of its bases alone. */
  lemma WalkTransfers(content: seq<Byte>, out: seq<Byte>, count: nat, bases: seq<nat>)
    requires |out| == |content| && IsWalk(content, |content|, count, bases)
    requires forall i :: 0 <= i < |bases| ==>
               bases[i] + 0x20 <= |content| && Link(out, bases[i]) == Link(content, bases[i])
    ensures IsWalk(out, |out|, count, bases)
  {
  }

  lemma WalkSurvives(content: seq<Byte>, count: nat, tasks: seq<Task>, out: seq<Byte>)
    requires IsParse(content, count, tasks) && Confined(|content|, tasks) && IsZeroed(content, tasks, out)
    ensures IsWalk(out, |out|, count, Bases(tasks))
  {
    ParseIsShaped(content, count, tasks);
    var bases := Bases(tasks);
    forall i | 0 <= i < count
      ensures bases[i] + 0x20 <= |content| && Link(out, bases[i]) == Link(content, bases[i])
    {
      AreaSurvives(content, tasks, out, i);
      SameWord(content, bases[i], out, bases[i], tasks[i].end, bases[i] + NEXT_POINTER);
    }
    WalkTransfers(content, out, count, bases);
  }

  lemma BoundCoversEnd(content: seq<Byte>, count: nat, tasks: seq<Task>, i: nat)
    requires IsParse(content, count, tasks) && Shaped(|content|, tasks) && i < count
    ensures tasks[i].end <= Bound(Bases(tasks), |content|, i)
  {
    if i + 1 < count {
      WalkShape(content, |content|, count, Bases(tasks), i + 1);
      OneShape(content, tasks[i].base, Bound(Bases(tasks), |content|, i), tasks[i]);
    }
  }

  /** Soundness: the stream with its gaps zeroed parses to the very same tasks. */
  lemma ZeroedParsesTheSame(content: seq<Byte>, count: nat, tasks: seq<Task>, out: seq<Byte>)
    requires ParseStream(content, count) == Ok(tasks) && Confined(|content|, tasks) && IsZeroed(content, tasks, out)
    ensures ParseStream(out, count) == Ok(tasks) && Confined(|out|, tasks)
  {
    ParseStreamIsParse(content, count, tasks);
    ParseIsShaped(content, count, tasks);
    forall i | 0 <= i < count
      ensures ParseOne(out, tasks[i].base, Bound(Bases(tasks), |out|, i)) == Ok(tasks[i])
    {
      var bound := Bound(Bases(tasks), |content|, i);
      OneShape(content, tasks[i].base, bound, tasks[i]);
      BoundCoversEnd(content, count, tasks, i);
      AreaSurvives(content, tasks, out, i);
      if InReach(out, tasks[i].base, tasks[i].end, bound) {
        TerminatorSurvives(content, tasks, out, i);
      }
      SameParse(content, out, tasks[i].base, bound, tasks[i]);
    }
    WalkSurvives(content, count, tasks, out);
    ParseStreamIsParse(out, count, tasks);
  }

  /** What the operation returned is parsed, confined and returned unchanged by the operation itself. */
  lemma ZeroingIsIdempotent(content: seq<Byte>, count: nat, tasks: seq<Task>, out: seq<Byte>, again: seq<Byte>)
    requires ParseStream(content, count) == Ok(tasks) && Confined(|content|, tasks) && IsZeroed(content, tasks, out)
    ensures ParseStream(out, count) == Ok(tasks) && Confined(|out|, tasks)
    ensures IsZeroed(out, tasks, again) <==> again == out
  {
    ZeroedParsesTheSame(content, count, tasks, out);
    if IsZeroed(out, tasks, again) {
      assert forall k :: 0 <= k < |out| ==> again[k] == out[k];
    }
  }

  /** Between neighbours of an ascending list there is no element. */
  lemma NothingBetween(sorted: seq<nat>, i: nat, b: nat)
    requires Ascending(sorted) && i < |sorted| && b in sorted && b > sorted[i]
    ensures i + 1 < |sorted| && sorted[i + 1] <= b
  {
    var j :| 0 <= j < |sorted| && sorted[j] == b;
    if j > i + 1 {
      assert sorted[i + 1] < sorted[j];
    }
  }

  /** In the sorted bases the next one up is the limit of the slot. */
  lemma NextSortedIsLimit(bases: seq<nat>, size: nat, i: nat)
    requires Distinct(bases) && i < |bases| && forall b :: b in bases ==> b < size
    ensures var sorted := Sorted(bases);
            Limit(bases, size, sorted[i]) == if i + 1 < |sorted| then sorted[i + 1] else size
  {
    var sorted := Sorted(bases);
    var limit := Limit(bases, size, sorted[i]);
    if i + 1 < |sorted| {
      assert sorted[i + 1] in sorted;
    }
    if limit in bases && limit > sorted[i] {
      NothingBetween(sorted, i, limit);
    }
  }

  /** The limits of the first `n` sorted bases are in the map. */
  ghost predicate LimitsUpTo(bases: seq<nat>, size: nat, sorted: seq<nat>, n: nat, bounds: map<nat, nat>) {
    && n <= |sorted|
    && forall j :: 0 <= j < n ==> sorted[j] in bounds && bounds[sorted[j]] == Limit(bases, size, sorted[j])
  }

  lemma LimitIsStored(bases: seq<nat>, size: nat, sorted: seq<nat>, i: nat, bounds: map<nat, nat>, limit: nat)
    requires i < |sorted| && LimitsUpTo(bases, size, sorted, i, bounds) && limit == Limit(bases, size, sorted[i])
    ensures LimitsUpTo(bases, size, sorted, i + 1, bounds[sorted[i] := limit])
  {
  }

  method SlotLimits(bases: seq<nat>, size: nat) returns (bounds: map<nat, nat>)
    requires Distinct(bases) && forall b :: b in bases ==> b < size
    ensures forall b :: b in bases ==> b in bounds && bounds[b] == Limit(bases, size, b)
  {
    var sorted := Sorted(bases);
    bounds := map[];
    for i := 0 to |sorted|
      invariant LimitsUpTo(bases, size, sorted, i, bounds)
    {
      NextSortedIsLimit(bases, size, i);
      var limit := if i + 1 < |sorted| then sorted[i + 1] else size;
      LimitIsStored(bases, size, sorted, i, bounds, limit);
      bounds := bounds[sorted[i] := limit];
    }
    LimitsOfAll(bases, size, sorted, bounds);
  }

  lemma LimitsOfAll(bases: seq<nat>, size: nat, sorted: seq<nat>, bounds: map<nat, nat>)
    requires forall b :: b in bases ==> b in sorted
    requires LimitsUpTo(bases, size, sorted, |sorted|, bounds)
    ensures forall b :: b in bases ==> b in bounds && bounds[b] == Limit(bases, size, b)
  {
    forall b | b in bases
      ensures b in bounds && bounds[b] == Limit(bases, size, b)
    {
      var j :| 0 <= j < |sorted| && sorted[j] == b;
    }
  }

  /** The limits of all tasks' slots. */
  ghost predicate AreLimits(size: nat, tasks: seq<Task>, bounds: map<nat, nat>) {
    forall i :: 0 <= i < |tasks| ==>
      tasks[i].base in bounds && bounds[tasks[i].base] == Limit(Bases(tasks), size, tasks[i].base)
  }

  /** mutated[end:limit] = bytes(limit - end), which raises on a negative count. */
  method ZeroGap(ghost content: seq<Byte>, tasks: seq<Task>, bounds: map<nat, nat>, n: nat, before: seq<Byte>)
    returns (r: Result<seq<Byte>>)
    requires AreLimits(|content|, tasks, bounds) && n < |tasks|
    requires ZeroedUpTo(content, tasks, n, before) && ConfinedUpTo(|content|, tasks, n)
    ensures r.Ok? ==> ZeroedUpTo(content, tasks, n + 1, r.value) && ConfinedUpTo(|content|, tasks, n + 1)
    ensures r.Err? ==> r == Err(ValueError) && !Confined(|content|, tasks)
  {
    var end, limit := tasks[n].base + tasks[n].end, bounds[tasks[n].base];
    if limit < end {
      return Err(ValueError);
    }
    GapIsNext(content, tasks, n, before, limit);
    r := Ok(ZeroRange(before, end, limit));
  }

  /** The zeroing loop. */
  method ZeroEachGap(content: seq<Byte>, tasks: seq<Task>, bounds: map<nat, nat>) returns (r: Result<seq<Byte>>)
    requires AreLimits(|content|, tasks, bounds)
    ensures if Confined(|content|, tasks) then r.Ok? && IsZeroed(content, tasks, r.value) else r == Err(ValueError)
  {
    var mutated := content;
    for n := 0 to |tasks|
      invariant ZeroedUpTo(content, tasks, n, mutated)
      invariant ConfinedUpTo(|content|, tasks, n)
    {
      var step := ZeroGap(content, tasks, bounds, n, mutated);
      if step.Err? {
        return step;
      }
      mutated := step.value;
    }
    r := Ok(mutated);
  }

  lemma GapIsNext(content: seq<Byte>, tasks: seq<Task>, n: nat, before: seq<Byte>, limit: nat)
    requires n < |tasks| && ZeroedUpTo(content, tasks, n, before)
    requires tasks[n].base + tasks[n].end <= limit == Limit(Bases(tasks), |content|, tasks[n].base)
    ensures ZeroedUpTo(content, tasks, n + 1, ZeroRange(before, tasks[n].base + tasks[n].end, limit))
  {
    assert forall k :: InGapOfFirst(|content|, tasks, n + 1, k) <==>
                       InGapOfFirst(|content|, tasks, n, k) || InGapOf(|content|, tasks, n, k);
  }

  lemma LimitsOfBases(size: nat, tasks: seq<Task>, bounds: map<nat, nat>)
    requires forall b :: b in Bases(tasks) ==> b in bounds && bounds[b] == Limit(Bases(tasks), size, b)
    ensures AreLimits(size, tasks, bounds)
  {
    forall i | 0 <= i < |tasks|
      ensures tasks[i].base in bounds && bounds[tasks[i].base] == Limit(Bases(tasks), size, tasks[i].base)
    {
      assert Bases(tasks)[i] in Bases(tasks);
    }
  }

  /** Zeroing succeeds exactly when the stream parses and is confined; then the
      re-parse and every later assertion hold, and the three results are tied. */
  method ZeroGaps(content: seq<Byte>, count: nat) returns (r: Result<(seq<Byte>, seq<Task>, seq<Task>)>)
    ensures ParseStream(content, count).Err? ==> r == Err(ParseStream(content, count).fault)
    ensures ParseStream(content, count).Ok? ==>
              var tasks := ParseStream(content, count).value;
              if Confined(|content|, tasks) then
                r.Ok? && r.value.1 == tasks && r.value.2 == tasks && IsZeroed(content, tasks, r.value.0)
              else
                r == Err(ValueError)
  {
    var tasks :- ParseTaskStream(content, count);
    ParsedBases(content, count, tasks);
    var bounds := SlotLimits(Bases(tasks), |content|);
    LimitsOfBases(|content|, tasks, bounds);
    var mutated :- ZeroEachGap(content, tasks, bounds);
    ZeroedParsesTheSame(content, count, tasks, mutated);
    var after := ParseTaskStream(mutated, count);
    assert after == Ok(tasks);
    ParseStreamIsParse(content, count, tasks);
    EveryAreaSurvives(content, count, tasks, mutated);
    assert forall i :: 0 <= i < |tasks| ==> SameBytes(content, tasks[i].base, mutated, tasks[i].base, tasks[i].end);
    r := Ok((mutated, tasks, after.value));
  }

  lemma ParsedBases(content: seq<Byte>, count: nat, tasks: seq<Task>)
    requires ParseStream(content, count) == Ok(tasks)
    ensures Distinct(Bases(tasks)) && forall b :: b in Bases(tasks) ==> b < |content|
  {
    ParseStreamIsParse(content, count, tasks);
  }

  lemma EveryAreaSurvives(content: seq<Byte>, count: nat, tasks: seq<Task>, out: seq<Byte>)
    requires IsParse(content, count, tasks) && Confined(|content|, tasks) && IsZeroed(content, tasks, out)
    ensures forall i :: 0 <= i < |tasks| ==> SameBytes(content, tasks[i].base, out, tasks[i].base, tasks[i].end)
  {
    forall i | 0 <= i < |tasks|
      ensures SameBytes(content, tasks[i].base, out, tasks[i].base, tasks[i].end)
    {
      AreaSurvives(content, tasks, out, i);
    }
  }

  // ---- the bound the parse is meant to have ----

  /** What lies at a task's base up to the end of its own slot. */
  function SlotParse(content: seq<Byte>, bases: seq<nat>, base: nat): Parsed
    requires base + 4 <= |content|
  {
    ParseFrom(content, base, RecordStart(content, base), Limit(bases, |content|, base) - base)
  }

  /** A completed parse, taken up again at its end under a bound that leaves room for it, is the parse under that
      bound. */
  lemma {:induction false} ParseGoesOn(content: seq<Byte>, base: nat, pos: nat, bound: int, other: int)
    requires var p := ParseFrom(content, base, pos, bound);
             !p.truncated && (p.records == [] || p.end <= other)
    ensures var p := ParseFrom(content, base, pos, bound);
            IsRest(ParseFrom(content, base, pos, other), p.records, ParseFrom(content, base, p.end, other))
    decreases |content| - (base + pos)
  {
    var p := ParseFrom(content, base, pos, bound);
    ParseShape(content, base, pos, bound);
    if p.records != [] {
      ParseEnds(content, base, pos, bound);
      ParseStep(content, base, pos, bound);
      var next := pos + 4 + 4 * WordCount(Word(content, base + pos));
      var record, rest := RecordAt(content, base, pos), ParseFrom(content, base, next, bound);
      ParseGoesOn(content, base, next, bound, other);
      ParseStep(content, base, pos, other);
      RestBehindRecord(
        record, ParseFrom(content, base, next, other), rest.records, ParseFrom(content, base, p.end, other),
        ParseFrom(content, base, pos, other));
    }
  }

  lemma RestBehindRecord(record: Record, tail: Parsed, read: seq<Record>, rest: Parsed, whole: Parsed)
    requires IsRest(tail, read, rest)
    requires whole == Parsed([record] + tail.records, tail.end, tail.terminated, tail.truncated)
    ensures IsRest(whole, [record] + read, rest)
  {
    assert [record] + (read + rest.records) == ([record] + read) + rest.records;
  }

  /** Records that a parse found last end where they end, inside its bound. */
  lemma LastRecordFits(content: seq<Byte>, base: nat, pos: nat, bound: int, records: seq<Record>)
    requires records != [] && records <= ParseFrom(content, base, pos, bound).records
    ensures EndOf(pos, records) <= bound
  {
    AllRecordsFit(content, base, pos, bound, |records| - 1);
  }

  lemma {:induction false} AllRecordsFit(content: seq<Byte>, base: nat, pos: nat, bound: int, i: nat)
    requires i < |ParseFrom(content, base, pos, bound).records|
    ensures Next(ParseFrom(content, base, pos, bound).records[i]) <= bound
    decreases i
  {
    ParseEnds(content, base, pos, bound);
    ParseStep(content, base, pos, bound);
    if i > 0 {
      AllRecordsFit(content, base, pos + 4 + 4 * WordCount(Word(content, base + pos)), bound, i - 1);
    }
  }

  /** A parsed stream is confined if and only if the stream holds every record area, and every record read
      is also read when the parse is bounded by the task's own slot. */
  lemma ConfinedIff(content: seq<Byte>, count: nat, tasks: seq<Task>)
    requires ParseStream(content, count) == Ok(tasks)
    ensures Confined(|content|, tasks) <==>
            forall i :: 0 <= i < |tasks| ==> HoldsOwnRecords(content, tasks, i)
  {
    ParseStreamIsParse(content, count, tasks);
    forall i | 0 <= i < |tasks|
      ensures HoldsOwnRecords(content, tasks, i) <==>
              tasks[i].base + tasks[i].end <= Limit(Bases(tasks), |content|, tasks[i].base)
    {
      ConfinedTask(content, count, tasks, i);
    }
  }

  predicate HoldsOwnRecords(content: seq<Byte>, tasks: seq<Task>, i: nat)
    requires i < |tasks|
  {
    && tasks[i].base + 4 <= |content| && tasks[i].base + tasks[i].end <= |content|
    && tasks[i].records <= SlotParse(content, Bases(tasks), tasks[i].base).records
  }

  lemma ConfinedTask(content: seq<Byte>, count: nat, tasks: seq<Task>, i: nat)
    requires IsParse(content, count, tasks) && i < count
    ensures HoldsOwnRecords(content, tasks, i) <==>
            tasks[i].base + tasks[i].end <= Limit(Bases(tasks), |content|, tasks[i].base)
  {
    var base, bases := tasks[i].base, Bases(tasks);
    forall b | b in bases && b > base
      ensures base + 0x100 <= b
    {
      var j :| 0 <= j < |bases| && bases[j] == b;
      WalkShape(content, |content|, count, bases, i);
      WalkShape(content, |content|, count, bases, j);
      GridApart(base, b);
    }
    TaskConfinedIff(content, bases, Bound(bases, |content|, i), tasks[i]);
  }

  lemma TaskConfinedIff(content: seq<Byte>, bases: seq<nat>, bound: nat, task: Task)
    requires ParseOne(content, task.base, bound) == Ok(task)
    requires forall b :: b in bases && b > task.base ==> task.base + 0x100 <= b
    ensures task.base + 4 <= |content|
    ensures task.base + task.end <= Limit(bases, |content|, task.base) <==>
            task.base + task.end <= |content| && task.records <= SlotParse(content, bases, task.base).records
  {
    var base, pos, room := task.base, RecordStart(content, task.base), Limit(bases, |content|, task.base) - task.base;
    ParseShape(content, base, pos, bound);
    if task.records != [] {
      EndFitsIff(content, base, pos, bound, room);
    }
  }

  /** Records end within another bound if and only if they are all read under it. */
  lemma EndFitsIff(content: seq<Byte>, base: nat, pos: nat, bound: int, other: int)
    requires !ParseFrom(content, base, pos, bound).truncated && ParseFrom(content, base, pos, bound).records != []
    ensures var p := ParseFrom(content, base, pos, bound);
            p.end <= other <==> p.records <= ParseFrom(content, base, pos, other).records
  {
    var p := ParseFrom(content, base, pos, bound);
    ParsedIsLaid(content, base, pos, bound);
    if p.end <= other {
      ParseGoesOn(content, base, pos, bound, other);
    }
    if p.records <= ParseFrom(content, base, pos, other).records {
      LastRecordFits(content, base, pos, other, p.records);
    }
  }

  /** Under its own slot's bound a confined task is read whole, and nothing else with it, if and only if the
      records stop where they ended: always behind a terminator, but not where the bound of a task that
      links backwards cut the reading short. */
  lemma SlotParseIsTaskIff(content: seq<Byte>, bases: seq<nat>, bound: nat, task: Task)
    requires ParseOne(content, task.base, bound) == Ok(task)
    requires task.base + task.end <= Limit(bases, |content|, task.base)
    ensures task.base + 4 <= |content|
    ensures var own := SlotParse(content, bases, task.base);
            !own.truncated && own.records == task.records && own.end == task.end <==>
            Stops(content, task.base, task.end, Limit(bases, |content|, task.base) - task.base)
    ensures task.terminated ==>
              Stops(content, task.base, task.end, Limit(bases, |content|, task.base) - task.base)
  {
    ParseShape(content, task.base, RecordStart(content, task.base), bound);
    ReadUnderBothIff(content, task.base, bound, Limit(bases, |content|, task.base) - task.base, task);
  }

  /** A completed parse is the parse under another bound that holds it if and only if it stops there too. */
  lemma SameUnderBothIff(content: seq<Byte>, base: nat, pos: nat, bound: int, other: int)
    requires var p := ParseFrom(content, base, pos, bound);
             !p.truncated && p.end <= other
    ensures var p, q := ParseFrom(content, base, pos, bound), ParseFrom(content, base, pos, other);
            && (!q.truncated && q.records == p.records && q.end == p.end <==> Stops(content, base, p.end, other))
            && (q.records == p.records <==> !Continues(content, base, p.end, other))
  {
    var end := ParseFrom(content, base, pos, bound).end;
    ParseGoesOn(content, base, pos, bound, other);
    ParseShape(content, base, end, other);
    FirstRecordIff(content, base, end, other);
  }

  /** A record can be read at `pos`. */
  predicate Continues(content: seq<Byte>, base: nat, pos: nat, bound: int) {
    && InReach(content, base, pos, bound) && Word(content, base + pos) != 0
    && var next := pos + 4 + 4 * WordCount(Word(content, base + pos));
       next <= bound && base + next <= |content|
  }

  lemma FirstRecordIff(content: seq<Byte>, base: nat, pos: nat, bound: int)
    ensures var p := ParseFrom(content, base, pos, bound);
            && (p.records != [] <==> Continues(content, base, pos, bound))
            && (p.records == [] && !p.truncated <==> Stops(content, base, pos, bound))
  {
    ParseEnds(content, base, pos, bound);
    if InReach(content, base, pos, bound) && Word(content, base + pos) != 0 {
      ParseStep(content, base, pos, bound);
    }
  }

  // ---- what zeroing does to a slot that was read only in part ----

  /** Room for the records of the task at `base`: its slot. */
  function Room(content: seq<Byte>, tasks: seq<Task>, i: nat): int
    requires i < |tasks|
  {
    Limit(Bases(tasks), |content|, tasks[i].base) - tasks[i].base
  }

  /** In the zeroed stream no record can start where the task's records end. */
  lemma ZeroedStops(content: seq<Byte>, tasks: seq<Task>, out: seq<Byte>, i: nat)
    requires IsZeroed(content, tasks, out) && i < |tasks|
    ensures Stops(out, tasks[i].base, tasks[i].end, Room(content, tasks, i))
  {
    var base, end := tasks[i].base, tasks[i].end;
    if InReach(out, base, end, Room(content, tasks, i)) {
      forall k | base + end <= k < base + end + 4
        ensures out[k] == 0
      {
        GapIsZero(content, tasks, out, i, k);
      }
      ZeroWordBytes(out, base + end);
    }
  }

  lemma ParsedTask(content: seq<Byte>, count: nat, tasks: seq<Task>, i: nat)
    requires IsParse(content, count, tasks) && Confined(|content|, tasks) && i < count
    ensures ParseOne(content, tasks[i].base, Bound(Bases(tasks), |content|, i)) == Ok(tasks[i])
    ensures HEADER_SIZE <= tasks[i].end <= Room(content, tasks, i)
  {
    OneShape(content, tasks[i].base, Bound(Bases(tasks), |content|, i), tasks[i]);
  }

  /** Bytes that keep a task's area and let its records stop parse to the same records. */
  lemma AreaParses(content: seq<Byte>, out: seq<Byte>, base: nat, bound: nat, room: int, task: Task)
    requires |out| == |content| && ParseOne(content, base, bound) == Ok(task)
    requires HEADER_SIZE <= task.end <= room
    requires SameBytes(content, base, out, base, task.end) && Stops(out, base, task.end, room)
    ensures base + 4 <= |out|
    ensures var own := ParseFrom(out, base, RecordStart(out, base), room);
            own.records == task.records && own.end == task.end && !own.truncated
  {
    SameWord(content, base, out, base, task.end, base);
    var pos := RecordStart(content, base);
    ParseShape(content, base, pos, bound);
    ParseTransfers(content, base, bound, out, base, room, pos);
  }

  lemma ReadUnderBothIff(content: seq<Byte>, base: nat, bound: nat, room: int, task: Task)
    requires ParseOne(content, base, bound) == Ok(task) && task.end <= room
    ensures base + 4 <= |content|
    ensures var own := ParseFrom(content, base, RecordStart(content, base), room);
            && (!own.truncated && own.records == task.records && own.end == task.end <==>
                Stops(content, base, task.end, room))
            && (own.records == task.records <==> !Continues(content, base, task.end, room))
  {
    SameUnderBothIff(content, base, RecordStart(content, base), bound, room);
  }

  /** The slot of task `i` reads the same in both streams, to the end. */
  ghost predicate SameSlot(content: seq<Byte>, tasks: seq<Task>, out: seq<Byte>, i: nat)
    requires i < |tasks|
  {
    && SameSlotRecords(content, tasks, out, i)
    && var before := SlotParse(content, Bases(tasks), tasks[i].base);
       !before.truncated && SlotParse(out, Bases(tasks), tasks[i].base).end == before.end
  }

  ghost predicate SameSlotRecords(content: seq<Byte>, tasks: seq<Task>, out: seq<Byte>, i: nat)
    requires i < |tasks|
  {
    && tasks[i].base + 4 <= |content| && tasks[i].base + 4 <= |out|
    && SlotParse(out, Bases(tasks), tasks[i].base).records == SlotParse(content, Bases(tasks), tasks[i].base).records
  }

  /** Zeroing keeps a task's own slot as it reads if and only if its records stopped where the stream's parse ended,
      and keeps the slot's records if and only if no further record stood there. */
  lemma ZeroingKeepsSlotIff(content: seq<Byte>, count: nat, tasks: seq<Task>, out: seq<Byte>, i: nat)
    requires ParseStream(content, count) == Ok(tasks) && Confined(|content|, tasks) && IsZeroed(content, tasks, out)
    requires i < count == |tasks|
    ensures SameSlot(content, tasks, out, i) <==>
            Stops(content, tasks[i].base, tasks[i].end, Room(content, tasks, i))
    ensures SameSlotRecords(content, tasks, out, i) <==>
            !Continues(content, tasks[i].base, tasks[i].end, Room(content, tasks, i))
  {
    ParseStreamIsParse(content, count, tasks);
    ParsedTask(content, count, tasks, i);
    AreaSurvives(content, tasks, out, i);
    ZeroedStops(content, tasks, out, i);
    KeepsSlotIff(content, tasks, out, Bound(Bases(tasks), |content|, i), i);
  }

  /** The same of any stream that keeps the task's area and in which no record can start behind it: there the slot
      holds exactly the records the stream's parse had read. */
  lemma KeepsSlotIff(content: seq<Byte>, tasks: seq<Task>, out: seq<Byte>, bound: nat, i: nat)
    requires |out| == |content| && i < |tasks| && ParseOne(content, tasks[i].base, bound) == Ok(tasks[i])
    requires HEADER_SIZE <= tasks[i].end <= Room(content, tasks, i)
    requires SameBytes(content, tasks[i].base, out, tasks[i].base, tasks[i].end)
    requires Stops(out, tasks[i].base, tasks[i].end, Room(content, tasks, i))
    ensures SameSlot(content, tasks, out, i) <==>
            Stops(content, tasks[i].base, tasks[i].end, Room(content, tasks, i))
    ensures SameSlotRecords(content, tasks, out, i) <==>
            !Continues(content, tasks[i].base, tasks[i].end, Room(content, tasks, i))
  {
    var task, room := tasks[i], Room(content, tasks, i);
    AreaParses(content, out, task.base, bound, room, task);
    ReadUnderBothIff(content, task.base, bound, room, task);
    SameSlotMeans(
      content, tasks, out, i, SlotParse(content, Bases(tasks), task.base), SlotParse(out, Bases(tasks), task.base));
  }

  lemma SameSlotMeans(
    content: seq<Byte>, tasks: seq<Task>, out: seq<Byte>, i: nat, before: Parsed, after: Parsed)
    requires i < |tasks| && tasks[i].base + 4 <= |content| == |out|
    requires before == SlotParse(content, Bases(tasks), tasks[i].base)
    requires after == SlotParse(out, Bases(tasks), tasks[i].base)
    ensures SameSlotRecords(content, tasks, out, i) <==> after.records == before.records
    ensures SameSlot(content, tasks, out, i) <==>
            after.records == before.records && !before.truncated && after.end == before.end
  {
  }
}
