/** The static state loop: one program submitted repeatedly with its state buffers swapped by iteration parity. */
module ExecLoop {
  import opened Words

  const SENTINEL: Half := 0x7c00
  const EINVAL := -22
  const ETIMEDOUT := -110

  /** What becomes of one submission; the model treats a completed one as a pure function of the sources. */
  datatype Outcome = Refused(code: int) | Completes | Stalls

  type Surface = seq<Half>

  /** Source contents to destination contents. */
  type Engine = seq<Surface> -> seq<Surface>

  /** The binding of a submission: `source` and `target` channels trade places when `swapped`. */
  datatype Binding = Binding(swapped: bool, source: nat, target: nat) {
    /** The channel bound to tile `bdx`; also the tile that channel `bdx` is bound to. */
    function Channel(bdx: nat): nat {
      if !swapped then bdx else if bdx == source then target else if bdx == target then source else bdx
    }
  }

  function Sentinels(n: nat): (filled: Surface)
    ensures |filled| == n && forall k :: 0 <= k < n ==> filled[k] == 0x7c00
  {
    seq(n, _ => SENTINEL)
  }

  method Fill(words: array<Half>)
    modifies words
    ensures words[..] == Sentinels(words.Length)
  {
    for word := 0 to words.Length
      invariant forall k :: 0 <= k < word ==> words[k] == SENTINEL
    {
      words[word] := SENTINEL;
    }
  }

  method Store(words: array<Half>, surface: Surface)
    requires |surface| == words.Length
    modifies words
    ensures words[..] == surface
  {
    for word := 0 to words.Length
      invariant forall k :: 0 <= k < word ==> words[k] == surface[k]
    {
      words[word] := surface[word];
    }
  }

  /** Tile counts and engine of a loaded program. */
  datatype Program = Program(srcCount: nat, dstCount: nat, engine: Engine) {
    function SrcBdx(idx: nat): nat { 4 + dstCount + idx }

    function DstBdx(idx: nat): nat { 4 + idx }

    function Count(): nat { 4 + dstCount + srcCount }

    predicate IsTarget(bdx: nat) { 4 <= bdx < 4 + dstCount }

    /** What the engine reads through a binding. */
    function Inputs(contents: seq<Surface>, binding: Binding): seq<Surface>
      requires |contents| == Count() && Binds(binding)
    {
      seq(srcCount, i requires 0 <= i < srcCount => contents[binding.Channel(SrcBdx(i))])
    }

    predicate Binds(binding: Binding) {
      4 + dstCount <= binding.source < Count() && IsTarget(binding.target)
    }

    /** The channels after the first `n` destination tiles were prefilled. */
    function Prefilled(contents: seq<Surface>, binding: Binding, n: nat): (after: seq<Surface>)
      requires |contents| == Count() && Binds(binding) && n <= dstCount
      ensures |after| == |contents|
    {
      seq(|contents|, bdx requires 0 <= bdx < |contents| =>
        if 4 <= binding.Channel(bdx) < 4 + n then Sentinels(|contents[bdx]|) else contents[bdx])
    }

    /** The channels after the engine wrote the first `n` destinations. */
    function Written(contents: seq<Surface>, binding: Binding, outputs: seq<Surface>, n: nat): (after: seq<Surface>)
      requires |contents| == Count() && Binds(binding) && n <= dstCount == |outputs|
      ensures |after| == |contents|
    {
      seq(|contents|, bdx requires 0 <= bdx < |contents| =>
        if 4 <= binding.Channel(bdx) < 4 + n then outputs[binding.Channel(bdx) - 4] else contents[bdx])
    }

    /** The state update: the engine with its other sources held fixed. */
    function Next(inputs: seq<Surface>, srcIdx: nat, dstIdx: nat, state: Surface): Surface
      requires srcIdx < |inputs| && dstIdx < dstCount && forall x :: |engine(x)| == dstCount
    {
      engine(inputs[srcIdx := state])[dstIdx]
    }

    /** The state after `n` updates. */
    function Iterated(inputs: seq<Surface>, srcIdx: nat, dstIdx: nat, state: Surface, n: nat): Surface
      requires srcIdx < |inputs| && dstIdx < dstCount && forall x :: |engine(x)| == dstCount
    {
      if n == 0 then state
      else Next(inputs, srcIdx, dstIdx, Iterated(inputs, srcIdx, dstIdx, state, n - 1))
    }

    lemma WrittenStep(contents: seq<Surface>, binding: Binding, outputs: seq<Surface>, idx: nat)
      requires |contents| == Count() && Binds(binding) && idx < dstCount == |outputs|
      ensures Written(contents, binding, outputs, idx + 1) ==
              Written(contents, binding, outputs, idx)[binding.Channel(DstBdx(idx)) := outputs[idx]]
    {
    }

    lemma PrefilledStep(contents: seq<Surface>, binding: Binding, idx: nat)
      requires |contents| == Count() && Binds(binding) && idx < dstCount
      ensures var bdx := binding.Channel(DstBdx(idx));
              Prefilled(contents, binding, idx + 1) ==
                Prefilled(contents, binding, idx)[bdx := Sentinels(|contents[bdx]|)]
    {
    }

    /** What stands in the channel of the first destination, after the prefill and after the engine wrote. */
    lemma FirstTarget(contents: seq<Surface>, binding: Binding, outputs: seq<Surface>)
      requires |contents| == Count() && Binds(binding) && dstCount == |outputs|
      ensures var first := binding.Channel(DstBdx(0));
              && first < |contents|
              && Prefilled(contents, binding, dstCount)[first] == Sentinels(|contents[first]|)
              && Written(contents, binding, outputs, dstCount)[first] == outputs[0]
    {
    }

    /** The engine fills every destination channel exactly. */
    ghost predicate EngineFills(contents: seq<Surface>)
      requires |contents| == Count()
    {
      && (forall x :: |engine(x)| == dstCount)
      && forall x, j :: 0 <= j < dstCount ==> |engine(x)[j]| == |contents[4 + j]|
    }

    /** Sentinels never land on what the engine is about to read. */
    lemma PrefillSparesInputs(contents: seq<Surface>, binding: Binding)
      requires |contents| == Count() && Binds(binding)
      ensures Inputs(Prefilled(contents, binding, dstCount), binding) == Inputs(contents, binding)
    {
    }
  }

  /** A looped program with the channels it started from. */
  datatype Loop = Loop(program: Program, start: seq<Surface>, srcIdx: nat, dstIdx: nat) {
    ghost predicate Valid() {
      && |start| == program.Count() && program.EngineFills(start)
      && srcIdx < program.srcCount && dstIdx < program.dstCount
      && |start[Source()]| == |start[Target()]|
    }

    function Source(): nat { program.SrcBdx(srcIdx) }

    function Target(): nat { program.DstBdx(dstIdx) }

    function BindingOf(iteration: nat): Binding {
      Binding(iteration % 2 == 1, Source(), Target())
    }

    /** The channel that holds the newest state after `done` iterations, and the other one of the pair. */
    function Newest(done: nat): nat {
      if done % 2 == 1 then Target() else Source()
    }

    ghost function Inputs(): seq<Surface>
      requires Valid()
    {
      program.Inputs(start, BindingOf(0))
    }

    /** The state after `n` updates of the first one. */
    ghost function State(n: nat): Surface
      requires Valid()
    {
      program.Iterated(Inputs(), srcIdx, dstIdx, start[Source()], n)
    }

    ghost function Outputs(n: nat): seq<Surface>
      requires Valid()
    {
      program.engine(Inputs()[srcIdx := State(n)])
    }

    /** The newest state is in place and nothing the engine only reads has changed. */
    ghost predicate KeepsState(contents: seq<Surface>, done: nat)
      requires Valid()
    {
      && |contents| == program.Count()
      && (forall bdx :: 0 <= bdx < |contents| ==> |contents[bdx]| == |start[bdx]|)
      && contents[Newest(done)] == State(done)
      && forall bdx {:trigger contents[bdx]} :: 0 <= bdx < |contents| && !program.IsTarget(bdx) && bdx != Source() ==>
           contents[bdx] == start[bdx]
    }

    /** The outcome of `done` completed iterations. */
    ghost predicate HasRun(contents: seq<Surface>, done: nat)
      requires Valid()
    {
      && KeepsState(contents, done)
      && (done > 0 ==> contents[Newest(done - 1)] == State(done - 1))
      && (done > 0 ==> forall j :: 0 <= j < program.dstCount && j != dstIdx ==>
            contents[program.DstBdx(j)] == Outputs(done - 1)[j])
    }

    lemma StartKeepsState()
      requires Valid()
      ensures HasRun(start, 0)
    {
    }

    /** Every iteration feeds the engine the fixed sources and the newest state. */
    lemma InputsAreCurrent(contents: seq<Surface>, done: nat)
      requires Valid() && KeepsState(contents, done)
      ensures program.Inputs(contents, BindingOf(done)) == Inputs()[srcIdx := State(done)]
    {
      var inputs, expected := program.Inputs(contents, BindingOf(done)), Inputs()[srcIdx := State(done)];
      forall i | 0 <= i < program.srcCount
        ensures inputs[i] == expected[i]
      {
        assert !program.IsTarget(program.SrcBdx(i));
      }
    }

    /** A refused or stalled submission leaves the newest state where it was. */
    lemma PrefillKeepsState(contents: seq<Surface>, done: nat)
      requires Valid() && KeepsState(contents, done)
      ensures KeepsState(program.Prefilled(contents, BindingOf(done), program.dstCount), done)
    {
    }

    ghost function After(contents: seq<Surface>, done: nat): seq<Surface>
      requires Valid() && |contents| == program.Count()
    {
      program.Written(contents, BindingOf(done), Outputs(done), program.dstCount)
    }

    lemma WritingKeepsLengths(contents: seq<Surface>, done: nat)
      requires Valid() && KeepsState(contents, done)
      ensures forall bdx :: 0 <= bdx < |contents| ==> |After(contents, done)[bdx]| == |start[bdx]|
    {
      var binding, outputs := BindingOf(done), Outputs(done);
      forall bdx | 0 <= bdx < |contents|
        ensures |After(contents, done)[bdx]| == |start[bdx]|
      {
        if program.IsTarget(binding.Channel(bdx)) {
          assert |outputs[binding.Channel(bdx) - 4]| == |start[binding.Channel(bdx)]|;
        }
      }
    }

    /** Writing the outputs leaves the state just read in place beside its successor. */
    lemma WritingKeepsState(contents: seq<Surface>, done: nat)
      requires Valid() && KeepsState(contents, done)
      ensures KeepsState(After(contents, done), done)
    {
      WritingKeepsLengths(contents, done);
    }

    lemma WritingAdvancesState(contents: seq<Surface>, done: nat)
      requires Valid() && KeepsState(contents, done)
      ensures KeepsState(After(contents, done), done + 1)
    {
      WritingKeepsLengths(contents, done);
      assert After(contents, done)[Newest(done + 1)] == Outputs(done)[dstIdx];
    }

    lemma OtherOutputsAreWritten(contents: seq<Surface>, done: nat, j: nat)
      requires Valid() && KeepsState(contents, done) && j < program.dstCount && j != dstIdx
      ensures After(contents, done)[program.DstBdx(j)] == Outputs(done)[j]
    {
    }

    /** A completed submission turns `done` iterations into `done + 1`. */
    lemma LoopAdvances(contents: seq<Surface>, done: nat)
      requires Valid() && KeepsState(contents, done)
      ensures HasRun(After(contents, done), done + 1)
    {
      WritingKeepsState(contents, done);
      WritingAdvancesState(contents, done);
      forall j | 0 <= j < program.dstCount && j != dstIdx
        ensures After(contents, done)[program.DstBdx(j)] == Outputs(done)[j]
      {
        OtherOutputsAreWritten(contents, done, j);
      }
    }
  }

  class Session {
    const program: Program
    const channels: seq<array<Half>>

    constructor (program: Program, channels: seq<array<Half>>)
      ensures this.program == program && this.channels == channels
    {
      this.program, this.channels := program, channels;
    }

    function Contents(): (contents: seq<Surface>)
      reads channels
      ensures |contents| == |channels|
      ensures forall bdx :: 0 <= bdx < |channels| ==> contents[bdx] == channels[bdx][..]
    {
      seq(|channels|, bdx requires 0 <= bdx < |channels| reads channels => channels[bdx][..])
    }

    /** Every used channel is mapped, no two share memory, and the engine's outputs have their size. */
    ghost predicate Valid() {
      && |channels| == program.Count()
      && AreDistinct()
      && (forall bdx :: 0 <= bdx < |channels| ==> channels[bdx].Length > 0)
      && (forall x :: |program.engine(x)| == program.dstCount)
      && forall x, j :: 0 <= j < program.dstCount ==> |program.engine(x)[j]| == channels[4 + j].Length
    }

    ghost predicate AreDistinct() {
      forall i, j :: 0 <= i < j < |channels| ==> channels[i] != channels[j]
    }

    /** The calls the loop accepts. */
    predicate Accepts(iterations: nat, srcIdx: nat, dstIdx: nat)
      requires |channels| == program.Count()
    {
      && iterations > 0 && srcIdx < program.srcCount && dstIdx < program.dstCount
      && channels[program.SrcBdx(srcIdx)].Length == channels[program.DstBdx(dstIdx)].Length
    }

    lemma LoopIsValid(iterations: nat, srcIdx: nat, dstIdx: nat)
      requires Valid() && Accepts(iterations, srcIdx, dstIdx)
      ensures Loop(program, Contents(), srcIdx, dstIdx).Valid()
    {
      var contents := Contents();
      assert forall x, j :: 0 <= j < program.dstCount ==> |program.engine(x)[j]| == |contents[4 + j]|;
    }

    method FillChannel(bdx: nat)
      requires bdx < |channels| && AreDistinct()
      modifies channels
      ensures Contents() == old(Contents())[bdx := Sentinels(channels[bdx].Length)]
    {
      Fill(channels[bdx]);
      assert forall i :: 0 <= i < |channels| && i != bdx ==> channels[i] != channels[bdx];
    }

    method StoreChannel(bdx: nat, surface: Surface)
      requires bdx < |channels| && AreDistinct()
      requires |surface| == channels[bdx].Length
      modifies channels
      ensures Contents() == old(Contents())[bdx := surface]
    {
      Store(channels[bdx], surface);
      assert forall i :: 0 <= i < |channels| && i != bdx ==> channels[i] != channels[bdx];
    }

    /** One submission; `ret` is negative unless the first output was written with another first word. */
    method ExecWithStateSwap(swapState: bool, srcIdx: nat, dstIdx: nat, outcome: Outcome) returns (ret: int)
      requires Valid() && srcIdx < program.srcCount && dstIdx < program.dstCount
      requires swapState ==> Accepts(1, srcIdx, dstIdx)
      requires outcome.Refused? ==> outcome.code < 0
      modifies channels
      ensures var binding := Binding(swapState, program.SrcBdx(srcIdx), program.DstBdx(dstIdx));
              var filled := program.Prefilled(old(Contents()), binding, program.dstCount);
              var outputs := program.engine(program.Inputs(old(Contents()), binding));
              && Contents() ==
                (if outcome.Completes? then program.Written(filled, binding, outputs, program.dstCount) else filled)
              && (ret == 0 <==> outcome.Completes? && outputs[0][0] != 0x7c00)
              && (ret == 0 || ret == if outcome.Refused? then outcome.code else ETIMEDOUT)
    {
      var binding := Binding(swapState, program.SrcBdx(srcIdx), program.DstBdx(dstIdx));
      Prefill(binding);
      if outcome.Refused? {
        return outcome.code;
      }
      program.PrefillSparesInputs(old(Contents()), binding);
      ghost var outputs := program.engine(program.Inputs(Contents(), binding));
      program.FirstTarget(old(Contents()), binding, outputs);
      program.FirstTarget(Contents(), binding, outputs);
      if outcome.Completes? {
        Submit(binding);
      }
      assert Contents()[binding.Channel(program.DstBdx(0))] == channels[binding.Channel(program.DstBdx(0))][..];
      var first := channels[binding.Channel(program.DstBdx(0))];
      ret := if first[0] == SENTINEL then ETIMEDOUT else 0;
    }

    method Prefill(binding: Binding)
      requires Valid() && program.Binds(binding)
      modifies channels
      ensures Contents() == program.Prefilled(old(Contents()), binding, program.dstCount)
    {
      for idx := 0 to program.dstCount
        invariant Contents() == program.Prefilled(old(Contents()), binding, idx)
      {
        program.PrefilledStep(old(Contents()), binding, idx);
        FillChannel(binding.Channel(program.DstBdx(idx)));
      }
    }

    /** The device: reads every source through the binding, then writes every destination through it. */
    method Submit(binding: Binding)
      requires Valid() && program.Binds(binding)
      requires binding.swapped ==> channels[binding.source].Length == channels[binding.target].Length
      modifies channels
      ensures Contents() == program.Written(
        old(Contents()), binding, program.engine(program.Inputs(old(Contents()), binding)), program.dstCount)
    {
      var outputs := program.engine(program.Inputs(Contents(), binding));
      for idx := 0 to program.dstCount
        invariant Contents() == program.Written(old(Contents()), binding, outputs, idx)
      {
        program.WrittenStep(old(Contents()), binding, outputs, idx);
        StoreChannel(binding.Channel(program.DstBdx(idx)), outputs[idx]);
      }
    }

    /** The loop: after `done` completed iterations the newest state is in the channel its parity names. */
    method Run(iterations: nat, srcIdx: nat, dstIdx: nat, outcomes: seq<Outcome>) returns (ret: int, ghost done: nat)
      requires Valid() && iterations <= |outcomes|
      requires forall i :: 0 <= i < |outcomes| && outcomes[i].Refused? ==> outcomes[i].code < 0
      modifies channels
      ensures !Accepts(iterations, srcIdx, dstIdx) ==> ret == EINVAL && Contents() == old(Contents())
      ensures Accepts(iterations, srcIdx, dstIdx) ==>
                var loop := Loop(program, old(Contents()), srcIdx, dstIdx);
                && loop.Valid() && ret <= 0 && loop.KeepsState(Contents(), done)
                && (if ret == 0 then done == iterations && loop.HasRun(Contents(), done) else done < iterations)
    {
      done := 0;
      if iterations == 0 || srcIdx >= program.srcCount || dstIdx >= program.dstCount {
        return EINVAL, done;
      }
      if channels[program.SrcBdx(srcIdx)].Length != channels[program.DstBdx(dstIdx)].Length {
        return EINVAL, done;
      }
      LoopIsValid(iterations, srcIdx, dstIdx);
      ghost var loop := Loop(program, Contents(), srcIdx, dstIdx);
      loop.StartKeepsState();
      for iteration := 0 to iterations
        invariant loop.HasRun(Contents(), iteration)
      {
        done := iteration;
        ret := Iterate(loop, iteration, srcIdx, dstIdx, outcomes[iteration]);
        if ret < 0 {
          return;
        }
      }
      return 0, iterations;
    }

    /** One iteration; whatever becomes of it, the state it was to read stays in place. */
    method Iterate(ghost loop: Loop, iteration: nat, srcIdx: nat, dstIdx: nat, outcome: Outcome) returns (ret: int)
      requires Valid() && Accepts(1, srcIdx, dstIdx)
      requires loop.Valid() && loop.program == program && loop.srcIdx == srcIdx && loop.dstIdx == dstIdx
      requires loop.KeepsState(Contents(), iteration)
      requires outcome.Refused? ==> outcome.code < 0
      modifies channels
      ensures ret <= 0 && loop.KeepsState(Contents(), iteration)
      ensures ret == 0 ==> loop.HasRun(Contents(), iteration + 1)
    {
      ghost var before := Contents();
      ret := ExecWithStateSwap(iteration % 2 == 1, srcIdx, dstIdx, outcome);
      loop.InputsAreCurrent(before, iteration);
      loop.PrefillKeepsState(before, iteration);
      if outcome.Completes? {
        ghost var filled := program.Prefilled(before, loop.BindingOf(iteration), program.dstCount);
        loop.WritingKeepsState(filled, iteration);
        loop.LoopAdvances(filled, iteration);
      }
    }
  }
}
