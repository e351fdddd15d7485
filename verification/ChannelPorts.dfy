/** What the rewiring is for: every selector field that named a surface of the input-first layout names, afterwards,
    the port at which the ANEC header describes that surface. */
module ChannelPorts {
  import opened AnecHeader
  import opened ChannelRewire
  import ExecLoop
  import opened Words

  /** The stage read from a header that declares these counts. */
  predicate Declares(values: seq<int>, src: nat, dst: nat) {
    |values| == 7 + SLOTS + 6 * SLOTS && values[5] == src && values[6] == dst && src + dst <= 28
  }

  lemma PortsOfStage(values: seq<int>, src: nat, dst: nat)
    requires Declares(values, src, dst)
    ensures StageGeometry(values).Ok?
    ensures var stage := StageGeometry(values).value;
            && |stage.inputs| == src && |stage.outputs| == dst
            && (forall i :: 0 <= i < src ==> stage.inputs[i].bdx == 4 + dst + i)
            && forall j :: 0 <= j < dst ==> stage.outputs[j].bdx == 4 + j
  {
  }

  /** The state loop binds its sources and destinations at the very slots the header declares them in. */
  lemma LoopUsesSamePorts(values: seq<int>, program: ExecLoop.Program)
    requires Declares(values, program.srcCount, program.dstCount)
    ensures StageGeometry(values).Ok?
    ensures var stage := StageGeometry(values).value;
            && |stage.inputs| == program.srcCount && |stage.outputs| == program.dstCount
            && (forall i :: 0 <= i < program.srcCount ==> stage.inputs[i].bdx == program.SrcBdx(i))
            && forall j :: 0 <= j < program.dstCount ==> stage.outputs[j].bdx == program.DstBdx(j)
  {
    PortsOfStage(values, program.srcCount, program.dstCount);
  }

  /** Channels below 4 stay; input i stands at channel 4 + i before, output j at channel 4 + src + j; nothing else
      may be named. */
  ghost predicate NamesPort(before: nat, after: nat, stage: Stage) {
    var src, dst := |stage.inputs|, |stage.outputs|;
    && before < 4 + src + dst
    && (before < 4 ==> after == before)
    && (4 <= before < 4 + src ==> after == stage.inputs[before - 4].bdx)
    && (4 + src <= before ==> after == stage.outputs[before - 4 - src].bdx)
  }

  lemma ChannelNamesPort(values: seq<int>, src: nat, dst: nat, channel: nat)
    requires Declares(values, src, dst)
    ensures RewireChannel(channel, src, dst).Ok? <==> channel < 4 + src + dst
    ensures RewireChannel(channel, src, dst).Ok? ==>
              NamesPort(channel, RewireChannel(channel, src, dst).value, StageGeometry(values).value)
  {
    PortsOfStage(values, src, dst);
  }

  /** The fields of a selector word: 5 bits each at bits 0, 6, 12 and 18. */
  lemma FieldsOfWord(w: nat)
    requires w < WORD_LIMIT
    ensures var s := Unpack(w);
            s.c0 == w % 32 && s.c1 == w / 64 % 32 && s.c2 == w / 4096 % 32 && s.c3 == w / 0x4_0000 % 32
  {
    SixBitsDown(w);
    SixBitsDown(w / 64);
    SixBitsDown(w / 4096);
  }

  /** A field and the bit behind it make six bits. */
  lemma SixBitsDown(v: nat)
    ensures v / 32 / 2 == v / 64
    ensures v / 64 / 64 == v / 4096 && v / 4096 / 64 == v / 0x4_0000
  {
  }

  /** All three surface fields of the word name the ports, and the fourth one is left alone. */
  ghost predicate WordNamesPorts(before: nat, after: nat, stage: Stage) {
    && NamesPort(before % 32, after % 32, stage)
    && NamesPort(before / 64 % 32, after / 64 % 32, stage)
    && NamesPort(before / 4096 % 32, after / 4096 % 32, stage)
    && before / 0x4_0000 % 32 == after / 0x4_0000 % 32 < 4
  }

  lemma SelectorNamesPorts(values: seq<int>, src: nat, dst: nat, w: nat)
    requires Declares(values, src, dst) && w < WORD_LIMIT
    ensures RewireSelector(w, src, dst).Ok? <==>
            && w % 32 < 4 + src + dst && w / 64 % 32 < 4 + src + dst && w / 4096 % 32 < 4 + src + dst
            && w / 0x4_0000 % 32 < 4
    ensures RewireSelector(w, src, dst).Ok? ==>
              WordNamesPorts(w, RewireSelector(w, src, dst).value, StageGeometry(values).value)
  {
    FieldsOfWord(w);
    ChannelNamesPort(values, src, dst, Unpack(w).c0);
    ChannelNamesPort(values, src, dst, Unpack(w).c1);
    ChannelNamesPort(values, src, dst, Unpack(w).c2);
    if RewireSelector(w, src, dst).Ok? {
      OnlyChannelsChange(w, src, dst);
      FieldsOfWord(RewireSelector(w, src, dst).value);
    }
  }

  /** Task `i` of a path has a header, and the link at +0x1C leads to the next one. */
  ghost predicate LinksOn(content: seq<Byte>, bases: seq<nat>, i: nat)
    requires i < |bases|
  {
    && bases[i] + 0x24 <= |content|
    && (i + 1 < |bases| ==> Word(content, bases[i] + 0x1C) == bases[i + 1] != 0)
  }

  /** The reachable tasks: along the links until a null link or one back to a task already met. */
  ghost predicate IsTaskPath(content: seq<Byte>, bases: seq<nat>, from: nat, met: set<nat>) {
    && bases != [] && bases[0] == from
    && (forall i :: 0 <= i < |bases| ==> LinksOn(content, bases, i))
    && bases[|bases| - 1] + 0x24 <= |content|
    && var last := Word(content, bases[|bases| - 1] + 0x1C);
       last == 0 || last in bases || last in met
  }

  lemma {:induction false} ReachIsTaskPath(
    content: seq<Byte>, size: nat, src: nat, dst: nat, offset: nat, seen: set<nat>)
    requires src + dst <= 28 && offset !in seen && Reach(content, size, src, dst, offset, seen).Ok?
    ensures IsTaskPath(content, Reach(content, size, src, dst, offset, seen).value, offset, seen)
    decreases Below(|content|) - seen
  {
    var bases, next := ReachHead(content, size, src, dst, offset, seen);
    if next != 0 {
      if next in seen + {offset} {
        assert bases[1..] == [];
        assert bases == [offset];
      } else {
        ReachIsTaskPath(content, size, src, dst, next, seen + {offset});
        PathGrows(content, bases, offset, next, seen);
      }
    }
  }

  lemma PathGrows(content: seq<Byte>, bases: seq<nat>, offset: nat, next: nat, seen: set<nat>)
    requires bases != [] && bases[0] == offset && offset + 0x24 <= |content| && next != 0
    requires Word(content, offset + 0x1C) == next && IsTaskPath(content, bases[1..], next, seen + {offset})
    ensures IsTaskPath(content, bases, offset, seen)
  {
    var rest := bases[1..];
    assert bases == [offset] + rest;
    forall i | 0 <= i < |bases|
      ensures LinksOn(content, bases, i)
    {
      if i > 0 {
        assert LinksOn(content, rest, i - 1);
      }
    }
    assert bases[|bases| - 1] == rest[|rest| - 1];
  }

  /** In the bytes the rewiring leaves, the selector of every reachable task names the header's ports. */
  lemma RewiredStreamNamesPorts(
    content: seq<Byte>, size: nat, src: int, dst: int, values: seq<int>, bases: seq<nat>, out: seq<Byte>, n: nat)
    requires ValidCounts(src, dst) && Declares(values, src, dst)
    requires Reach(content, size, src, dst, 0, {}) == Ok(bases) && forall b :: b in bases ==> b % 0x100 == 0
    requires Rewired(content, size, src, dst) == Ok((out, n))
    ensures StageGeometry(values).Ok? && IsTaskPath(content, bases, 0, {}) && |out| == |content|
    ensures forall i :: 0 <= i < |bases| ==>
              && bases[i] + 36 <= |content|
              && WordNamesPorts(Word(content, bases[i] + 32), Word(out, bases[i] + 32), StageGeometry(values).value)
  {
    ReachIsTaskPath(content, size, src, dst, 0, {});
    RewiringTouchesSelectorsOnly(content, size, src, dst);
    SelectorsNamePorts(content, bases, src, dst, out, values);
  }

  lemma SelectorsNamePorts(
    content: seq<Byte>, bases: seq<nat>, src: nat, dst: nat, out: seq<Byte>, values: seq<int>)
    requires Declares(values, src, dst) && Acceptable(content, src, dst, bases)
    requires Writable(|content|, bases, NewSelectors(content, src, dst, bases))
    requires SelectorsAre(content, bases, NewSelectors(content, src, dst, bases), out)
    ensures |out| == |content| && StageGeometry(values).Ok?
    ensures forall i :: 0 <= i < |bases| ==>
              && bases[i] + 36 <= |content|
              && WordNamesPorts(Word(content, bases[i] + 32), Word(out, bases[i] + 32), StageGeometry(values).value)
  {
    PortsOfStage(values, src, dst);
    var words := NewSelectors(content, src, dst, bases);
    forall i | 0 <= i < |bases|
      ensures bases[i] + 36 <= |content|
      ensures WordNamesPorts(Word(content, bases[i] + 32), Word(out, bases[i] + 32), StageGeometry(values).value)
    {
      assert AcceptableTask(content, src, dst, bases[i]);
      assert Word(out, bases[i] + SELECTOR) == words[i];
      SelectorNamesPorts(values, src, dst, Word(content, bases[i] + SELECTOR));
    }
  }
}
