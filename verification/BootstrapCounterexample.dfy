/** Two tasks 0x100 apart whose descriptors are 0x300 long: packing succeeds, and the layouts disagree on the first. */
module BootstrapCounterexample {
  import opened Bootstrap
  import opened TaskChain
  import opened Words

  const TD_SIZE: nat := 0x300

  /** Zeros but for the first task's link to 0x100. */
  function Text(): (text: seq<Byte>)
    ensures |text| == 0x300
  {
    seq(0x300, k => if k == 0x1D then 1 else 0)
  }

  function TwoBases(): seq<nat> {
    [0, 0x100]
  }

  lemma TextIsSound()
    ensures Placeable(Text(), TwoBases(), TD_SIZE) && SelectedChain(Text(), TwoBases())
    ensures LinkSelected(Text(), TwoBases(), 0) && LinkSelected(Text(), TwoBases(), 1)
  {
    assert Link(Text(), 0) == TwoBases()[1];
  }

  /** The packed copy of the first task holds the second one's header from before it was ended. */
  lemma LayoutsCanDisagree(prefix: seq<Byte>, out: seq<Byte>)
    ensures Placeable(Text(), TwoBases(), TD_SIZE) && SelectedChain(Text(), TwoBases())
    ensures LinkSelected(Text(), TwoBases(), 0) && LinkSelected(Text(), TwoBases(), 1)
    ensures IsTerminated(Text(), 0x100, prefix) && IsBootstrap(Text(), TwoBases(), TD_SIZE, out) ==>
              !SameDescriptor(prefix, 0, out, Packed(0), Copied(TD_SIZE, |Text()|, 0), 0)
  {
    TextIsSound();
    assert Text()[0x103] % 4 == 0 && Terminal(0x100, 0x103);
    if IsTerminated(Text(), 0x100, prefix) && IsBootstrap(Text(), TwoBases(), TD_SIZE, out) {
      WholeDescriptorsAgreeIff(Text(), TwoBases(), TD_SIZE, prefix, out, 0);
    }
  }
}
