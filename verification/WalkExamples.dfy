/** Where the chain walk stops and what it refuses, on two headers. */
module WalkExamples {
  import opened TaskChain
  import opened Words

  /** A header of 0x20 bytes at 0 whose link is `low` + 0x100 * `high`, and zeros up to 0x140. */
  function Linked(low: Byte, high: Byte): (content: seq<Byte>)
    ensures |content| == 0x140
  {
    seq(0x140, k => if k == 0x1C then low else if k == 0x1D then high else 0)
  }

  lemma LinkOf(low: Byte, high: Byte)
    ensures Link(Linked(low, high), 0) == low + 0x100 * (high as int)
    ensures Link(Linked(low, high), 0x100) == 0
  {
  }

  lemma OneStep(content: seq<Byte>, size: nat, next: nat)
    requires |content| == 0x140 && Link(content, 0) == next != 0
    ensures !LinkFits(next, size) ==> WalkFrom(content, size, 2, 0, {}) == Err(AssertionError)
    ensures LinkFits(next, size) && next == 0x100 && Link(content, 0x100) == 0 ==>
              WalkFrom(content, size, 2, 0, {}) == Ok([0, 0x100])
  {
    if LinkFits(next, size) && next == 0x100 && Link(content, 0x100) == 0 {
      WalkEnds(content, size, 1, 0x100, {0});
      WalkStep(content, size, 2, 0, {}, [0x100]);
      assert [0] + [0x100] == [0, 0x100];
    }
  }

  /** A header may end where the stream does, but not one byte behind it; and a link must be on the grid. */
  lemma SecondHeaderMustFit()
    ensures WalkFrom(Linked(0, 1), 0x120, 2, 0, {}) == Ok([0, 0x100])
    ensures WalkFrom(Linked(0, 1), 0x11F, 2, 0, {}) == Err(AssertionError)
    ensures WalkFrom(Linked(0x80, 0), 0x140, 2, 0, {}) == Err(AssertionError)
  {
    LinkOf(0, 1);
    LinkOf(0x80, 0);
    OneStep(Linked(0, 1), 0x120, 0x100);
    OneStep(Linked(0, 1), 0x11F, 0x100);
    OneStep(Linked(0x80, 0), 0x140, 0x80);
  }
}
