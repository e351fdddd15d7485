/** A stream laid out as equally long slots. */
module Slots {
  import opened Words

  /** i * stride, as the running sum the proofs use. */
  function SlotBase(i: nat, stride: nat): nat {
    if i == 0 then 0 else SlotBase(i - 1, stride) + stride
  }

  lemma {:induction false} SlotBaseIsProduct(i: nat, stride: nat)
    ensures SlotBase(i, stride) == i * stride
  {
    if i > 0 {
      SlotBaseIsProduct(i - 1, stride);
    }
  }

  lemma {:induction false} SlotsAreApart(i: nat, j: nat, stride: nat)
    requires i < j
    ensures SlotBase(i, stride) + stride <= SlotBase(j, stride)
  {
    if i < j - 1 {
      SlotsAreApart(i, j - 1, stride);
    }
  }

  lemma {:induction false} SlotHolding(n: nat, stride: nat, x: nat) returns (i: nat)
    requires x < SlotBase(n, stride)
    ensures i < n && SlotBase(i, stride) <= x < SlotBase(i, stride) + stride
  {
    if x < SlotBase(n - 1, stride) {
      i := SlotHolding(n - 1, stride, x);
    } else {
      i := n - 1;
    }
  }

  ghost predicate Uniform(slots: seq<seq<Byte>>, stride: nat) {
    forall i :: 0 <= i < |slots| ==> |slots[i]| == stride
  }

  /** Slot `i` of the stream holds slots[i]. */
  ghost predicate SlotIs(stream: seq<Byte>, i: nat, stride: nat, slot: seq<Byte>) {
    |slot| == stride && SameBytes(slot, 0, stream, SlotBase(i, stride), stride)
  }

  ghost predicate HasSlots(stream: seq<Byte>, slots: seq<seq<Byte>>, stride: nat) {
    && |stream| == SlotBase(|slots|, stride)
    && forall i :: 0 <= i < |slots| ==> SlotIs(stream, i, stride, slots[i])
  }

  lemma AppendSlot(stream: seq<Byte>, slots: seq<seq<Byte>>, stride: nat, slot: seq<Byte>)
    requires HasSlots(stream, slots, stride) && |slot| == stride
    ensures HasSlots(stream + slot, slots + [slot], stride)
  {
    forall i | 0 <= i < |slots|
      ensures SlotIs(stream + slot, i, stride, slots[i])
    {
      SlotsAreApart(i, |slots|, stride);
    }
    assert SlotIs(stream + slot, |slots|, stride, slot);
  }

  /** A change of one word of slot `i` leaves slot `j` as it is. */
  lemma OtherSlotStays(
    stream: seq<Byte>, changed: seq<Byte>, stride: nat, i: nat, j: nat, n: nat, at: nat, slot: seq<Byte>)
    requires i < n && j < n && i != j && at + 4 <= stride && |stream| == |changed| == SlotBase(n, stride)
    requires forall k :: 0 <= k < |stream| && !(SlotBase(i, stride) + at <= k < SlotBase(i, stride) + at + 4) ==>
               changed[k] == stream[k]
    requires SlotIs(stream, j, stride, slot)
    ensures SlotIs(changed, j, stride, slot)
  {
    if j < i {
      SlotsAreApart(j, i, stride);
    } else {
      SlotsAreApart(i, j, stride);
    }
  }

  /** Changing one word of a slot changes that slot alone. */
  lemma SlotReplaced(
    stream: seq<Byte>, changed: seq<Byte>, slots: seq<seq<Byte>>, stride: nat, i: nat, at: nat, slot: seq<Byte>)
    requires HasSlots(stream, slots, stride) && i < |slots| && at + 4 <= stride && |changed| == |stream|
    requires forall k :: 0 <= k < |stream| && !(SlotBase(i, stride) + at <= k < SlotBase(i, stride) + at + 4) ==>
               changed[k] == stream[k]
    requires SlotIs(changed, i, stride, slot)
    ensures HasSlots(changed, slots[i := slot], stride)
  {
    var after := slots[i := slot];
    forall j | 0 <= j < |slots|
      ensures SlotIs(changed, j, stride, after[j])
    {
      if j != i {
        OtherSlotStays(stream, changed, stride, i, j, |slots|, at, slots[j]);
      }
    }
  }

  lemma PutInSame(slot: seq<Byte>, stream: seq<Byte>, base: nat, at: nat, w: nat)
    requires SameBytes(slot, 0, stream, base, |slot|) && at + 4 <= |slot| && w < WORD_LIMIT
    ensures SameBytes(Put(slot, at, w), 0, Put(stream, base + at, w), base, |slot|)
  {
  }

  /** A stream is determined by its slots. */
  lemma SlotsDetermineStream(a: seq<Byte>, b: seq<Byte>, slots: seq<seq<Byte>>, stride: nat)
    requires HasSlots(a, slots, stride) && HasSlots(b, slots, stride)
    ensures a == b
  {
    forall x | 0 <= x < |a|
      ensures a[x] == b[x]
    {
      var i := SlotHolding(|slots|, stride, x);
      assert SlotIs(a, i, stride, slots[i]) && SlotIs(b, i, stride, slots[i]);
      var k := x - SlotBase(i, stride);
      assert slots[i][k] == a[x] && slots[i][k] == b[x];
    }
  }

  /** The slots with words[i] written at offset `at` of slot `i`, for the words there are. */
  ghost function Stamped(slots: seq<seq<Byte>>, stride: nat, at: nat, words: seq<nat>): (r: seq<seq<Byte>>)
    requires Uniform(slots, stride) && at + 4 <= stride && |words| <= |slots|
    requires forall i :: 0 <= i < |words| ==> words[i] < WORD_LIMIT
    ensures |r| == |slots| && Uniform(r, stride)
    ensures forall i :: 0 <= i < |slots| ==> r[i] == if i < |words| then Put(slots[i], at, words[i]) else slots[i]
  {
    seq(|slots|, i requires 0 <= i < |slots| => if i < |words| then Put(slots[i], at, words[i]) else slots[i])
  }

  lemma StampedStep(slots: seq<seq<Byte>>, stride: nat, at: nat, words: seq<nat>, more: seq<nat>, w: nat)
    requires Uniform(slots, stride) && at + 4 <= stride && |words| < |slots| && w < WORD_LIMIT && more == words + [w]
    requires forall i :: 0 <= i < |words| ==> words[i] < WORD_LIMIT
    ensures var before, after := Stamped(slots, stride, at, words), Stamped(slots, stride, at, more);
            && |before[|words|]| == stride && after[|words|] == Put(before[|words|], at, w)
            && after == before[|words| := after[|words|]]
  {
    var before, after := Stamped(slots, stride, at, words), Stamped(slots, stride, at, more);
    var expected := before[|words| := after[|words|]];
    assert forall i :: 0 <= i < |slots| ==> after[i] == expected[i];
  }

  /** Writing a word of a slot replaces that slot by itself with the word. */
  lemma SlotWritten(
    stream: seq<Byte>, changed: seq<Byte>, slots: seq<seq<Byte>>, stride: nat, i: nat, at: nat, w: nat, slot: seq<Byte>)
    requires HasSlots(stream, slots, stride) && i < |slots| && at + 4 <= stride && w < WORD_LIMIT
    requires SlotBase(i, stride) + at + 4 <= |stream| && changed == Put(stream, SlotBase(i, stride) + at, w)
    requires |slots[i]| == stride && slot == Put(slots[i], at, w)
    ensures HasSlots(changed, slots[i := slot], stride)
  {
    assert SlotIs(stream, i, stride, slots[i]);
    PutInSame(slots[i], stream, SlotBase(i, stride), at, w);
    SlotReplaced(stream, changed, slots, stride, i, at, slot);
  }

  /** Writing the next word at its slot takes the slots from `before` to `after`. */
  lemma StampNext(
    stream: seq<Byte>, changed: seq<Byte>, before: seq<seq<Byte>>, after: seq<seq<Byte>>, stride: nat, n: nat,
    at: nat, w: nat)
    requires HasSlots(stream, before, stride) && n < |before| == |after| && at + 4 <= stride && w < WORD_LIMIT
    requires SlotBase(n, stride) + at + 4 <= |stream| && changed == Put(stream, SlotBase(n, stride) + at, w)
    requires |before[n]| == stride && after[n] == Put(before[n], at, w) && after == before[n := after[n]]
    ensures HasSlots(changed, after, stride)
  {
    SlotWritten(stream, changed, before, stride, n, at, w, after[n]);
  }
}
