/** The two task streams handed to the engine for the same selected tasks: the
    original layout cut off behind the last one, and the packed layout. */
module Bootstrap {
  import opened Bits
  import opened Sorting
  import opened TaskChain
  import opened TaskParsing
  import opened Words

  const SPACING := 0x300

  /** The slot of task `index` in the packed layout. */
  function Packed(index: nat): nat {
    SPACING * index
  }

  /** word | 0x03000000: the two lowest bits of the top byte. */
  function WithFinalBits(top: Byte): Byte {
    top - top % 4 + 3
  }

  /** The terminated header: final bits set, next size cleared, no link. */
  ghost predicate IsTerminated(before: seq<Byte>, base: nat, after: seq<Byte>) {
    && base + 0x20 <= |before| == |after|
    && after[base + 3] == WithFinalBits(before[base + 3])
    && after[base + 6] == 0 && after[base + 7] == before[base + 7] - before[base + 7] % 2
    && Link(after, base) == 0
    && forall k :: 0 <= k < |before| && !Terminal(base, k) ==> after[k] == before[k]
  }

  predicate Terminal(base: nat, k: nat) {
    k == base + 3 || k == base + 6 || k == base + 7 || base + NEXT_POINTER <= k < base + 0x20
  }

  method TerminateTask(stream: array<Byte>, start: nat) returns (r: Result<()>)
    modifies stream
    ensures r.Ok? <==> start + 0x20 <= stream.Length
    ensures r.Ok? ==> IsTerminated(old(stream[..]), start, stream[..])
    ensures r.Err? ==> r.fault == ValueError && stream[..] == old(stream[..])
  {
    if start + 0x20 > stream.Length {
      return Err(ValueError);
    }
    stream[start + 3] := WithFinalBits(stream[start + 3]);
    var nextSize: int := stream[start + 6] + 0x100 * (stream[start + 7] as int);
    var cleared := nextSize - nextSize % 0x200;
    assert cleared % 0x100 == 0 && cleared / 0x100 == stream[start + 7] - stream[start + 7] % 2;
    stream[start + 6], stream[start + 7] := cleared % 0x100, cleared / 0x100;
    PackInto(stream, start + NEXT_POINTER, 0);
    r := Ok(());
  }

  method BuildOriginalPrefix(data: seq<Byte>, start: int, size: int, bases: seq<nat>, count: nat)
    returns (r: Result<seq<Byte>>)
    ensures r.Ok? <==>
              && 1 <= count <= |bases|
              && 0 <= start && 1 <= size && start + size <= |data|
              && bases[count - 1] + 0x20 <= size
    ensures r.Ok? ==> IsTerminated(data[start..start + size], bases[count - 1], r.value)
    ensures r.Err? ==> r.fault == ValueError
  {
    if count < 1 || |bases| < count {
      return Err(ValueError);
    }
    if start < 0 || size < 1 || start + size > |data| {
      return Err(ValueError);
    }
    var text := data[start..start + size];
    var prefix := new Byte[size](i requires 0 <= i < size => text[i]);
    assert prefix[..] == text;
    var _ :- TerminateTask(prefix, bases[count - 1]);
    r := Ok(prefix[..]);
  }

  // ---- packing ----

  /** data[lo:hi] with Python's clipping. */
  function Slice(data: seq<Byte>, lo: int, hi: int): seq<Byte> {
    var a := Clip(lo, |data|);
    var b := Clip(hi, |data|);
    if a <= b then data[a..b] else []
  }

  function Clip(i: int, length: nat): (c: nat)
    ensures c <= length
    ensures 0 <= i <= length ==> c == i
  {
    if i < 0 then (if i + length < 0 then 0 else i + length) else if i > length then length else i
  }

  /** s[at:at + n] = bytes; it lengthens or shortens `s` when the lengths differ. */
  function Assign(s: seq<Byte>, at: nat, n: nat, bytes: seq<Byte>): (r: seq<Byte>)
    ensures |bytes| == n && at + n <= |s| ==>
              |r| == |s| && forall k :: 0 <= k < |s| ==> r[k] == if at <= k < at + n then bytes[k - at] else s[k]
  {
    s[..Clip(at, |s|)] + bytes + s[Clip(at + n, |s|)..]
  }

  /** The position of `base` among the selected bases; the last one wins, as in a dictionary. */
  function Position(bases: seq<nat>, base: nat): (i: int)
    ensures -1 <= i < |bases| && (i >= 0 ==> bases[i] == base)
    ensures i < 0 <==> base !in bases
  {
    if bases == [] then -1
    else
      var last := |bases| - 1;
      assert bases == bases[..last] + [bases[last]];
      if bases[last] == base then last else Position(bases[..last], base)
  }

  function Copied(tdSize: nat, size: int, base: nat): int {
    if tdSize < size - base then tdSize else size - base
  }

  /** (header & ~0xFFFF) | index */
  function WithId(header: nat, index: nat): nat {
    Or(Shl(header / 0x1_0000, 16), index)
  }

  /** The id goes into the low half and leaves the high half alone, as long as it fits there. */
  lemma IdKeepsHighHalf(header: nat, index: nat)
    requires header < WORD_LIMIT && index < 0x1_0000
    ensures WithId(header, index) == header / 0x1_0000 * 0x1_0000 + index < WORD_LIMIT
  {
    ShiftBy16(1);
    ShiftBy16(header / 0x1_0000);
    OrOfDisjoint(header / 0x1_0000, index, 16);
  }

  lemma IdFits(header: nat, index: nat)
    requires header < WORD_LIMIT && index < WORD_LIMIT
    ensures WithId(header, index) < WORD_LIMIT
  {
    ShiftBy16(1);
    ShiftBy16(0x1_0000);
    ShiftTwice(1, 16, 16);
    ShiftBy16(header / 0x1_0000);
    OrFits(Shl(header / 0x1_0000, 16), index, 32);
  }

  /** The new link word: null and unselected links become null. */
  function MappedLink(bases: seq<nat>, link: nat): nat {
    if link == 0 || Position(bases, link) < 0 then 0 else Packed(Position(bases, link))
  }

  /** Selected headers inside the text, descriptors no longer than a slot, addressable slots. */
  ghost predicate Placeable(text: seq<Byte>, bases: seq<nat>, tdSize: nat) {
    && bases != [] && 0x20 <= tdSize <= SPACING && Packed(|bases|) <= WORD_LIMIT
    && forall i :: 0 <= i < |bases| ==> bases[i] + 0x20 <= |text|
  }

  /** Slot `i`: the descriptor's bytes with a new id and link, then zeros. */
  ghost predicate IsPlaced(boot: seq<Byte>, text: seq<Byte>, bases: seq<nat>, tdSize: nat, i: nat)
    requires Placeable(text, bases, tdSize) && i < |bases|
  {
    var at, n := Packed(i), Copied(tdSize, |text|, bases[i]);
    && at + n <= |boot|
    && (forall x :: at + 4 <= x < at + n && !(at + NEXT_POINTER <= x < at + 0x20) ==>
      boot[x] == text[x - at + bases[i]])
    && Word(boot, at) == WithId(Word(text, bases[i]), i)
    && Link(boot, at) == MappedLink(bases, Link(text, bases[i]))
    && forall x :: at + n <= x < at + SPACING && x < |boot| ==> boot[x] == 0
  }

  /** The first `n` slots are filled, the rest of the stream is still zero. */
  ghost predicate Progress(boot: seq<Byte>, text: seq<Byte>, bases: seq<nat>, tdSize: nat, n: nat)
    requires Placeable(text, bases, tdSize) && n <= |bases|
  {
    && |boot| == Packed(|bases| - 1) + tdSize
    && (forall i {:trigger IsPlaced(boot, text, bases, tdSize, i)} :: 0 <= i < n ==>
      IsPlaced(boot, text, bases, tdSize, i))
    && forall x :: Packed(n) <= x < |boot| ==> boot[x] == 0
  }

  /** A later slot's bytes do not reach into an earlier slot. */
  lemma SlotKept(before: seq<Byte>, after: seq<Byte>, text: seq<Byte>, bases: seq<nat>, tdSize: nat, n: nat)
    requires Placeable(text, bases, tdSize) && n < |bases| && Progress(before, text, bases, tdSize, n)
    requires |after| == |before| && forall x :: 0 <= x < Packed(n) ==> after[x] == before[x]
    ensures forall i {:trigger IsPlaced(after, text, bases, tdSize, i)} ::
              0 <= i < n ==> IsPlaced(after, text, bases, tdSize, i)
  {
    forall i | 0 <= i < n
      ensures IsPlaced(after, text, bases, tdSize, i)
    {
      assert IsPlaced(before, text, bases, tdSize, i);
      assert Packed(i) + SPACING <= Packed(n);
    }
  }

  /** The link of a selected task is null, selected, or the last one's. */
  predicate LinkSelected(text: seq<Byte>, bases: seq<nat>, i: nat)
    requires i < |bases| && bases[i] + 0x20 <= |text|
  {
    var link := Link(text, bases[i]);
    link == 0 || link in bases || i == |bases| - 1
  }

  /** The descriptor stands in its slot as it was in the text. */
  ghost predicate IsCopied(
    boot: seq<Byte>, text: seq<Byte>, bases: seq<nat>, tdSize: nat, i: nat, copied: seq<Byte>)
    requires Placeable(text, bases, tdSize) && i < |bases|
  {
    var at, n := Packed(i), Copied(tdSize, |text|, bases[i]);
    && |copied| == |boot| && at + n <= |boot| && 0x20 <= n <= SPACING
    && (forall x :: 0 <= x < at ==> copied[x] == boot[x])
    && (forall x :: at <= x < at + n ==> copied[x] == text[x - at + bases[i]])
    && (forall x :: at + n <= x < |boot| ==> copied[x] == 0)
    && Word(copied, at) == Word(text, bases[i]) && Link(copied, at) == Link(text, bases[i])
  }

  lemma CopyIntoSlot(
    boot: seq<Byte>, text: seq<Byte>, bases: seq<nat>, tdSize: nat, i: nat, copied: seq<Byte>, bytes: seq<Byte>)
    requires Placeable(text, bases, tdSize) && i < |bases| && Progress(boot, text, bases, tdSize, i)
    requires var n := Copied(tdSize, |text|, bases[i]);
             bytes == text[bases[i]..bases[i] + n] && copied == Assign(boot, Packed(i), n, bytes)
    ensures IsCopied(boot, text, bases, tdSize, i, copied)
  {
    var at, n := Packed(i), Copied(tdSize, |text|, bases[i]);
    assert Packed(i) <= Packed(|bases| - 1);
    assert |bytes| == n && at + n <= |boot| == |copied|;
    forall x | 0 <= x < |copied|
      ensures x < at ==> copied[x] == boot[x]
      ensures at <= x < at + n ==> copied[x] == text[x - at + bases[i]]
      ensures at + n <= x ==> copied[x] == 0
    {
      if at <= x < at + n {
        assert copied[x] == bytes[x - at];
      } else {
        assert copied[x] == boot[x];
      }
    }
    assert SameBytes(copied, at, text, bases[i], n);
    SameWord(copied, at, text, bases[i], n, at);
    SameWord(copied, at, text, bases[i], n, at + NEXT_POINTER);
  }

  lemma SliceOfText(data: seq<Byte>, start: nat, size: nat, base: nat, n: nat)
    requires start + size <= |data| && base + n <= size
    ensures Slice(data, start + base, start + base + n) == data[start..start + size][base..base + n]
  {
    var slice, text := Slice(data, start + base, start + base + n), data[start..start + size];
    assert slice == data[start + base..start + base + n];
    forall k | 0 <= k < n
      ensures slice[k] == text[base..base + n][k]
    {
      assert text[base + k] == data[start + (base + k)];
    }
  }

  /** The inputs the packing is meant for: the text lies in the file, and the loop has come to `index`. */
  ghost predicate Sound(
    boot: seq<Byte>, data: seq<Byte>, start: int, size: int, bases: seq<nat>, tdSize: nat, index: nat)
    requires index < |bases|
  {
    && InFile(data, start, size)
    && Placeable(data[start..start + size], bases, tdSize)
    && Progress(boot, data[start..start + size], bases, tdSize, index)
  }

  method CopyTask(boot: seq<Byte>, data: seq<Byte>, start: int, size: int, bases: seq<nat>, tdSize: nat, index: nat)
    returns (r: Result<seq<Byte>>)
    requires index < |bases|
    ensures Sound(boot, data, start, size, bases, tdSize, index) ==>
              r.Ok? && IsCopied(boot, data[start..start + size], bases, tdSize, index, r.value)
  {
    if size - bases[index] < 0x20 {
      return Err(ValueError);
    }
    var source, n := start + bases[index], Copied(tdSize, size, bases[index]);
    var bytes := Slice(data, source, source + n);
    var copied := Assign(boot, Packed(index), n, bytes);
    if Sound(boot, data, start, size, bases, tdSize, index) {
      SliceOfText(data, start, size, bases[index], n);
      CopyIntoSlot(boot, data[start..start + size], bases, tdSize, index, copied, bytes);
    }
    r := Ok(copied);
  }

  /** The renumbered and relinked descriptor. */
  ghost predicate IsFinished(copied: seq<Byte>, bases: seq<nat>, i: nat, linked: seq<Byte>) {
    var at := Packed(i);
    && at + 0x20 <= |copied| && |linked| == |copied|
    && (forall x :: 0 <= x < |copied| && !(at <= x < at + 4) && !(at + NEXT_POINTER <= x < at + 0x20) ==>
      linked[x] == copied[x])
    && Word(linked, at) == WithId(Word(copied, at), i)
    && Link(linked, at) == MappedLink(bases, Link(copied, at))
  }

  /** Number a copied descriptor and map its link. */
  method FinishTask(copied: seq<Byte>, bases: seq<nat>, index: nat) returns (r: Result<seq<Byte>>)
    requires index < |bases|
    ensures r.Ok? ==> IsFinished(copied, bases, index, r.value)
    ensures Packed(index) + 0x20 <= |copied| && Packed(|bases|) <= WORD_LIMIT ==>
              var link := Link(copied, Packed(index));
              r.Ok? <==> link == 0 || link in bases || index == |bases| - 1
  {
    var at := Packed(index);
    if at + 4 > |copied| {
      return Err(StructError);
    }
    if Packed(|bases|) <= WORD_LIMIT {
      IdFits(Word(copied, at), index);
    }
    if WithId(Word(copied, at), index) >= WORD_LIMIT {
      return Err(StructError);
    }
    var numbered := Put(copied, at, WithId(Word(copied, at), index));
    if at + 0x20 > |numbered| {
      return Err(StructError);
    }
    var link := Link(numbered, at);
    if link == 0 {
      return Ok(numbered);
    }
    var target := Position(bases, link);
    if target < 0 && index != |bases| - 1 {
      return Err(ValueError);
    }
    var mapped := if target < 0 then 0 else Packed(target);
    if mapped >= WORD_LIMIT {
      return Err(StructError);
    }
    r := Ok(Put(numbered, at + NEXT_POINTER, mapped));
  }

  lemma FinishSlot(
    boot: seq<Byte>, text: seq<Byte>, bases: seq<nat>, tdSize: nat, i: nat, copied: seq<Byte>, linked: seq<Byte>)
    requires Placeable(text, bases, tdSize) && i < |bases| && Progress(boot, text, bases, tdSize, i)
    requires IsCopied(boot, text, bases, tdSize, i, copied) && IsFinished(copied, bases, i, linked)
    ensures Progress(linked, text, bases, tdSize, i + 1)
  {
    assert IsPlaced(linked, text, bases, tdSize, i);
    SlotKept(boot, linked, text, bases, tdSize, i);
  }

  ghost predicate InFile(data: seq<Byte>, start: int, size: int) {
    0 <= start && 0 <= size && start + size <= |data|
  }

  /** One turn of the packing loop. */
  method PackTask(boot: seq<Byte>, data: seq<Byte>, start: int, size: int, bases: seq<nat>, tdSize: nat, index: nat)
    returns (r: Result<seq<Byte>>)
    requires index < |bases|
    ensures Sound(boot, data, start, size, bases, tdSize, index) ==>
              var text := data[start..start + size];
              && (r.Ok? <==> LinkSelected(text, bases, index))
              && (r.Ok? ==> Progress(r.value, text, bases, tdSize, index + 1))
  {
    var copied :- CopyTask(boot, data, start, size, bases, tdSize, index);
    var linked :- FinishTask(copied, bases, index);
    if Sound(boot, data, start, size, bases, tdSize, index) {
      FinishSlot(boot, data[start..start + size], bases, tdSize, index, copied, linked);
    }
    r := Ok(linked);
  }

  method PackTasks(data: seq<Byte>, start: int, size: int, bases: seq<nat>, tdSize: nat) returns (r: Result<seq<Byte>>)
    requires bases != []
    ensures InFile(data, start, size) && Placeable(data[start..start + size], bases, tdSize) ==>
              var text := data[start..start + size];
              && (r.Ok? <==> forall i :: 0 <= i < |bases| ==> LinkSelected(text, bases, i))
              && (r.Ok? ==> Progress(r.value, text, bases, tdSize, |bases|))
  {
    var boot := Zeros(Packed(|bases| - 1) + tdSize);
    ghost var text := if InFile(data, start, size) then data[start..start + size] else [];
    ghost var sound := InFile(data, start, size) && Placeable(text, bases, tdSize);
    for index := 0 to |bases|
      invariant sound ==> Progress(boot, text, bases, tdSize, index)
      invariant sound ==> forall i :: 0 <= i < index ==> LinkSelected(text, bases, i)
    {
      boot :- PackTask(boot, data, start, size, bases, tdSize, index);
    }
    r := Ok(boot);
  }

  /** Packing fails, on sound inputs, exactly when a task before the last links
      outside the selection; otherwise it fills every slot and ends the last one. */
  method BuildBootstrap(data: seq<Byte>, start: int, size: int, bases: seq<nat>, tdSize: nat, count: nat)
    returns (r: Result<seq<Byte>>)
    ensures count < 1 || |bases| < count ==> r == Err(ValueError)
    ensures 1 <= count <= |bases| && InFile(data, start, size)
            && Placeable(data[start..start + size], bases[..count], tdSize) ==>
              var text, selected := data[start..start + size], bases[..count];
              && (r.Ok? <==> forall i :: 0 <= i < count ==> LinkSelected(text, selected, i))
              && (r.Ok? ==> IsBootstrap(text, selected, tdSize, r.value))
  {
    if count < 1 || |bases| < count {
      return Err(ValueError);
    }
    var selected := bases[..count];
    var boot :- PackTasks(data, start, size, selected, tdSize);
    var stream := new Byte[|boot|](i requires 0 <= i < |boot| => boot[i]);
    assert stream[..] == boot;
    if InFile(data, start, size) && Placeable(data[start..start + size], selected, tdSize) {
      assert IsPlaced(boot, data[start..start + size], selected, tdSize, count - 1);
    }
    var _ :- TerminateTask(stream, Packed(count - 1));
    r := Ok(stream[..]);
  }

  /** A bootstrap is a fully packed stream whose last task has been terminated. */
  ghost predicate IsBootstrap(text: seq<Byte>, bases: seq<nat>, tdSize: nat, out: seq<Byte>)
    requires Placeable(text, bases, tdSize)
  {
    exists boot :: Progress(boot, text, bases, tdSize, |bases|) && IsTerminated(boot, Packed(|bases| - 1), out)
  }

  // ---- the two layouts ----

  /** The selected bases as the discovery returns them, each linking to the next. */
  ghost predicate SelectedChain(text: seq<Byte>, bases: seq<nat>) {
    && Ascending(bases)
    && (forall i :: 0 <= i < |bases| ==> bases[i] % 0x100 == 0 && bases[i] + 0x20 <= |text|)
    && forall i :: 0 < i < |bases| ==> Link(text, bases[i - 1]) == bases[i]
  }

  /** Task `i` stands at at[i], on the grid, and links to the following one, the last to nothing. */
  ghost predicate LinksOn(stream: seq<Byte>, at: seq<nat>, i: nat)
    requires i < |at|
  {
    && at[i] % 0x100 == 0 && at[i] + 0x20 <= |stream|
    && Link(stream, at[i]) == if i + 1 < |at| then at[i + 1] else 0
  }

  ghost predicate LinksInOrder(stream: seq<Byte>, at: seq<nat>) {
    forall i :: 0 <= i < |at| ==> LinksOn(stream, at, i)
  }

  /** Such a stream is walked as these places and no others, however many tasks the walk may count. */
  lemma LinksAreWalked(stream: seq<Byte>, at: seq<nat>, count: nat)
    requires at != [] && Ascending(at) && LinksInOrder(stream, at) && |at| <= count
    ensures WalkFrom(stream, |stream|, count, at[0], {}) == Ok(at)
  {
    forall i | 0 <= i < |at|
      ensures at[i] + 0x20 <= |stream| && LinkFits(at[i], |stream|)
    {
      assert LinksOn(stream, at, i);
    }
    forall i | 0 < i < |at|
      ensures Link(stream, at[i - 1]) == at[i] != 0
    {
      assert LinksOn(stream, at, i - 1) && at[i - 1] < at[i];
    }
    assert LinksOn(stream, at, |at| - 1);
    WalkFromIsPath(stream, |stream|, count, at[0], at);
  }

  ghost function PackedBases(n: nat): (at: seq<nat>)
    ensures |at| == n && forall i :: 0 <= i < n ==> at[i] == Packed(i) == 0x300 * i
  {
    seq(n, i requires 0 <= i < n => Packed(i))
  }

  /** Ending the last task leaves every earlier header as it was. */
  lemma EarlierTaskUntouched(text: seq<Byte>, bases: seq<nat>, prefix: seq<Byte>, i: nat, k: nat)
    requires SelectedChain(text, bases) && bases != [] && IsTerminated(text, bases[|bases| - 1], prefix)
    requires i < |bases| - 1 && bases[i] <= k < bases[i] + 0x100 && k < |text|
    ensures prefix[k] == text[k]
  {
    GridApart(bases[i], bases[|bases| - 1]);
  }

  lemma PrefixWalks(text: seq<Byte>, bases: seq<nat>, prefix: seq<Byte>, count: nat)
    requires SelectedChain(text, bases) && bases != [] && IsTerminated(text, bases[|bases| - 1], prefix)
    requires |bases| <= count
    ensures WalkFrom(prefix, |prefix|, count, bases[0], {}) == Ok(bases)
  {
    PrefixLinks(text, bases, prefix);
    LinksAreWalked(prefix, bases, count);
  }

  lemma PrefixLinks(text: seq<Byte>, bases: seq<nat>, prefix: seq<Byte>)
    requires SelectedChain(text, bases) && bases != [] && IsTerminated(text, bases[|bases| - 1], prefix)
    ensures LinksInOrder(prefix, bases)
  {
    forall i | 0 <= i < |bases|
      ensures LinksOn(prefix, bases, i)
    {
      if i + 1 < |bases| {
        assert Link(text, bases[i + 1 - 1]) == bases[i + 1];
        forall k | bases[i] + NEXT_POINTER <= k < bases[i] + 0x20
          ensures prefix[k] == text[k]
        {
          EarlierTaskUntouched(text, bases, prefix, i, k);
        }
      }
    }
  }

  lemma PositionOfAscending(bases: seq<nat>, i: nat)
    requires Ascending(bases) && i < |bases|
    ensures Position(bases, bases[i]) == i
  {
    var j := Position(bases, bases[i]);
    assert bases[i] in bases;
  }

  lemma PackedWalks(text: seq<Byte>, bases: seq<nat>, tdSize: nat, out: seq<Byte>, count: nat)
    requires Placeable(text, bases, tdSize) && SelectedChain(text, bases) && IsBootstrap(text, bases, tdSize, out)
    requires |bases| <= count
    ensures WalkFrom(out, |out|, count, 0, {}) == Ok(PackedBases(|bases|))
  {
    var boot :| Progress(boot, text, bases, tdSize, |bases|) && IsTerminated(boot, Packed(|bases| - 1), out);
    PackedLinks(text, bases, tdSize, boot, out);
    LinksAreWalked(out, PackedBases(|bases|), count);
  }

  lemma PackedLinks(text: seq<Byte>, bases: seq<nat>, tdSize: nat, boot: seq<Byte>, out: seq<Byte>)
    requires Placeable(text, bases, tdSize) && SelectedChain(text, bases)
    requires Progress(boot, text, bases, tdSize, |bases|) && IsTerminated(boot, Packed(|bases| - 1), out)
    ensures LinksInOrder(out, PackedBases(|bases|))
  {
    var at := PackedBases(|bases|);
    forall i | 0 <= i < |bases|
      ensures LinksOn(out, at, i)
    {
      PackedOnGrid(i);
      if i + 1 < |bases| {
        assert IsPlaced(boot, text, bases, tdSize, i);
        PackedLink(text, bases, tdSize, boot, out, i);
      }
    }
  }

  lemma PackedOnGrid(i: nat)
    ensures Packed(i) % 0x100 == 0
  {
    assert Packed(i) == 0x100 * (3 * i);
  }

  lemma PackedLink(text: seq<Byte>, bases: seq<nat>, tdSize: nat, boot: seq<Byte>, out: seq<Byte>, i: nat)
    requires Placeable(text, bases, tdSize) && SelectedChain(text, bases) && i + 1 < |bases|
    requires IsPlaced(boot, text, bases, tdSize, i) && IsTerminated(boot, Packed(|bases| - 1), out)
    ensures Packed(i) + 0x20 <= |out| && Link(out, Packed(i)) == Packed(i + 1)
  {
    assert Link(text, bases[i + 1 - 1]) == bases[i + 1];
    PositionOfAscending(bases, i + 1);
    assert bases[i] < bases[i + 1];
    assert SameBytes(boot, Packed(i), out, Packed(i), 0x20);
    SameWord(boot, Packed(i), out, Packed(i), 0x20, Packed(i) + NEXT_POINTER);
  }

  /** Byte `k` of a descriptor may differ between the layouts: the link word, and the
      id, which is the low half of the header word while the index fits there. */
  predicate Renamed(index: nat, k: nat) {
    NEXT_POINTER <= k < 0x20 || k < (if index < 0x1_0000 then 2 else 4)
  }

  /** Within the copied bytes the two descriptors are the same but for the renamed ones. */
  ghost predicate SameDescriptor(prefix: seq<Byte>, base: nat, out: seq<Byte>, at: nat, n: nat, index: nat) {
    && base + n <= |prefix| && at + n <= |out|
    && forall x :: base <= x < base + n && !Renamed(index, x - base) ==> prefix[x] == out[x - base + at]
  }

  /** The high half of the header survives the renumbering. */
  lemma HighHalf(text: seq<Byte>, base: nat, boot: seq<Byte>, at: nat, index: nat)
    requires base + 4 <= |text| && at + 4 <= |boot| && index < 0x1_0000
    requires Word(boot, at) == WithId(Word(text, base), index)
    ensures boot[at + 2] == text[base + 2] && boot[at + 3] == text[base + 3]
  {
    IdKeepsHighHalf(Word(text, base), index);
    var hi: int, hi': int :=
      text[base + 2] + 0x100 * (text[base + 3] as int), boot[at + 2] + 0x100 * (boot[at + 3] as int);
    var lo: int, lo': int := text[base] + 0x100 * (text[base + 1] as int), boot[at] + 0x100 * (boot[at + 1] as int);
    assert Word(text, base) == lo + 0x1_0000 * hi && Word(boot, at) == lo' + 0x1_0000 * hi';
    assert Word(text, base) / 0x1_0000 == hi;
    assert lo' + 0x1_0000 * hi' == index + 0x1_0000 * hi;
    SplitByte(boot[at + 2], boot[at + 3], text[base + 2], text[base + 3]);
  }

  lemma PackedDescriptor(text: seq<Byte>, bases: seq<nat>, tdSize: nat, boot: seq<Byte>, i: nat)
    requires Placeable(text, bases, tdSize) && i < |bases| && IsPlaced(boot, text, bases, tdSize, i)
    ensures SameDescriptor(text, bases[i], boot, Packed(i), Copied(tdSize, |text|, bases[i]), i)
  {
    var at, n := Packed(i), Copied(tdSize, |text|, bases[i]);
    if i < 0x1_0000 {
      HighHalf(text, bases[i], boot, at, i);
    }
    forall x | bases[i] <= x < bases[i] + n && !Renamed(i, x - bases[i])
      ensures text[x] == boot[x - bases[i] + at]
    {
      var k := x - bases[i];
      if k >= 4 {
        assert boot[at + k] == text[at + k - at + bases[i]];
      } else {
        assert k == 2 || k == 3;
      }
    }
  }

  /** Bytes of task `i` copied before the last task's header: a descriptor longer than
      its gap takes bytes of later headers with it. */
  function Undisturbed(text: seq<Byte>, bases: seq<nat>, tdSize: nat, i: nat): int
    requires i < |bases|
  {
    var n, room := Copied(tdSize, |text|, bases[i]), (bases[|bases| - 1] as int) - bases[i] + 3;
    if i < |bases| - 1 && room < n then room else n
  }

  lemma EarlierDescriptor(
    text: seq<Byte>, bases: seq<nat>, tdSize: nat, prefix: seq<Byte>, boot: seq<Byte>, out: seq<Byte>, i: nat)
    requires Placeable(text, bases, tdSize) && SelectedChain(text, bases) && i < |bases| - 1
    requires IsTerminated(text, bases[|bases| - 1], prefix)
    requires Progress(boot, text, bases, tdSize, |bases|) && IsTerminated(boot, Packed(|bases| - 1), out)
    ensures SameDescriptor(text, bases[i], out, Packed(i), Copied(tdSize, |text|, bases[i]), i)
    ensures SameDescriptor(prefix, bases[i], out, Packed(i), Undisturbed(text, bases, tdSize, i), i)
  {
    var at, n, last := Packed(i), Copied(tdSize, |text|, bases[i]), bases[|bases| - 1];
    assert IsPlaced(boot, text, bases, tdSize, i);
    PackedDescriptor(text, bases, tdSize, boot, i);
    forall x | at <= x < at + n
      ensures boot[x] == out[x]
    {
      assert at + SPACING <= Packed(|bases| - 1);
    }
    assert forall x :: 0 <= x < last + 3 && x < |text| ==> prefix[x] == text[x];
  }

  lemma LastDescriptor(
    text: seq<Byte>, base: nat, prefix: seq<Byte>, boot: seq<Byte>, at: nat, out: seq<Byte>, n: nat, index: nat)
    requires IsTerminated(text, base, prefix) && IsTerminated(boot, at, out)
    requires SameDescriptor(text, base, boot, at, n, index)
    ensures SameDescriptor(prefix, base, out, at, n, index)
  {
    forall x | base <= x < base + n && !Renamed(index, x - base)
      ensures prefix[x] == out[x - base + at]
    {
      assert text[x] == boot[x - base + at];
      assert Terminal(base, x) <==> Terminal(at, x - base + at);
      if Terminal(base, x) {
        assert x == base + 3 || x == base + 6 || x == base + 7;
      }
    }
  }

  /** Both streams hand the engine the same tasks in the same order and stop at the last
      selected one; corresponding descriptors differ in id and link only, up to the last
      task's header. */
  lemma LayoutsAgree(
    text: seq<Byte>, bases: seq<nat>, tdSize: nat, prefix: seq<Byte>, out: seq<Byte>, count: nat, i: nat)
    requires Placeable(text, bases, tdSize) && SelectedChain(text, bases) && i < |bases| <= count
    requires IsTerminated(text, bases[|bases| - 1], prefix) && IsBootstrap(text, bases, tdSize, out)
    ensures WalkFrom(prefix, |prefix|, count, bases[0], {}) == Ok(bases)
    ensures WalkFrom(out, |out|, count, 0, {}) == Ok(PackedBases(|bases|))
    ensures SameDescriptor(prefix, bases[i], out, Packed(i), Undisturbed(text, bases, tdSize, i), i)
  {
    var boot :| Progress(boot, text, bases, tdSize, |bases|) && IsTerminated(boot, Packed(|bases| - 1), out);
    PrefixWalks(text, bases, prefix, count);
    PackedWalks(text, bases, tdSize, out, count);
    if i < |bases| - 1 {
      EarlierDescriptor(text, bases, tdSize, prefix, boot, out, i);
    } else {
      assert IsPlaced(boot, text, bases, tdSize, i);
      PackedDescriptor(text, bases, tdSize, boot, i);
      LastDescriptor(text, bases[i], prefix, boot, Packed(i), out, Copied(tdSize, |text|, bases[i]), i);
    }
  }

  /** A terminal byte that ending the task would leave as it is. */
  predicate AlreadyFinal(text: seq<Byte>, base: nat, k: nat)
    requires k < |text| && Terminal(base, k)
  {
    if k == base + 3 then text[k] % 4 == 3 else if k == base + 7 then text[k] % 2 == 0 else text[k] == 0
  }

  lemma KeptIfFinal(text: seq<Byte>, base: nat, prefix: seq<Byte>, k: nat)
    requires IsTerminated(text, base, prefix) && Terminal(base, k)
    ensures prefix[k] == text[k] <==> AlreadyFinal(text, base, k)
  {
    if base + NEXT_POINTER <= k {
      ZeroWordBytes(prefix, base + NEXT_POINTER);
    }
  }

  /** Every terminal byte of the last header that is copied along with task `i` is final already. */
  predicate TailIsFinal(text: seq<Byte>, bases: seq<nat>, tdSize: nat, i: nat)
    requires i < |bases| && bases[|bases| - 1] + 0x20 <= |text|
  {
    var last, end := bases[|bases| - 1], bases[i] + Copied(tdSize, |text|, bases[i]);
    forall k :: last <= k < last + 0x20 && k < end && Terminal(last, k) ==> AlreadyFinal(text, last, k)
  }

  /** An earlier task agrees over all its copied bytes if and only if the terminal bytes of the last
      header that were copied along with it were final in the text: always when the copy ends before
      that header, and otherwise a matter of that header's bytes alone. */
  lemma WholeDescriptorsAgreeIff(
    text: seq<Byte>, bases: seq<nat>, tdSize: nat, prefix: seq<Byte>, out: seq<Byte>, i: nat)
    requires Placeable(text, bases, tdSize) && SelectedChain(text, bases) && i < |bases| - 1
    requires IsTerminated(text, bases[|bases| - 1], prefix) && IsBootstrap(text, bases, tdSize, out)
    ensures SameDescriptor(prefix, bases[i], out, Packed(i), Copied(tdSize, |text|, bases[i]), i) <==>
            TailIsFinal(text, bases, tdSize, i)
  {
    var boot :| Progress(boot, text, bases, tdSize, |bases|) && IsTerminated(boot, Packed(|bases| - 1), out);
    var n, last := Copied(tdSize, |text|, bases[i]), bases[|bases| - 1];
    EarlierDescriptor(text, bases, tdSize, prefix, boot, out, i);
    GridApart(bases[i], last);
    assert SameDescriptor(prefix, bases[i], out, Packed(i), n, i) <==>
           forall k :: bases[i] <= k < bases[i] + n && !Renamed(i, k - bases[i]) ==> prefix[k] == text[k];
    KeptIfTailIsFinal(text, bases, tdSize, prefix, i);
  }

  lemma KeptIfTailIsFinal(text: seq<Byte>, bases: seq<nat>, tdSize: nat, prefix: seq<Byte>, i: nat)
    requires i < |bases| - 1 && bases[i] + 0x100 <= bases[|bases| - 1]
    requires IsTerminated(text, bases[|bases| - 1], prefix)
    ensures var end := bases[i] + Copied(tdSize, |text|, bases[i]);
            TailIsFinal(text, bases, tdSize, i) <==>
            forall k :: bases[i] <= k < end && !Renamed(i, k - bases[i]) ==> prefix[k] == text[k]
  {
    var last, end := bases[|bases| - 1], bases[i] + Copied(tdSize, |text|, bases[i]);
    forall k | bases[i] <= k < end
      ensures Terminal(last, k) ==> !Renamed(i, k - bases[i]) && (prefix[k] == text[k] <==> AlreadyFinal(text, last, k))
      ensures !Terminal(last, k) ==> prefix[k] == text[k]
    {
      if Terminal(last, k) {
        KeptIfFinal(text, last, prefix, k);
      }
    }
  }
}
