/** Permuting the surface channels of every reachable task, in place. */
module ChannelRewire {
  import opened Sorting
  import opened Words

  const SELECTOR := 32

  /** The selector word: three rewired 5-bit channels at bits 0, 6 and 12, a fourth
      at bit 18, and the bits between and above them. */
  datatype Selector = Selector(
    c0: nat, gap0: nat, c1: nat, gap1: nat, c2: nat, gap2: nat, c3: nat, top: nat)

  predicate WellFormed(s: Selector) {
    && s.c0 < 32 && s.gap0 < 2 && s.c1 < 32 && s.gap1 < 2
    && s.c2 < 32 && s.gap2 < 2 && s.c3 < 32 && s.top < 0x200
  }

  function Unpack(w: nat): (s: Selector)
    requires w < WORD_LIMIT
    ensures WellFormed(s)
  {
    var w1 := w / 32;
    var w2 := w1 / 2;
    var w3 := w2 / 32;
    var w4 := w3 / 2;
    var w5 := w4 / 32;
    var w6 := w5 / 2;
    Selector(w % 32, w1 % 2, w2 % 32, w3 % 2, w4 % 32, w5 % 2, w6 % 32, w6 / 32)
  }

  function Pack(s: Selector): (w: nat)
    requires WellFormed(s)
    ensures w < WORD_LIMIT
  {
    s.c0 + 32 * (s.gap0 + 2 * (s.c1 + 32 * (s.gap1 + 2 * (s.c2 + 32 * (s.gap2 + 2 * (s.c3 + 32 * s.top))))))
  }

  lemma PackUnpack(w: nat)
    requires w < WORD_LIMIT
    ensures Pack(Unpack(w)) == w
  {
  }

  lemma UnpackPack(s: Selector)
    requires WellFormed(s)
    ensures Unpack(Pack(s)) == s
  {
    var w6 := s.c3 + 32 * s.top;
    var w5 := s.gap2 + 2 * w6;
    var w4 := s.c2 + 32 * w5;
    var w3 := s.gap1 + 2 * w4;
    var w2 := s.c1 + 32 * w3;
    var w1 := s.gap0 + 2 * w2;
    var w := s.c0 + 32 * w1;
    assert w6 / 32 == s.top && w6 % 32 == s.c3;
    assert w5 / 2 == w6 && w5 % 2 == s.gap2;
    assert w4 / 32 == w5 && w4 % 32 == s.c2;
    assert w3 / 2 == w4 && w3 % 2 == s.gap1;
    assert w2 / 32 == w3 && w2 % 32 == s.c1;
    assert w1 / 2 == w2 && w1 % 2 == s.gap0;
    assert w / 32 == w1 && w % 32 == s.c0;
  }

  /** The block swap: sources behind the destinations, destinations in front. */
  function RewireChannel(channel: nat, src: nat, dst: nat): Result<nat> {
    if channel < 4 then Ok(channel)
    else if channel < 4 + src then Ok(channel + dst)
    else if channel < 4 + src + dst then Ok(channel - src)
    else Err(ValueError)
  }

  /** Within the declared layout the swap is undone by the swap with the counts exchanged. */
  lemma SwapIsUndone(channel: nat, src: nat, dst: nat)
    requires RewireChannel(channel, src, dst).Ok? && src + dst <= 28
    ensures var there := RewireChannel(channel, src, dst).value;
            there < 32 && RewireChannel(there, dst, src) == Ok(channel)
  {
  }

  /** The rewired selector word, or the reason it is refused. */
  function RewireSelector(w: nat, src: nat, dst: nat): (r: Result<nat>)
    requires w < WORD_LIMIT && src + dst <= 28
    ensures r.Ok? ==> r.value < WORD_LIMIT
    ensures r.Err? ==> r.fault == ValueError
  {
    var s := Unpack(w);
    if s.c3 >= 4 then Err(ValueError)
    else
      var a :- RewireChannel(s.c0, src, dst);
      var b :- RewireChannel(s.c1, src, dst);
      var c :- RewireChannel(s.c2, src, dst);
      Ok(Pack(s.(c0 := a, c1 := b, c2 := c)))
  }

  /** Only the three channel fields of the word change. */
  lemma OnlyChannelsChange(w: nat, src: nat, dst: nat)
    requires w < WORD_LIMIT && src + dst <= 28 && RewireSelector(w, src, dst).Ok?
    ensures var s, t := Unpack(w), Unpack(RewireSelector(w, src, dst).value);
            && t == s.(c0 := t.c0, c1 := t.c1, c2 := t.c2)
            && RewireChannel(s.c0, src, dst) == Ok(t.c0)
            && RewireChannel(s.c1, src, dst) == Ok(t.c1)
            && RewireChannel(s.c2, src, dst) == Ok(t.c2)
  {
    var s := Unpack(w);
    UnpackPack(s.(c0 := RewireChannel(s.c0, src, dst).value, c1 := RewireChannel(s.c1, src, dst).value,
                  c2 := RewireChannel(s.c2, src, dst).value));
  }

  lemma SelectorIsRestored(w: nat, src: nat, dst: nat)
    requires w < WORD_LIMIT && src + dst <= 28 && RewireSelector(w, src, dst).Ok?
    ensures RewireSelector(RewireSelector(w, src, dst).value, dst, src) == Ok(w)
  {
    var s := Unpack(w);
    OnlyChannelsChange(w, src, dst);
    SwapIsUndone(s.c0, src, dst);
    SwapIsUndone(s.c1, src, dst);
    SwapIsUndone(s.c2, src, dst);
    PackUnpack(w);
    var t := Unpack(RewireSelector(w, src, dst).value);
    assert t.(c0 := s.c0, c1 := s.c1, c2 := s.c2) == s;
  }

  // ---- walking the tasks ----

  predicate CompleteHeader(content: seq<Byte>, size: nat, base: nat) {
    base + 0x24 <= size && base + 0x24 <= |content|
  }

  function NextTask(content: seq<Byte>, base: nat): nat
    requires base + 0x24 <= |content|
  {
    Word(content, base + 0x1C)
  }

  /** The tasks reachable from `offset`, or the fault that rejects the stream. */
  function Reach(content: seq<Byte>, size: nat, src: nat, dst: nat, offset: nat, seen: set<nat>): (r: Result<seq<nat>>)
    requires src + dst <= 28
    ensures r.Err? ==> r.fault == ValueError
    decreases Below(|content|) - seen
  {
    if offset in seen then Ok([])
    else if !CompleteHeader(content, size, offset) then Err(ValueError)
    else
      var _ :- RewireSelector(Word(content, offset + SELECTOR), src, dst);
      if NextTask(content, offset) == 0 then Ok([offset])
      else
        assert offset in Below(|content|);
        var rest :- Reach(content, size, src, dst, NextTask(content, offset), seen + {offset});
        Ok([offset] + rest)
  }

  /** Every reached task has a complete header and an acceptable selector. */
  ghost predicate Acceptable(content: seq<Byte>, src: nat, dst: nat, bases: seq<nat>)
    requires src + dst <= 28
  {
    forall i :: 0 <= i < |bases| ==> AcceptableTask(content, src, dst, bases[i])
  }

  predicate AcceptableTask(content: seq<Byte>, src: nat, dst: nat, base: nat)
    requires src + dst <= 28
  {
    base + 0x24 <= |content| && RewireSelector(Word(content, base + SELECTOR), src, dst).Ok?
  }

  /** The rewired selector of each task. */
  function NewSelectors(content: seq<Byte>, src: nat, dst: nat, bases: seq<nat>): (words: seq<nat>)
    requires src + dst <= 28 && Acceptable(content, src, dst, bases)
    ensures |words| == |bases|
    ensures forall i :: 0 <= i < |bases| ==>
              RewireSelector(Word(content, bases[i] + SELECTOR), src, dst) == Ok(words[i])
  {
    seq(|bases|, i requires 0 <= i < |bases| => RewireSelector(Word(content, bases[i] + SELECTOR), src, dst).value)
  }

  /** One word for each base, and room for it. */
  ghost predicate Writable(size: nat, bases: seq<nat>, words: seq<nat>) {
    && |words| == |bases|
    && forall i :: 0 <= i < |bases| ==> bases[i] + 0x24 <= size && words[i] < WORD_LIMIT
  }

  /** The content after the first `n` selectors have been written, words already in place left alone. */
  function Stamped(content: seq<Byte>, bases: seq<nat>, words: seq<nat>, n: nat): (r: seq<Byte>)
    requires Writable(|content|, bases, words) && n <= |bases|
    ensures |r| == |content|
  {
    if n == 0 then content
    else
      StampOne(content, Stamped(content, bases, words, n - 1), bases[n - 1], words[n - 1])
  }

  function StampOne(content: seq<Byte>, before: seq<Byte>, base: nat, word: nat): (r: seq<Byte>)
    requires |before| == |content| && base + 0x24 <= |content| && word < WORD_LIMIT
    ensures |r| == |content|
  {
    if word == Word(content, base + SELECTOR) then before else Put(before, base + SELECTOR, word)
  }

  /** How many of the first `n` words differ from the ones in place. */
  function Changed(content: seq<Byte>, bases: seq<nat>, words: seq<nat>, n: nat): nat
    requires Writable(|content|, bases, words) && n <= |bases|
  {
    if n == 0 then 0
    else
      Changed(content, bases, words, n - 1) +
      if words[n - 1] == Word(content, bases[n - 1] + SELECTOR) then 0 else 1
  }

  /** A queued write. */
  datatype Change = Change(at: nat, word: nat)

  ghost predicate Placeable(size: nat, changes: seq<Change>) {
    forall i :: 0 <= i < |changes| ==> changes[i].at + 4 <= size && changes[i].word < WORD_LIMIT
  }

  /** The queued writes, one after another. */
  ghost function Apply(content: seq<Byte>, changes: seq<Change>): (r: seq<Byte>)
    requires Placeable(|content|, changes)
    ensures |r| == |content|
  {
    if changes == [] then content
    else
      var last := |changes| - 1;
      Put(Apply(content, changes[..last]), changes[last].at, changes[last].word)
  }

  lemma ApplyLast(content: seq<Byte>, changes: seq<Change>, change: Change)
    requires Placeable(|content|, changes) && change.at + 4 <= |content| && change.word < WORD_LIMIT
    ensures Placeable(|content|, changes + [change])
    ensures Apply(content, changes + [change]) == Put(Apply(content, changes), change.at, change.word)
  {
    var all := changes + [change];
    assert all[..|all| - 1] == changes && all[|all| - 1] == change;
  }

  predicate ValidCounts(src: int, dst: int) {
    src >= 1 && dst >= 1 && src + dst <= 28
  }

  /** The whole operation on values: the new content and how many words changed. */
  function Rewired(content: seq<Byte>, size: nat, src: int, dst: int): (r: Result<(seq<Byte>, nat)>)
    ensures r.Err? ==> r.fault == ValueError
  {
    if !ValidCounts(src, dst) then Err(ValueError)
    else
      var bases :- Reach(content, size, src, dst, 0, {});
      ReachIsAcceptable(content, size, src, dst, 0, {});
      WordsAreWritable(content, src, dst, bases);
      var words := NewSelectors(content, src, dst, bases);
      Ok((Stamped(content, bases, words, |bases|), Changed(content, bases, words, |bases|)))
  }

  lemma {:induction false} ReachIsAcceptable(
    content: seq<Byte>, size: nat, src: nat, dst: nat, offset: nat, seen: set<nat>)
    requires src + dst <= 28 && Reach(content, size, src, dst, offset, seen).Ok?
    ensures Acceptable(content, src, dst, Reach(content, size, src, dst, offset, seen).value)
    decreases Below(|content|) - seen
  {
    if offset !in seen {
      var bases, next := ReachHead(content, size, src, dst, offset, seen);
      if next != 0 {
        ReachIsAcceptable(content, size, src, dst, next, seen + {offset});
        assert bases == [bases[0]] + bases[1..];
      }
    }
  }

  /** The first task of a successful walk, and what it links to. */
  lemma ReachHead(content: seq<Byte>, size: nat, src: nat, dst: nat, offset: nat, seen: set<nat>)
    returns (bases: seq<nat>, next: nat)
    requires src + dst <= 28 && offset !in seen && Reach(content, size, src, dst, offset, seen).Ok?
    ensures bases == Reach(content, size, src, dst, offset, seen).value && bases != [] && bases[0] == offset
    ensures CompleteHeader(content, size, offset) && AcceptableTask(content, src, dst, offset)
    ensures offset in Below(|content|) && next == NextTask(content, offset)
    ensures if next == 0 then bases == [offset]
            else Reach(content, size, src, dst, next, seen + {offset}) == Ok(bases[1..])
  {
    bases := Reach(content, size, src, dst, offset, seen).value;
    next := NextTask(content, offset);
  }

  /** `changes` stands for the selectors of the `bases` visited, and `rest` is what the walk finds behind them. */
  ghost predicate Collected(
    content: seq<Byte>, src: nat, dst: nat, whole: Result<seq<nat>>, bases: seq<nat>, changes: seq<Change>,
    rest: Result<seq<nat>>)
    requires src + dst <= 28
  {
    && Acceptable(content, src, dst, bases)
    && Queued(content, bases, NewSelectors(content, src, dst, bases), changes)
    && IsWholeWalk(whole, bases, rest)
  }

  method CollectChanges(content: seq<Byte>, size: nat, src: nat, dst: nat) returns (r: Result<seq<Change>>)
    requires src + dst <= 28
    ensures var walk := Reach(content, size, src, dst, 0, {});
            if walk.Err? then r == Err(ValueError)
            else
              && Acceptable(content, src, dst, walk.value) && r.Ok?
              && Queued(content, walk.value, NewSelectors(content, src, dst, walk.value), r.value)
  {
    var changes: seq<Change>, offset: nat, seen: set<nat> := [], 0, {};
    ghost var bases: seq<nat>, whole := [], Reach(content, size, src, dst, 0, {});
    assert IsWholeWalk(whole, [], whole) by {
      assert whole.Ok? ==> [] + whole.value == whole.value;
    }
    while offset !in seen
      invariant Collected(content, src, dst, whole, bases, changes, Reach(content, size, src, dst, offset, seen))
      decreases Below(|content|) - seen
    {
      var word := CheckTask(content, size, src, dst, offset);
      if word.Err? {
        WalkIsRejected(content, size, src, dst, whole, bases, offset, seen);
        return Err(ValueError);
      }
      TaskIsCollected(content, size, src, dst, whole, bases, changes, offset, seen, word.value);
      assert offset in Below(|content|);
      seen := seen + {offset};
      bases := bases + [offset];
      if word.value != Word(content, offset + SELECTOR) {
        changes := changes + [Change(offset + SELECTOR, word.value)];
      }
      if NextTask(content, offset) == 0 {
        return Ok(changes);
      }
      offset := NextTask(content, offset);
    }
    assert bases + [] == bases;
    r := Ok(changes);
  }

  /** The rewired selector of one task; an incomplete header or a foreign channel is refused. */
  method CheckTask(content: seq<Byte>, size: nat, src: nat, dst: nat, offset: nat) returns (word: Result<nat>)
    requires src + dst <= 28
    ensures word.Ok? <==> CompleteHeader(content, size, offset) && AcceptableTask(content, src, dst, offset)
    ensures word.Ok? ==> word == RewireSelector(Word(content, offset + SELECTOR), src, dst)
  {
    if offset + 0x24 > size || offset + 0x24 > |content| {
      return Err(ValueError);
    }
    word := RewireSelector(Word(content, offset + SELECTOR), src, dst);
  }

  lemma WalkIsRejected(
    content: seq<Byte>, size: nat, src: nat, dst: nat, whole: Result<seq<nat>>, bases: seq<nat>, offset: nat,
    seen: set<nat>)
    requires src + dst <= 28 && offset !in seen
    requires !(CompleteHeader(content, size, offset) && AcceptableTask(content, src, dst, offset))
    requires IsWholeWalk(whole, bases, Reach(content, size, src, dst, offset, seen))
    ensures whole.Err?
  {
  }

  /** One task of the walk: its selector joins the queue if it changes. */
  lemma TaskIsCollected(
    content: seq<Byte>, size: nat, src: nat, dst: nat, whole: Result<seq<nat>>, bases: seq<nat>,
    changes: seq<Change>, offset: nat, seen: set<nat>, word: nat)
    requires src + dst <= 28 && offset !in seen && CompleteHeader(content, size, offset)
    requires RewireSelector(Word(content, offset + SELECTOR), src, dst) == Ok(word)
    requires Collected(content, src, dst, whole, bases, changes, Reach(content, size, src, dst, offset, seen))
    ensures var behind := ReachBehind(content, size, src, dst, NextTask(content, offset), seen + {offset});
            var more := if word == Word(content, offset + SELECTOR) then changes
              else changes + [Change(offset + SELECTOR, word)];
            && Collected(content, src, dst, whole, bases + [offset], more, behind)
            && (behind == Ok([]) ==> whole == Ok(bases + [offset]))
  {
    var words := NewSelectors(content, src, dst, bases);
    ReachStep(content, size, src, dst, offset, seen);
    OneMoreTask(content, src, dst, bases, words, offset, word);
    QueueOne(content, bases, words, changes, offset, word);
    LongerWalk(whole, bases, offset, ReachBehind(content, size, src, dst, NextTask(content, offset), seen + {offset}));
  }

  ghost function ReachBehind(
    content: seq<Byte>, size: nat, src: nat, dst: nat, next: nat, seen: set<nat>): Result<seq<nat>>
    requires src + dst <= 28
  {
    if next == 0 then Ok([]) else Reach(content, size, src, dst, next, seen)
  }

  lemma ReachStep(content: seq<Byte>, size: nat, src: nat, dst: nat, offset: nat, seen: set<nat>)
    requires src + dst <= 28 && offset !in seen && CompleteHeader(content, size, offset)
    requires AcceptableTask(content, src, dst, offset)
    ensures var rest := ReachBehind(content, size, src, dst, NextTask(content, offset), seen + {offset});
            Reach(content, size, src, dst, offset, seen) == if rest.Ok? then Ok([offset] + rest.value) else rest
  {
    assert [offset] + [] == [offset];
  }

  /** `rest` is what the walk finds behind the `bases` already visited. */
  ghost predicate IsWholeWalk(whole: Result<seq<nat>>, bases: seq<nat>, rest: Result<seq<nat>>) {
    if rest.Ok? then whole == Ok(bases + rest.value) else whole == rest
  }

  lemma LongerWalk(whole: Result<seq<nat>>, bases: seq<nat>, offset: nat, rest: Result<seq<nat>>)
    requires IsWholeWalk(whole, bases, if rest.Ok? then Ok([offset] + rest.value) else rest)
    ensures IsWholeWalk(whole, bases + [offset], rest)
    ensures rest == Ok([]) ==> whole == Ok(bases + [offset])
  {
    if rest.Ok? {
      assert bases + ([offset] + rest.value) == (bases + [offset]) + rest.value;
      assert (bases + [offset]) + [] == bases + [offset];
    }
  }

  method ApplyChanges(content: array<Byte>, changes: seq<Change>)
    requires Placeable(content.Length, changes)
    modifies content
    ensures content[..] == Apply(old(content[..]), changes)
  {
    for i := 0 to |changes|
      invariant content[..] == Apply(old(content[..]), changes[..i])
    {
      assert changes[..i + 1][..i] == changes[..i];
      PackInto(content, changes[i].at, changes[i].word);
    }
    assert changes[..|changes|] == changes;
  }

  /** All selectors are checked before the first one is written: a rejected stream stays as it was. */
  method RewireSurfaceChannels(content: array<Byte>, size: nat, src: int, dst: int) returns (r: Result<nat>)
    modifies content
    ensures var after := Rewired(old(content[..]), size, src, dst);
            if after.Ok? then r == Ok(after.value.1) && content[..] == after.value.0
            else r == Err(ValueError) && content[..] == old(content[..])
  {
    if src < 1 || dst < 1 || src + dst > 28 {
      return Err(ValueError);
    }
    var changes :- CollectChanges(content[..], size, src, dst);
    ApplyChanges(content, changes);
    r := Ok(|changes|);
  }

  /** The queue does to the content what writing every selector would do. */
  ghost predicate Queued(content: seq<Byte>, bases: seq<nat>, words: seq<nat>, changes: seq<Change>) {
    && Writable(|content|, bases, words) && Placeable(|content|, changes)
    && Apply(content, changes) == Stamped(content, bases, words, |bases|)
    && |changes| == Changed(content, bases, words, |bases|)
  }

  lemma StampedLast(content: seq<Byte>, bases: seq<nat>, words: seq<nat>, n: nat)
    requires Writable(|content|, bases, words) && n < |bases|
    ensures Stamped(content, bases, words, n + 1) ==
            StampOne(content, Stamped(content, bases, words, n), bases[n], words[n])
  {
  }

  /** The first `n` entries of two selector lists agree. */
  ghost predicate SameFirst(bases: seq<nat>, words: seq<nat>, bases': seq<nat>, words': seq<nat>, n: nat) {
    && n <= |bases| == |words| && n <= |bases'| == |words'|
    && forall i :: 0 <= i < n ==> bases[i] == bases'[i] && words[i] == words'[i]
  }

  lemma OneMoreSelector(size: nat, bases: seq<nat>, words: seq<nat>, base: nat, word: nat)
    requires Writable(size, bases, words) && base + 0x24 <= size && word < WORD_LIMIT
    ensures Writable(size, bases + [base], words + [word])
    ensures SameFirst(bases, words, bases + [base], words + [word], |bases|)
    ensures (bases + [base])[|bases|] == base && (words + [word])[|bases|] == word
  {
  }

  lemma QueueOne(
    content: seq<Byte>, bases: seq<nat>, words: seq<nat>, changes: seq<Change>, base: nat, word: nat)
    requires Queued(content, bases, words, changes) && base + 0x24 <= |content| && word < WORD_LIMIT
    ensures Queued(content, bases + [base], words + [word],
                   if word == Word(content, base + SELECTOR) then changes
                   else changes + [Change(base + SELECTOR, word)])
  {
    OneMoreSelector(|content|, bases, words, base, word);
    if word == Word(content, base + SELECTOR) {
      QueueSame(content, bases, words, changes, bases + [base], words + [word]);
    } else {
      QueueChange(content, bases, words, changes, bases + [base], words + [word]);
    }
  }

  lemma QueueSame(
    content: seq<Byte>, bases: seq<nat>, words: seq<nat>, changes: seq<Change>, all: seq<nat>, allWords: seq<nat>)
    requires Queued(content, bases, words, changes) && Writable(|content|, all, allWords)
    requires |all| == |bases| + 1 && SameFirst(bases, words, all, allWords, |bases|)
    requires allWords[|bases|] == Word(content, all[|bases|] + SELECTOR)
    ensures Queued(content, all, allWords, changes)
  {
    SameStamped(content, bases, words, all, allWords, |bases|);
    SameChanged(content, bases, words, all, allWords, |bases|);
    StampedLast(content, all, allWords, |bases|);
  }

  /** A queue stands for the first selectors of any longer list that starts with its own. */
  lemma QueuedFirst(
    content: seq<Byte>, bases: seq<nat>, words: seq<nat>, changes: seq<Change>, all: seq<nat>, allWords: seq<nat>)
    requires Queued(content, bases, words, changes) && Writable(|content|, all, allWords)
    requires SameFirst(bases, words, all, allWords, |bases|)
    ensures Placeable(|content|, changes)
    ensures Apply(content, changes) == Stamped(content, all, allWords, |bases|)
    ensures |changes| == Changed(content, all, allWords, |bases|)
  {
    SameStamped(content, bases, words, all, allWords, |bases|);
    SameChanged(content, bases, words, all, allWords, |bases|);
  }

  lemma QueueChange(
    content: seq<Byte>, bases: seq<nat>, words: seq<nat>, changes: seq<Change>, all: seq<nat>, allWords: seq<nat>)
    requires Queued(content, bases, words, changes) && Writable(|content|, all, allWords)
    requires |all| == |bases| + 1 && SameFirst(bases, words, all, allWords, |bases|)
    requires allWords[|bases|] != Word(content, all[|bases|] + SELECTOR)
    ensures Queued(content, all, allWords, changes + [Change(all[|bases|] + SELECTOR, allWords[|bases|])])
  {
    QueuedFirst(content, bases, words, changes, all, allWords);
    QueueLast(content, all, allWords, |bases|, changes, Change(all[|bases|] + SELECTOR, allWords[|bases|]));
  }

  lemma QueueLast(content: seq<Byte>, bases: seq<nat>, words: seq<nat>, n: nat, changes: seq<Change>, change: Change)
    requires Writable(|content|, bases, words) && n + 1 == |bases| && Placeable(|content|, changes)
    requires Apply(content, changes) == Stamped(content, bases, words, n)
    requires |changes| == Changed(content, bases, words, n) && words[n] != Word(content, bases[n] + SELECTOR)
    requires change == Change(bases[n] + SELECTOR, words[n])
    ensures Queued(content, bases, words, changes + [change])
  {
    ChangeIsApplied(content, bases, words, n, changes, change);
    ChangedLast(content, bases, words, n);
    QueuedIs(content, bases, words, |bases|, changes + [change]);
  }

  lemma ChangedLast(content: seq<Byte>, bases: seq<nat>, words: seq<nat>, n: nat)
    requires Writable(|content|, bases, words) && n < |bases| && words[n] != Word(content, bases[n] + SELECTOR)
    ensures Changed(content, bases, words, n + 1) == Changed(content, bases, words, n) + 1
  {
  }

  lemma QueuedIs(content: seq<Byte>, bases: seq<nat>, words: seq<nat>, n: nat, changes: seq<Change>)
    requires Writable(|content|, bases, words) && n == |bases| && Placeable(|content|, changes)
    requires Apply(content, changes) == Stamped(content, bases, words, n)
    requires |changes| == Changed(content, bases, words, n)
    ensures Queued(content, bases, words, changes)
  {
  }

  lemma ChangeIsApplied(
    content: seq<Byte>, bases: seq<nat>, words: seq<nat>, n: nat, changes: seq<Change>, change: Change)
    requires Writable(|content|, bases, words) && n < |bases| && Placeable(|content|, changes)
    requires Apply(content, changes) == Stamped(content, bases, words, n)
    requires words[n] != Word(content, bases[n] + SELECTOR) && change == Change(bases[n] + SELECTOR, words[n])
    ensures Placeable(|content|, changes + [change])
    ensures Apply(content, changes + [change]) == Stamped(content, bases, words, n + 1)
  {
    StampedLast(content, bases, words, n);
    ApplyLast(content, changes, change);
  }

  lemma {:induction false} SameStamped(
    content: seq<Byte>, bases: seq<nat>, words: seq<nat>, bases': seq<nat>, words': seq<nat>, n: nat)
    requires Writable(|content|, bases, words) && Writable(|content|, bases', words')
    requires SameFirst(bases, words, bases', words', n)
    ensures Stamped(content, bases, words, n) == Stamped(content, bases', words', n)
  {
    if n > 0 {
      SameStamped(content, bases, words, bases', words', n - 1);
      StampedLast(content, bases, words, n - 1);
      StampedLast(content, bases', words', n - 1);
    }
  }

  lemma {:induction false} SameChanged(
    content: seq<Byte>, bases: seq<nat>, words: seq<nat>, bases': seq<nat>, words': seq<nat>, n: nat)
    requires Writable(|content|, bases, words) && Writable(|content|, bases', words')
    requires SameFirst(bases, words, bases', words', n)
    ensures Changed(content, bases, words, n) == Changed(content, bases', words', n)
  {
    if n > 0 {
      SameChanged(content, bases, words, bases', words', n - 1);
    }
  }

  lemma OneMoreTask(
    content: seq<Byte>, src: nat, dst: nat, bases: seq<nat>, words: seq<nat>, base: nat, word: nat)
    requires src + dst <= 28 && Acceptable(content, src, dst, bases) && words == NewSelectors(content, src, dst, bases)
    requires base + 0x24 <= |content| && RewireSelector(Word(content, base + SELECTOR), src, dst) == Ok(word)
    ensures Acceptable(content, src, dst, bases + [base])
    ensures NewSelectors(content, src, dst, bases + [base]) == words + [word]
  {
  }

  // ---- what the operation means on an aligned stream ----

  /** Task headers on the 0x100 grid, each visited once. */
  ghost predicate OnGrid(bases: seq<nat>) {
    Distinct(bases) && forall i :: 0 <= i < |bases| ==> bases[i] % 0x100 == 0
  }

  ghost predicate InNoSelector(bases: seq<nat>, n: nat, k: nat)
    requires n <= |bases|
  {
    forall i :: 0 <= i < n ==> !(bases[i] + SELECTOR <= k < bases[i] + SELECTOR + 4)
  }

  /** `out` holds the new selectors of the first `n` tasks, and nothing else has changed. */
  ghost predicate SelectorsUpTo(content: seq<Byte>, bases: seq<nat>, words: seq<nat>, n: nat, out: seq<Byte>)
    requires Writable(|content|, bases, words) && n <= |bases|
  {
    && |out| == |content|
    && (forall i {:trigger words[i]} :: 0 <= i < n ==> Word(out, bases[i] + SELECTOR) == words[i])
    && forall k {:trigger InNoSelector(bases, n, k)} ::
         0 <= k < |content| && InNoSelector(bases, n, k) ==> out[k] == content[k]
  }

  ghost predicate SelectorsAre(content: seq<Byte>, bases: seq<nat>, words: seq<nat>, out: seq<Byte>)
    requires Writable(|content|, bases, words)
  {
    SelectorsUpTo(content, bases, words, |bases|, out)
  }

  lemma {:induction false} StampWritesSelectors(content: seq<Byte>, bases: seq<nat>, words: seq<nat>, n: nat)
    requires Writable(|content|, bases, words) && OnGrid(bases) && n <= |bases|
    ensures SelectorsUpTo(content, bases, words, n, Stamped(content, bases, words, n))
  {
    if n > 0 {
      StampWritesSelectors(content, bases, words, n - 1);
      var before, after := Stamped(content, bases, words, n - 1), Stamped(content, bases, words, n);
      StampStep(content, bases, words, n - 1, before, after);
    }
  }

  lemma StampStep(
    content: seq<Byte>, bases: seq<nat>, words: seq<nat>, n: nat, before: seq<Byte>, after: seq<Byte>)
    requires Writable(|content|, bases, words) && OnGrid(bases) && n < |bases|
    requires SelectorsUpTo(content, bases, words, n, before)
    requires after == if words[n] == Word(content, bases[n] + SELECTOR) then before
                      else Put(before, bases[n] + SELECTOR, words[n])
    ensures SelectorsUpTo(content, bases, words, n + 1, after)
  {
    NextSelectorUntouched(content, bases, words, n, before);
    PutKeepsSelectors(content, bases, words, n, before);
    if words[n] == Word(content, bases[n] + SELECTOR) {
      PutSame(before, bases[n] + SELECTOR);
    }
  }

  lemma NextSelectorUntouched(content: seq<Byte>, bases: seq<nat>, words: seq<nat>, n: nat, before: seq<Byte>)
    requires Writable(|content|, bases, words) && OnGrid(bases) && n < |bases|
    requires SelectorsUpTo(content, bases, words, n, before)
    ensures Word(before, bases[n] + SELECTOR) == Word(content, bases[n] + SELECTOR)
  {
    forall k | bases[n] + SELECTOR <= k < bases[n] + SELECTOR + 4
      ensures before[k] == content[k]
    {
      forall i | 0 <= i < n
        ensures !(bases[i] + SELECTOR <= k < bases[i] + SELECTOR + 4)
      {
        GridApart(bases[i], bases[n]);
      }
      assert InNoSelector(bases, n, k);
    }
  }

  lemma PutKeepsSelectors(content: seq<Byte>, bases: seq<nat>, words: seq<nat>, n: nat, before: seq<Byte>)
    requires Writable(|content|, bases, words) && OnGrid(bases) && n < |bases|
    requires SelectorsUpTo(content, bases, words, n, before)
    ensures SelectorsUpTo(content, bases, words, n + 1, Put(before, bases[n] + SELECTOR, words[n]))
  {
    var out := Put(before, bases[n] + SELECTOR, words[n]);
    forall i | 0 <= i < n
      ensures Word(out, bases[i] + SELECTOR) == words[i]
    {
      GridApart(bases[i], bases[n]);
      assert Word(before, bases[i] + SELECTOR) == words[i];
    }
    forall k | 0 <= k < |content| && InNoSelector(bases, n + 1, k)
      ensures out[k] == content[k]
    {
      assert InNoSelector(bases, n, k);
    }
  }

  /** Links lie outside all selectors, so the rewired stream links as before. */
  lemma LinksSurvive(content: seq<Byte>, bases: seq<nat>, words: seq<nat>, out: seq<Byte>, j: nat)
    requires Writable(|content|, bases, words) && OnGrid(bases)
    requires SelectorsAre(content, bases, words, out) && j < |bases|
    ensures NextTask(out, bases[j]) == NextTask(content, bases[j])
  {
    var at := bases[j] + 0x1C;
    forall k | at <= k < at + 4
      ensures out[k] == content[k]
    {
      forall i | 0 <= i < |bases|
        ensures !(bases[i] + SELECTOR <= k < bases[i] + SELECTOR + 4)
      {
        if bases[i] != bases[j] {
          GridApart(bases[i], bases[j]);
        }
      }
      assert InNoSelector(bases, |bases|, k);
    }
  }

  /** Writing the original selectors back restores every byte. */
  lemma RestoredBytes(
    content: seq<Byte>, bases: seq<nat>, words: seq<nat>, out: seq<Byte>, back: seq<Byte>, old': seq<nat>)
    requires Writable(|content|, bases, words) && SelectorsAre(content, bases, words, out)
    requires Writable(|out|, bases, old') && SelectorsAre(out, bases, old', back)
    requires forall i :: 0 <= i < |bases| ==> old'[i] == Word(content, bases[i] + SELECTOR)
    ensures back == content
  {
    forall k | 0 <= k < |content|
      ensures back[k] == content[k]
    {
      if !InNoSelector(bases, |bases|, k) {
        var i :| 0 <= i < |bases| && bases[i] + SELECTOR <= k < bases[i] + SELECTOR + 4;
        RestoredByte(content, back, bases[i] + SELECTOR, k);
      }
    }
  }

  lemma RestoredByte(content: seq<Byte>, back: seq<Byte>, at: nat, k: nat)
    requires at + 4 <= |content| == |back| && Word(content, at) == Word(back, at) && at <= k < at + 4
    ensures back[k] == content[k]
  {
    WordIsInjective(content, at, back, at);
    assert content[k] == back[k - at + at];
  }

  lemma {:induction false} SameReach(
    content: seq<Byte>, out: seq<Byte>, size: nat, src: nat, dst: nat, offset: nat, seen: set<nat>)
    requires src + dst <= 28 && |out| == |content| && Reach(content, size, src, dst, offset, seen).Ok?
    requires forall b {:trigger TakenBack(content, out, src, dst, b)} ::
               b in Reach(content, size, src, dst, offset, seen).value ==> TakenBack(content, out, src, dst, b)
    ensures Reach(out, size, dst, src, offset, seen) == Reach(content, size, src, dst, offset, seen)
    decreases Below(|content|) - seen
  {
    if offset !in seen {
      var bases, next := ReachHead(content, size, src, dst, offset, seen);
      assert TakenBack(content, out, src, dst, offset);
      assert AcceptableTask(out, dst, src, offset);
      ReachStep(out, size, dst, src, offset, seen);
      if next != 0 {
        assert forall b :: b in bases[1..] ==> b in bases;
        SameReach(content, out, size, src, dst, next, seen + {offset});
      }
    }
  }

  lemma {:induction false} ReachIsDistinct(
    content: seq<Byte>, size: nat, src: nat, dst: nat, offset: nat, seen: set<nat>)
    requires src + dst <= 28 && Reach(content, size, src, dst, offset, seen).Ok?
    ensures var bases := Reach(content, size, src, dst, offset, seen).value;
            Distinct(bases) && forall b :: b in bases ==> b !in seen
    decreases Below(|content|) - seen
  {
    if offset !in seen {
      var bases, next := ReachHead(content, size, src, dst, offset, seen);
      if next != 0 {
        ReachIsDistinct(content, size, src, dst, next, seen + {offset});
        assert forall k :: 0 <= k < |bases[1..]| ==> bases[1..][k] in bases[1..];
        assert bases == [bases[0]] + bases[1..];
      }
    }
  }

  /** On a stream whose task links are aligned, rewiring writes the rewired selectors
      of the reachable tasks and changes no other byte. */
  lemma RewiringTouchesSelectorsOnly(content: seq<Byte>, size: nat, src: int, dst: int)
    requires ValidCounts(src, dst) && Reach(content, size, src, dst, 0, {}).Ok?
    requires forall b :: b in Reach(content, size, src, dst, 0, {}).value ==> b % 0x100 == 0
    ensures var bases := Reach(content, size, src, dst, 0, {}).value;
            && Acceptable(content, src, dst, bases) && OnGrid(bases)
            && Writable(|content|, bases, NewSelectors(content, src, dst, bases))
            && Rewired(content, size, src, dst).Ok?
            && SelectorsAre(content, bases, NewSelectors(content, src, dst, bases),
                            Rewired(content, size, src, dst).value.0)
  {
    var bases := Reach(content, size, src, dst, 0, {}).value;
    ReachIsAcceptable(content, size, src, dst, 0, {});
    ReachIsDistinct(content, size, src, dst, 0, {});
    GridOf(bases);
    WordsAreWritable(content, src, dst, bases);
    RewiredOf(content, size, src, dst, bases);
    StampWritesSelectors(content, bases, NewSelectors(content, src, dst, bases), |bases|);
  }

  lemma GridOf(bases: seq<nat>)
    requires Distinct(bases) && forall b :: b in bases ==> b % 0x100 == 0
    ensures OnGrid(bases)
  {
    assert forall i :: 0 <= i < |bases| ==> bases[i] in bases;
  }

  lemma RewiredOf(content: seq<Byte>, size: nat, src: int, dst: int, bases: seq<nat>)
    requires ValidCounts(src, dst) && Reach(content, size, src, dst, 0, {}) == Ok(bases)
    requires Acceptable(content, src, dst, bases) && Writable(|content|, bases, NewSelectors(content, src, dst, bases))
    ensures Rewired(content, size, src, dst).Ok?
    ensures Rewired(content, size, src, dst).value.0 ==
            Stamped(content, bases, NewSelectors(content, src, dst, bases), |bases|)
  {
  }

  lemma WordsAreWritable(content: seq<Byte>, src: nat, dst: nat, bases: seq<nat>)
    requires src + dst <= 28 && Acceptable(content, src, dst, bases)
    ensures Writable(|content|, bases, NewSelectors(content, src, dst, bases))
  {
  }

  /** Rewiring with the counts exchanged restores every byte. */
  lemma RewiringIsUndone(content: seq<Byte>, size: nat, src: int, dst: int)
    requires Rewired(content, size, src, dst).Ok?
    requires forall b :: b in Reach(content, size, src, dst, 0, {}).value ==> b % 0x100 == 0
    ensures var out := Rewired(content, size, src, dst).value;
            Rewired(out.0, size, dst, src).Ok? && Rewired(out.0, size, dst, src).value.0 == content
  {
    var bases, out := Reach(content, size, src, dst, 0, {}).value, Rewired(content, size, src, dst).value.0;
    RewiringTouchesSelectorsOnly(content, size, src, dst);
    RewiredTasks(content, src, dst, bases, out);
    SameReach(content, out, size, src, dst, 0, {});
    RewiringTouchesSelectorsOnly(out, size, dst, src);
    var back := Rewired(out, size, dst, src).value.0;
    RestoredBytes(
      content, bases, NewSelectors(content, src, dst, bases), out, back, NewSelectors(out, dst, src, bases));
  }

  /** Every rewired task links as before, and its selector is taken back to the original. */
  lemma RewiredTasks(content: seq<Byte>, src: nat, dst: nat, bases: seq<nat>, out: seq<Byte>)
    requires src + dst <= 28 && Acceptable(content, src, dst, bases) && OnGrid(bases)
    requires Writable(|content|, bases, NewSelectors(content, src, dst, bases))
    requires SelectorsAre(content, bases, NewSelectors(content, src, dst, bases), out)
    ensures forall i :: 0 <= i < |bases| ==> TakenBack(content, out, src, dst, bases[i])
  {
    var words := NewSelectors(content, src, dst, bases);
    forall i | 0 <= i < |bases|
      ensures TakenBack(content, out, src, dst, bases[i])
    {
      assert AcceptableTask(content, src, dst, bases[i]);
      LinksSurvive(content, bases, words, out, i);
      SelectorIsRestored(Word(content, bases[i] + SELECTOR), src, dst);
    }
  }

  /** The task links as before, and the opposite rewiring takes its selector back. */
  ghost predicate TakenBack(content: seq<Byte>, out: seq<Byte>, src: nat, dst: nat, base: nat)
    requires src + dst <= 28
  {
    && base + 0x24 <= |content| == |out| && NextTask(out, base) == NextTask(content, base)
    && RewireSelector(Word(out, base + SELECTOR), dst, src) == Ok(Word(content, base + SELECTOR))
  }
}
