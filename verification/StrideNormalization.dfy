/** Re-laying a linked task stream so that every task fills one slot of `stride` bytes. */
module StrideNormalization {
  import opened Slots
  import opened Sorting
  import opened TaskChain
  import opened TaskParsing
  import opened Words

  /** A task on its way to its slot: old base, old link, and the bytes that move. */
  datatype Moved = Moved(base: nat, next: nat, body: seq<Byte>)

  /** content[base:base + min(stride, reach)], a slice that clips; the reach is
      the distance to the linked task, negative on a backward link. */
  function Body(content: seq<Byte>, base: nat, stride: nat): (body: seq<Byte>)
    requires base + 0x20 <= |content|
    ensures |body| <= stride && base + |body| <= |content|
    ensures forall k :: 0 <= k < |body| ==> body[k] == content[base + k]
  {
    var next := Link(content, base);
    var reach := if next != 0 then next - base else |content| - base;
    var extent := if reach < stride then reach else stride;
    if extent <= 0 then []
    else if base + extent <= |content| then content[base..base + extent]
    else content[base..]
  }

  /** The tasks the collecting loop still finds from `offset` on; it checks neither alignment nor range. */
  function CollectFrom(
    content: seq<Byte>, stride: nat, count: nat, offset: nat, seen: set<nat>): (r: Result<seq<Moved>>)
    decreases count
  {
    if offset in seen || count == 0 then Ok([])
    else if offset + 0x20 > |content| then Err(StructError)
    else
      var task := Moved(offset, Link(content, offset), Body(content, offset, stride));
      if task.next == 0 then Ok([task])
      else
        var rest :- CollectFrom(content, stride, count - 1, task.next, seen + {offset});
        Ok([task] + rest)
  }

  function Collect(content: seq<Byte>, stride: nat, count: nat): Result<seq<Moved>> {
    CollectFrom(content, stride, count, 0, {})
  }

  /** `rest` is what the whole collection holds behind `tasks`. */
  ghost predicate IsWhole(whole: Result<seq<Moved>>, tasks: seq<Moved>, rest: Result<seq<Moved>>) {
    if rest.Ok? then whole == Ok(tasks + rest.value) else whole == rest
  }

  lemma OneMoreCollected(
    content: seq<Byte>, stride: nat, count: nat, seen: set<nat>, whole: Result<seq<Moved>>, tasks: seq<Moved>,
    task: Moved)
    requires count > 0 && task.base !in seen && task.base + 0x20 <= |content|
    requires task == Moved(task.base, Link(content, task.base), Body(content, task.base, stride))
    requires IsWhole(whole, tasks, CollectFrom(content, stride, count, task.base, seen))
    ensures if task.next == 0 then whole == Ok(tasks + [task])
            else IsWhole(
              whole, tasks + [task], CollectFrom(content, stride, count - 1, task.next, seen + {task.base}))
  {
    if task.next != 0 {
      var rest := CollectFrom(content, stride, count - 1, task.next, seen + {task.base});
      if rest.Ok? {
        assert tasks + ([task] + rest.value) == (tasks + [task]) + rest.value;
      }
    }
  }

  method CollectTasks(content: seq<Byte>, stride: nat, count: nat) returns (r: Result<seq<Moved>>)
    ensures r == Collect(content, stride, count)
  {
    var offset: nat := 0;
    var tasks: seq<Moved>, seen: set<nat> := [], {};
    ghost var whole, left := Collect(content, stride, count), count;
    assert whole.Ok? ==> tasks + whole.value == whole.value;
    while offset !in seen && |tasks| < count
      invariant |tasks| <= count
      invariant left == count - |tasks| && IsWhole(whole, tasks, CollectFrom(content, stride, left, offset, seen))
      decreases count - |tasks|
    {
      if offset + 0x20 > |content| {
        return Err(StructError);
      }
      var task := Moved(offset, Link(content, offset), Body(content, offset, stride));
      OneMoreCollected(content, stride, left, seen, whole, tasks, task);
      left := left - 1;
      seen := seen + {offset};
      tasks := tasks + [task];
      if task.next == 0 {
        return Ok(tasks);
      }
      offset := task.next;
    }
    assert tasks + [] == tasks;
    r := Ok(tasks);
  }

  function Bases(tasks: seq<Moved>): (bases: seq<nat>)
    ensures |bases| == |tasks| && forall i :: 0 <= i < |tasks| ==> bases[i] == tasks[i].base
  {
    seq(|tasks|, i requires 0 <= i < |tasks| => tasks[i].base)
  }

  function IndexOf(bases: seq<nat>, base: nat): (i: nat)
    requires base in bases
    ensures i < |bases| && bases[i] == base
  {
    if bases[0] == base then 0 else 1 + IndexOf(bases[1..], base)
  }

  /** Where a link points after the move. */
  function Target(bases: seq<nat>, next: nat, stride: nat): nat
    requires next != 0 ==> next in bases
  {
    if next == 0 then 0 else SlotBase(IndexOf(bases, next), stride)
  }

  /** The link is null or leads to a collected task whose slot is addressable. */
  predicate LinkMaps(bases: seq<nat>, next: nat, stride: nat) {
    (next != 0 ==> next in bases) && Target(bases, next, stride) < WORD_LIMIT
  }

  ghost predicate LinksMapFirst(tasks: seq<Moved>, stride: nat, n: nat)
    requires n <= |tasks|
  {
    forall i :: 0 <= i < n ==> LinkMaps(Bases(tasks), tasks[i].next, stride)
  }

  ghost function Targets(tasks: seq<Moved>, stride: nat, n: nat): (words: seq<nat>)
    requires n <= |tasks| && LinksMapFirst(tasks, stride, n)
    ensures |words| == n
    ensures forall i :: 0 <= i < n ==> words[i] == Target(Bases(tasks), tasks[i].next, stride) < WORD_LIMIT
  {
    seq(n, i requires 0 <= i < n => Target(Bases(tasks), tasks[i].next, stride))
  }

  function Padded(body: seq<Byte>, stride: nat): (slot: seq<Byte>)
    requires |body| <= stride
    ensures |slot| == stride && forall k :: 0 <= k < stride ==> slot[k] == if k < |body| then body[k] else 0
  {
    body + Zeros(stride - |body|)
  }

  ghost predicate Fit(tasks: seq<Moved>, stride: nat) {
    forall i :: 0 <= i < |tasks| ==> |tasks[i].body| <= stride
  }

  ghost function PaddedSlots(tasks: seq<Moved>, stride: nat): (slots: seq<seq<Byte>>)
    requires Fit(tasks, stride)
    ensures |slots| == |tasks| && Uniform(slots, stride)
    ensures forall i :: 0 <= i < |tasks| ==> slots[i] == Padded(tasks[i].body, stride)
  {
    seq(|tasks|, i requires 0 <= i < |tasks| => Padded(tasks[i].body, stride))
  }

  /** The relaid slots: body, zeros, and the link into the new layout. */
  ghost function RelaidSlots(tasks: seq<Moved>, stride: nat): (slots: seq<seq<Byte>>)
    requires stride >= 0x20 && Fit(tasks, stride) && LinksMapFirst(tasks, stride, |tasks|)
    ensures |slots| == |tasks| && Uniform(slots, stride)
    ensures forall i :: 0 <= i < |tasks| ==>
              slots[i] == Put(Padded(tasks[i].body, stride), NEXT_POINTER, Target(Bases(tasks), tasks[i].next, stride))
  {
    Stamped(PaddedSlots(tasks, stride), stride, NEXT_POINTER, Targets(tasks, stride, |tasks|))
  }

  /** A body too short to hold its whole link must come through unmasked. */
  ghost predicate Survives(body: seq<Byte>, slot: seq<Byte>) {
    |body| >= 0x20 || (|body| <= |slot| && slot[..|body|] == body)
  }

  /** Exactly the collected tasks that are relaid without an exception. */
  ghost predicate Relayable(tasks: seq<Moved>, stride: nat)
    requires Fit(tasks, stride)
  {
    tasks != [] ==>
      && stride >= 0x20
      && LinksMapFirst(tasks, stride, |tasks|)
      && forall i :: 0 <= i < |tasks| ==> Survives(tasks[i].body, RelaidSlots(tasks, stride)[i])
  }

  ghost predicate IsRelaid(tasks: seq<Moved>, stride: nat, out: seq<Byte>)
    requires Fit(tasks, stride) && Relayable(tasks, stride)
  {
    if tasks == [] then out == [] else HasSlots(out, RelaidSlots(tasks, stride), stride)
  }

  // ---- the three loops behind the collection ----

  ghost predicate MapsFirst(bases: seq<nat>, stride: nat, n: nat, mapping: map<nat, nat>)
    requires n <= |bases|
  {
    && (forall i :: 0 <= i < n ==> bases[i] in mapping && mapping[bases[i]] == SlotBase(i, stride))
    && forall b :: b in mapping ==> b in bases
  }

  lemma MappingOfLink(bases: seq<nat>, stride: nat, mapping: map<nat, nat>, next: nat)
    requires MapsFirst(bases, stride, |bases|, mapping)
    ensures next in mapping <==> next in bases
    ensures next in bases ==> mapping[next] == SlotBase(IndexOf(bases, next), stride)
  {
    if next in bases {
      assert bases[IndexOf(bases, next)] in mapping;
    }
  }

  method LayOut(tasks: seq<Moved>, stride: nat) returns (laid: seq<Byte>, mapping: map<nat, nat>)
    requires Fit(tasks, stride) && Distinct(Bases(tasks))
    ensures HasSlots(laid, PaddedSlots(tasks, stride), stride) && MapsFirst(Bases(tasks), stride, |tasks|, mapping)
  {
    laid, mapping := [], map[];
    ghost var bases, slots := Bases(tasks), PaddedSlots(tasks, stride);
    for i := 0 to |tasks|
      invariant HasSlots(laid, slots[..i], stride)
      invariant MapsFirst(bases, stride, i, mapping)
    {
      mapping := mapping[tasks[i].base := SlotBase(i, stride)];
      AppendSlot(laid, slots[..i], stride, slots[i]);
      assert slots[..i + 1] == slots[..i] + [slots[i]];
      laid := laid + Padded(tasks[i].body, stride);
    }
    assert slots[..|tasks|] == slots;
  }

  /** The last slot's link word lies inside the stream exactly when a slot can hold it. */
  lemma SlotEnds(n: nat, i: nat, stride: nat)
    requires i < n
    ensures stride >= 0x20 ==> SlotBase(i, stride) + 0x20 <= SlotBase(n, stride)
    ensures i + 1 == n && SlotBase(i, stride) + 0x20 <= SlotBase(n, stride) ==> stride >= 0x20
  {
    SlotsAreApart(i, n, stride);
  }

  /** The stream after the links of the first `n` tasks have been rewritten. */
  ghost predicate RelinkedUpTo(tasks: seq<Moved>, stride: nat, n: nat, stream: seq<Byte>)
    requires Fit(tasks, stride) && n <= |tasks|
  {
    && |stream| == SlotBase(|tasks|, stride)
    && LinksMapFirst(tasks, stride, n)
    && (n == |tasks| ==> stride >= 0x20)
    && (stride >= 0x20 ==>
          HasSlots(
            stream, Stamped(PaddedSlots(tasks, stride), stride, NEXT_POINTER, Targets(tasks, stride, n)), stride))
  }

  lemma TargetsStep(tasks: seq<Moved>, stride: nat, i: nat, target: nat)
    requires i < |tasks| && LinksMapFirst(tasks, stride, i)
    requires LinkMaps(Bases(tasks), tasks[i].next, stride) && target == Target(Bases(tasks), tasks[i].next, stride)
    ensures LinksMapFirst(tasks, stride, i + 1)
    ensures Targets(tasks, stride, i + 1) == Targets(tasks, stride, i) + [target]
  {
  }

  lemma RelinkOne(tasks: seq<Moved>, stride: nat, i: nat, stream: seq<Byte>, target: nat)
    requires Fit(tasks, stride) && i < |tasks| && RelinkedUpTo(tasks, stride, i, stream)
    requires LinkMaps(Bases(tasks), tasks[i].next, stride) && target == Target(Bases(tasks), tasks[i].next, stride)
    requires SlotBase(i, stride) + NEXT_POINTER + 4 <= |stream|
    ensures RelinkedUpTo(tasks, stride, i + 1, Put(stream, SlotBase(i, stride) + NEXT_POINTER, target))
  {
    SlotEnds(|tasks|, i, stride);
    TargetsStep(tasks, stride, i, target);
    var at := SlotBase(i, stride) + NEXT_POINTER;
    var changed := Put(stream, at, target);
    if stride >= 0x20 {
      LinkIsStamped(tasks, stride, i, stream, target, changed);
    }
    assert i + 1 == |tasks| ==> stride >= 0x20;
    RelinkedIs(tasks, stride, i + 1, changed);
  }

  lemma LinkIsStamped(
    tasks: seq<Moved>, stride: nat, i: nat, stream: seq<Byte>, target: nat, changed: seq<Byte>)
    requires Fit(tasks, stride) && i < |tasks| && stride >= 0x20 && target < WORD_LIMIT
    requires LinksMapFirst(tasks, stride, i) && LinksMapFirst(tasks, stride, i + 1)
    requires Targets(tasks, stride, i + 1) == Targets(tasks, stride, i) + [target]
    requires HasSlots(
               stream, Stamped(PaddedSlots(tasks, stride), stride, NEXT_POINTER, Targets(tasks, stride, i)), stride)
    requires SlotBase(i, stride) + NEXT_POINTER + 4 <= |stream|
    requires changed == Put(stream, SlotBase(i, stride) + NEXT_POINTER, target)
    ensures HasSlots(
              changed, Stamped(PaddedSlots(tasks, stride), stride, NEXT_POINTER, Targets(tasks, stride, i + 1)), stride)
  {
    StampLink(
      stream, PaddedSlots(tasks, stride), stride, Targets(tasks, stride, i), Targets(tasks, stride, i + 1), target,
      changed);
  }

  lemma RelinkedIs(tasks: seq<Moved>, stride: nat, n: nat, stream: seq<Byte>)
    requires Fit(tasks, stride) && n <= |tasks| && |stream| == SlotBase(|tasks|, stride)
    requires LinksMapFirst(tasks, stride, n) && (n == |tasks| ==> stride >= 0x20)
    requires stride >= 0x20 ==>
               HasSlots(
                 stream, Stamped(PaddedSlots(tasks, stride), stride, NEXT_POINTER, Targets(tasks, stride, n)), stride)
    ensures RelinkedUpTo(tasks, stride, n, stream)
  {
  }

  lemma StampLink(
    stream: seq<Byte>, slots: seq<seq<Byte>>, stride: nat, words: seq<nat>, more: seq<nat>, w: nat, changed: seq<Byte>)
    requires Uniform(slots, stride) && stride >= 0x20 && |words| < |slots| && w < WORD_LIMIT && more == words + [w]
    requires forall i :: 0 <= i < |words| ==> words[i] < WORD_LIMIT
    requires HasSlots(stream, Stamped(slots, stride, NEXT_POINTER, words), stride)
    requires SlotBase(|words|, stride) + NEXT_POINTER + 4 <= |stream|
    requires changed == Put(stream, SlotBase(|words|, stride) + NEXT_POINTER, w)
    ensures HasSlots(changed, Stamped(slots, stride, NEXT_POINTER, more), stride)
  {
    StampedStep(slots, stride, NEXT_POINTER, words, more, w);
    StampNext(
      stream, changed, Stamped(slots, stride, NEXT_POINTER, words), Stamped(slots, stride, NEXT_POINTER, more),
      stride, |words|, NEXT_POINTER, w);
  }

  method RelinkTask(tasks: seq<Moved>, stride: nat, i: nat, stream: seq<Byte>, mapping: map<nat, nat>)
    returns (r: Result<seq<Byte>>)
    requires Fit(tasks, stride) && i < |tasks| && RelinkedUpTo(tasks, stride, i, stream)
    requires MapsFirst(Bases(tasks), stride, |tasks|, mapping)
    ensures r.Ok? ==> RelinkedUpTo(tasks, stride, i + 1, r.value)
    ensures r.Err? ==> stride < 0x20 || !LinkMaps(Bases(tasks), tasks[i].next, stride)
  {
    var next := tasks[i].next;
    MappingOfLink(Bases(tasks), stride, mapping, next);
    if next != 0 && next !in mapping {
      return Err(AssertionError);
    }
    var target := if next == 0 then 0 else mapping[next];
    var at := SlotBase(i, stride) + NEXT_POINTER;
    SlotEnds(|tasks|, i, stride);
    if at + 4 > |stream| || target >= WORD_LIMIT {
      return Err(StructError);
    }
    RelinkOne(tasks, stride, i, stream, target);
    r := Ok(Put(stream, at, target));
  }

  method Relink(tasks: seq<Moved>, stride: nat, laid: seq<Byte>, mapping: map<nat, nat>) returns (r: Result<seq<Byte>>)
    requires Fit(tasks, stride) && MapsFirst(Bases(tasks), stride, |tasks|, mapping)
    requires HasSlots(laid, PaddedSlots(tasks, stride), stride) && tasks != []
    ensures r.Ok? <==> stride >= 0x20 && LinksMapFirst(tasks, stride, |tasks|)
    ensures r.Ok? ==> HasSlots(r.value, RelaidSlots(tasks, stride), stride)
  {
    var stream := laid;
    assert stride >= 0x20 ==>
      Stamped(PaddedSlots(tasks, stride), stride, NEXT_POINTER, []) == PaddedSlots(tasks, stride);
    for i := 0 to |tasks|
      invariant RelinkedUpTo(tasks, stride, i, stream)
    {
      stream :- RelinkTask(tasks, stride, i, stream, mapping);
    }
    r := Ok(stream);
  }

  /** new[i * stride:][:n] against the body, its link bytes masked when it has them all. */
  method CompareBodies(tasks: seq<Moved>, stride: nat, stream: seq<Byte>, ghost slots: seq<seq<Byte>>)
    returns (same: bool)
    requires stride >= 0x20 && Fit(tasks, stride) && |slots| == |tasks| && HasSlots(stream, slots, stride)
    requires forall i :: 0 <= i < |tasks| ==> DiffersInLink(tasks[i].body, slots[i])
    ensures same <==> forall i :: 0 <= i < |tasks| ==> Survives(tasks[i].body, slots[i])
  {
    for i := 0 to |tasks|
      invariant forall j :: 0 <= j < i ==> Survives(tasks[j].body, slots[j])
    {
      var mask, base := tasks[i].body, SlotBase(i, stride);
      SlotsAreApart(i, |tasks|, stride);
      var moved := stream[base..base + |mask|];
      assert SlotIs(stream, i, stride, slots[i]) && DiffersInLink(mask, slots[i]);
      SliceOfSlot(stream, slots[i], base, |mask|);
      if |mask| >= 0x20 {
        MaskedBody(mask, slots[i]);
        mask := Put(mask, NEXT_POINTER, Word(moved, NEXT_POINTER));
      }
      if mask != moved {
        assert !Survives(tasks[i].body, slots[i]);
        return false;
      }
    }
    same := true;
  }

  ghost predicate DiffersInLink(body: seq<Byte>, slot: seq<Byte>) {
    && |body| <= |slot|
    && forall k :: 0 <= k < |body| && !(NEXT_POINTER <= k < 0x20) ==> slot[k] == body[k]
  }

  lemma SliceOfSlot(stream: seq<Byte>, slot: seq<Byte>, base: nat, n: nat)
    requires SameBytes(slot, 0, stream, base, |slot|) && n <= |slot|
    ensures stream[base..base + n] == slot[..n]
  {
    forall k | 0 <= k < n
      ensures stream[base..base + n][k] == slot[k]
    {
      assert slot[k] == stream[k - 0 + base];
    }
  }

  lemma MaskedBody(body: seq<Byte>, slot: seq<Byte>)
    requires |body| >= 0x20 && DiffersInLink(body, slot)
    ensures Put(body, NEXT_POINTER, Word(slot[..|body|], NEXT_POINTER)) == slot[..|body|]
  {
    var moved := slot[..|body|];
    PutSame(moved, NEXT_POINTER);
    var masked := Put(body, NEXT_POINTER, Word(moved, NEXT_POINTER));
    WordIsInjective(masked, NEXT_POINTER, moved, NEXT_POINTER);
    assert forall k :: 0 <= k < |body| ==> masked[k] == moved[k];
  }

  lemma {:induction false} CollectedTasks(content: seq<Byte>, stride: nat, count: nat, offset: nat, seen: set<nat>)
    requires CollectFrom(content, stride, count, offset, seen).Ok?
    ensures var tasks := CollectFrom(content, stride, count, offset, seen).value;
            Fit(tasks, stride) && Distinct(Bases(tasks)) && forall i :: 0 <= i < |tasks| ==> tasks[i].base !in seen
    decreases count
  {
    var tasks := CollectFrom(content, stride, count, offset, seen).value;
    if tasks != [] && tasks[0].next != 0 {
      CollectedTasks(content, stride, count - 1, tasks[0].next, seen + {offset});
      var rest := tasks[1..];
      assert forall i :: 0 < i < |tasks| ==> tasks[i] == rest[i - 1];
      assert forall i :: 0 < i < |tasks| ==> Bases(tasks)[i] == Bases(rest)[i - 1];
    }
  }

  /** Succeeds exactly on the relayable inputs, with the relaid stream and the old-to-new mapping. */
  method NormalizeStride(content: seq<Byte>, count: nat, stride: nat) returns (r: Result<(seq<Byte>, map<nat, nat>)>)
    ensures Collect(content, stride, count).Err? ==> r.Err?
    ensures Collect(content, stride, count).Ok? ==>
              var tasks := Collect(content, stride, count).value;
              && Fit(tasks, stride)
              && (r.Ok? <==> Relayable(tasks, stride))
              && (r.Ok? ==> IsRelaid(tasks, stride, r.value.0) &&
                            MapsFirst(Bases(tasks), stride, |tasks|, r.value.1))
  {
    var tasks :- CollectTasks(content, stride, count);
    CollectedTasks(content, stride, count, 0, {});
    var laid, mapping := LayOut(tasks, stride);
    if tasks == [] {
      return Ok((laid, mapping));
    }
    var stream :- Relink(tasks, stride, laid, mapping);
    var same := CompareBodies(tasks, stride, stream, RelaidSlots(tasks, stride));
    if !same {
      return Err(AssertionError);
    }
    r := Ok((stream, mapping));
  }
}
