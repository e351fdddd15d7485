/** Finding every linked task descriptor of one HWX text section. */
module TaskDiscovery {
  import opened Sorting
  import opened Words

  const TASK_HEADER_SIZE := 0x2C
  const RECORD_REGISTER := 0x01F800

  predicate HasHeader(text: seq<Byte>, base: nat) {
    base + TASK_HEADER_SIZE <= |text|
  }

  /** The base holds a task whose first record writes the leading register. */
  predicate IsSeed(text: seq<Byte>, base: nat) {
    base % 0x100 == 0 && HasHeader(text, base) && Word(text, base + 0x28) % 0x100_0000 == RECORD_REGISTER
  }

  function Next(text: seq<Byte>, base: nat): nat
    requires HasHeader(text, base)
  {
    Word(text, base + 0x1C)
  }

  /** The base links to another header inside the text. */
  predicate LinksInside(text: seq<Byte>, base: nat) {
    HasHeader(text, base) && Next(text, base) != 0 && HasHeader(text, Next(text, base))
  }

  predicate Misaligned(text: seq<Byte>, base: nat) {
    LinksInside(text, base) && Next(text, base) % 0x100 != 0
  }

  /** A forward link between consecutively numbered tasks: the head proves its predecessor. */
  predicate Precedes(text: seq<Byte>, base: nat, next: nat) {
    && base % 0x100 == 0 && LinksInside(text, base)
    && next == Next(text, base) && next > base && next % 0x100 == 0
    && Word(text, next) % 0x100_0000 == Word(text, base) % 0x100_0000 + 1
  }

  /** The set holds every seed, follows every aligned link inside the text, and
      holds every predecessor of what it holds. */
  ghost predicate Closed(text: seq<Byte>, s: set<nat>) {
    && (forall b :: IsSeed(text, b) ==> b in s)
    && (forall b :: b in s && LinksInside(text, b) && !Misaligned(text, b) ==> Next(text, b) in s)
    && (forall b, t :: t in s && Precedes(text, b, t) ==> b in s)
  }

  /** Member of the least closed set. */
  ghost predicate Linked(text: seq<Byte>, base: nat) {
    forall s: set<nat> :: Closed(text, s) ==> base in s
  }

  lemma SeedIsLinked(text: seq<Byte>, base: nat)
    requires IsSeed(text, base)
    ensures Linked(text, base)
  {
  }

  lemma NextIsLinked(text: seq<Byte>, base: nat)
    requires Linked(text, base) && LinksInside(text, base) && !Misaligned(text, base)
    ensures Linked(text, Next(text, base))
  {
    forall s: set<nat> | Closed(text, s)
      ensures Next(text, base) in s
    {
      assert base in s;
    }
  }

  lemma PredecessorIsLinked(text: seq<Byte>, base: nat, next: nat)
    requires Linked(text, next) && Precedes(text, base, next)
    ensures Linked(text, base)
  {
    forall s: set<nat> | Closed(text, s)
      ensures base in s
    {
      assert next in s;
    }
  }

  ghost predicate AllLinked(text: seq<Byte>, s: set<nat>) {
    forall b :: b in s ==> Linked(text, b)
  }

  /** Every base lies on the grid, and its link, if it stays inside, is aligned and leads into `s` or to `open`. */
  ghost predicate FollowedUpTo(text: seq<Byte>, s: set<nat>, open: nat) {
    forall b :: b in s ==>
      && b % 0x100 == 0 && HasHeader(text, b) && !Misaligned(text, b)
      && (LinksInside(text, b) ==> Next(text, b) in s || Next(text, b) == open)
  }

  ghost predicate Followed(text: seq<Byte>, s: set<nat>) {
    forall b :: b in s ==>
      && b % 0x100 == 0 && HasHeader(text, b) && !Misaligned(text, b)
      && (LinksInside(text, b) ==> Next(text, b) in s)
  }

  method FindSeeds(text: seq<Byte>) returns (seeds: set<nat>)
    ensures forall b: nat :: b in seeds <==> IsSeed(text, b)
  {
    seeds := {};
    var offset := 0x28;
    while offset < |text| - 3
      invariant offset % 4 == 0 && offset >= 0x28
      invariant forall b: nat :: b in seeds <==> IsSeed(text, b) && b + 0x28 < offset
    {
      if Word(text, offset) % 0x100_0000 == RECORD_REGISTER && (offset - 0x28) % 0x100 == 0 {
        seeds := seeds + {offset - 0x28};
      }
      SeedsOnGrid(text, offset);
      offset := offset + 4;
    }
  }

  lemma SeedsOnGrid(text: seq<Byte>, offset: nat)
    requires offset % 4 == 0
    ensures forall b: nat :: IsSeed(text, b) && b + 0x28 < offset + 4 ==> b + 0x28 <= offset
  {
    forall b: nat | IsSeed(text, b) && b + 0x28 < offset + 4
      ensures b + 0x28 <= offset
    {
      GridStep(b, offset);
    }
  }

  lemma GridStep(b: nat, offset: nat)
    requires b % 0x100 == 0 && offset % 4 == 0 && b + 0x28 < offset + 4
    ensures b + 0x28 <= offset
  {
    var q, r := b / 0x100, offset / 4;
    assert b + 0x28 == 4 * (0x40 * q + 0xA);
  }

  /** One seed's chain; it ends at a task already on it, or where the links leave the text. */
  method FollowChain(text: seq<Byte>, seed: nat, before: set<nat>) returns (r: Result<set<nat>>)
    requires IsSeed(text, seed) && Followed(text, before) && AllLinked(text, before)
    ensures r.Ok? ==> before <= r.value && seed in r.value && Followed(text, r.value) && AllLinked(text, r.value)
    ensures r.Err? ==> r.fault == ValueError && exists b :: Linked(text, b) && Misaligned(text, b)
  {
    SeedIsLinked(text, seed);
    var tasks, chain: set<nat>, current := before, {}, seed;
    ghost var grid := Below(|text|);
    while current !in chain && HasHeader(text, current)
      invariant current % 0x100 == 0 && HasHeader(text, current) && Linked(text, current)
      invariant before <= tasks && chain <= tasks && chain <= grid
      invariant chain == {} ==> current == seed
      invariant chain != {} ==> seed in chain
      invariant FollowedUpTo(text, tasks, current) && AllLinked(text, tasks)
      decreases grid - chain
    {
      chain := chain + {current};
      tasks := tasks + {current};
      var next := Next(text, current);
      if next == 0 || !HasHeader(text, next) {
        break;
      }
      if next % 0x100 != 0 {
        assert Misaligned(text, current);
        return Err(ValueError);
      }
      NextIsLinked(text, current);
      current := next;
    }
    r := Ok(tasks);
  }

  /** Python's list() of a set: each element once, in no particular order. */
  method ListOf(s: set<nat>) returns (list: seq<nat>)
    ensures Distinct(list) && forall b :: b in list <==> b in s
  {
    list := [];
    var rest := s;
    while rest != {}
      invariant rest <= s && Distinct(list)
      invariant forall b :: b in list <==> b in s && b !in rest
      decreases rest
    {
      var b :| b in rest;
      rest := rest - {b};
      list := list + [b];
    }
  }

  method FollowSeeds(text: seq<Byte>, seeds: set<nat>) returns (r: Result<set<nat>>)
    requires forall b :: b in seeds ==> IsSeed(text, b)
    ensures r.Ok? ==> seeds <= r.value && Followed(text, r.value) && AllLinked(text, r.value)
    ensures r.Err? ==> r.fault == ValueError && exists b :: Linked(text, b) && Misaligned(text, b)
  {
    var list := ListOf(seeds);
    var sorted := Sorted(list);
    var tasks: set<nat> := {};
    for i := 0 to |sorted|
      invariant Followed(text, tasks) && AllLinked(text, tasks)
      invariant forall j :: 0 <= j < i ==> sorted[j] in tasks
    {
      assert sorted[i] in sorted;
      tasks :- FollowChain(text, sorted[i], tasks);
    }
    assert forall b :: b in seeds ==> b in sorted;
    r := Ok(tasks);
  }

  /** Every list names exactly the predecessors of its key. */
  ghost predicate ArePredecessors(text: seq<Byte>, predecessors: map<nat, seq<nat>>, limit: nat) {
    forall b: nat, t: nat :: (t in predecessors && b in predecessors[t]) <==> (b < limit && Precedes(text, b, t))
  }

  method FindPredecessors(text: seq<Byte>) returns (predecessors: map<nat, seq<nat>>)
    ensures ArePredecessors(text, predecessors, |text|)
  {
    predecessors := map[];
    var current: nat := 0;
    while current + TASK_HEADER_SIZE <= |text|
      invariant current % 0x100 == 0
      invariant ArePredecessors(text, predecessors, current)
    {
      var next := Next(text, current);
      if !(next <= current || next % 0x100 != 0 || next + TASK_HEADER_SIZE > |text|)
         && Word(text, next) % 0x100_0000 == Word(text, current) % 0x100_0000 + 1 {
        assert Precedes(text, current, next);
        predecessors := predecessors[next := (if next in predecessors then predecessors[next] else []) + [current]];
      }
      NextOnGrid(text, current);
      current := current + 0x100;
    }
    forall b: nat, t: nat | Precedes(text, b, t)
      ensures b < current
    {
    }
  }

  /** Between two grid points there is no third. */
  lemma NextOnGrid(text: seq<Byte>, current: nat)
    requires current % 0x100 == 0
    ensures forall b: nat, t: nat :: Precedes(text, b, t) && b < current + 0x100 ==> b <= current
  {
    forall b: nat, t: nat | Precedes(text, b, t) && b < current + 0x100
      ensures b <= current
    {
      var q, r := b / 0x100, current / 0x100;
      assert b == 0x100 * q && current == 0x100 * r;
    }
  }

  /** All predecessors of a base are in the set. */
  ghost predicate Preceded(text: seq<Byte>, s: set<nat>, t: nat) {
    forall b :: Precedes(text, b, t) ==> b in s
  }

  /** The worklist: closes the set under predecessors. */
  method AddPredecessors(text: seq<Byte>, tasks: set<nat>, predecessors: map<nat, seq<nat>>) returns (all: set<nat>)
    requires Followed(text, tasks) && AllLinked(text, tasks) && ArePredecessors(text, predecessors, |text|)
    ensures tasks <= all && Followed(text, all) && AllLinked(text, all)
    ensures forall t :: t in all ==> Preceded(text, all, t)
  {
    all := tasks;
    var pending := ListOf(tasks);
    while pending != []
      invariant tasks <= all && Followed(text, all) && AllLinked(text, all)
      invariant forall t :: t in pending ==> t in all
      invariant forall t :: t in all && t !in pending ==> Preceded(text, all, t)
      decreases Below(|text|) - all, |pending|
    {
      var task := pending[|pending| - 1];
      var rest := pending[..|pending| - 1];
      assert pending == rest + [task];
      all, pending := AddPredecessorsOf(text, all, task, if task in predecessors then predecessors[task] else [], rest);
    }
  }

  method AddPredecessorsOf(text: seq<Byte>, tasks: set<nat>, task: nat, list: seq<nat>, rest: seq<nat>)
    returns (all: set<nat>, pending: seq<nat>)
    requires task in tasks && Followed(text, tasks) && AllLinked(text, tasks)
    requires forall b :: b in list <==> Precedes(text, b, task)
    ensures tasks <= all && Followed(text, all) && AllLinked(text, all) && Preceded(text, all, task)
    ensures forall t :: t in pending <==> t in rest || (t in all && t !in tasks)
    ensures all == tasks ==> pending == rest
  {
    all, pending := tasks, rest;
    for i := 0 to |list|
      invariant tasks <= all && Followed(text, all) && AllLinked(text, all)
      invariant forall j :: 0 <= j < i ==> list[j] in all
      invariant forall t :: t in pending <==> t in rest || (t in all && t !in tasks)
      invariant all == tasks ==> pending == rest
    {
      var predecessor := list[i];
      assert Precedes(text, predecessor, task);
      if predecessor !in all {
        PredecessorIsLinked(text, predecessor, task);
        all := all + {predecessor};
        pending := pending + [predecessor];
      }
    }
  }

  /** The search returns the least closed set, ascending; it fails exactly on a bad
      range or when some task of that set links to an unaligned header. */
  method FindTaskOffsets(data: seq<Byte>, offset: int, size: int) returns (r: Result<seq<nat>>)
    ensures offset < 0 || size < 0 || offset + size > |data| ==> r == Err(ValueError)
    ensures offset >= 0 && size >= 0 && offset + size <= |data| ==>
              var text := data[offset..offset + size];
              && (r.Ok? <==> !exists b :: Linked(text, b) && Misaligned(text, b))
              && (r.Err? ==> r.fault == ValueError)
              && (r.Ok? ==> Ascending(r.value) && forall b :: b in r.value <==> Linked(text, b))
  {
    if offset < 0 || size < 0 {
      return Err(ValueError);
    }
    if offset + size > |data| {
      return Err(ValueError);
    }
    var text := data[offset..offset + size];
    var seeds := FindSeeds(text);
    var followed :- FollowSeeds(text, seeds);
    var predecessors := FindPredecessors(text);
    var tasks := AddPredecessors(text, followed, predecessors);
    assert Closed(text, tasks);
    assert forall b :: Linked(text, b) <==> b in tasks;
    var list := ListOf(tasks);
    r := Ok(Sorted(list));
  }
}
