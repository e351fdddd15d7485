/** Following the next-pointers of a task stream from offset 0. */
module TaskChain {
  import opened Sorting
  import opened Words
  import opened TaskParsing

  function Link(content: seq<Byte>, base: nat): nat
    requires base + 0x20 <= |content|
  {
    Word(content, base + NEXT_POINTER)
  }

  /** The walk's own test of a nonzero link. */
  predicate LinkFits(link: nat, size: nat) {
    link % 0x100 == 0 && link + 0x20 <= size
  }

  /** The bases still to be appended by the walk standing at `offset` with `seen` behind it. */
  function WalkFrom(content: seq<Byte>, size: nat, count: nat, offset: nat, seen: set<nat>): (r: Result<seq<nat>>)
    decreases count
  {
    if offset in seen || count == 0 then Ok([])
    else if offset + 0x20 > |content| then Err(StructError)
    else
      var link := Link(content, offset);
      if link == 0 then Ok([offset])
      else if !LinkFits(link, size) then Err(AssertionError)
      else
        var rest :- WalkFrom(content, size, count - 1, link, seen + {offset});
        Ok([offset] + rest)
  }

  method WalkChain(content: seq<Byte>, size: nat, count: nat) returns (r: Result<seq<nat>>)
    ensures r == WalkFrom(content, size, count, 0, {})
  {
    var offset: nat := 0;
    var chain: seq<nat>, seen: set<nat> := [], {};
    ghost var whole := WalkFrom(content, size, count, 0, {});
    assert whole.Ok? ==> chain + whole.value == whole.value;
    while offset !in seen && |chain| < count
      invariant |chain| <= count
      invariant var rest := WalkFrom(content, size, count - |chain|, offset, seen);
                if rest.Ok? then whole == Ok(chain + rest.value) else whole == rest
      decreases count - |chain|
    {
      if offset + 0x20 > |content| {
        return Err(StructError);
      }
      var next := Link(content, offset);
      seen := seen + {offset};
      chain := chain + [offset];
      assert forall rest: seq<nat> :: chain + rest == chain[..|chain| - 1] + ([offset] + rest);
      if next == 0 {
        return Ok(chain);
      }
      if !LinkFits(next, size) {
        return Err(AssertionError);
      }
      offset := next;
    }
    assert chain + [] == chain;
    r := Ok(chain);
  }

  /** `bases` is a path of links: each base's next-pointer is the following base. */
  ghost predicate IsPath(content: seq<Byte>, bases: seq<nat>) {
    && (forall i :: 0 <= i < |bases| ==> bases[i] + 0x20 <= |content|)
    && (forall i :: 0 < i < |bases| ==> Link(content, bases[i - 1]) == bases[i] != 0)
  }

  /** Where a path may end: a null link, a link back into the path, or the declared count. */
  ghost predicate PathEnds(content: seq<Byte>, size: nat, count: nat, bases: seq<nat>)
    requires bases != [] && IsPath(content, bases)
  {
    var last := Link(content, bases[|bases| - 1]);
    last == 0 || (LinkFits(last, size) && (last in bases || |bases| == count))
  }

  ghost predicate IsWalk(content: seq<Byte>, size: nat, count: nat, bases: seq<nat>) {
    && IsLinked(content, size, count, bases)
    && (bases != [] ==> bases[0] == 0)
  }

  /** A path of distinct, aligned bases that ends where a walk may end. */
  ghost predicate IsLinked(content: seq<Byte>, size: nat, count: nat, bases: seq<nat>) {
    && IsPath(content, bases) && Distinct(bases) && |bases| <= count
    && (forall i :: 0 < i < |bases| ==> LinkFits(bases[i], size))
    && (if count == 0 then bases == [] else bases != [] && PathEnds(content, size, count, bases))
  }

  /** The walk succeeds with exactly the path that starts at 0 and ends as above:
      the loop terminates on cyclic links and returns each task once. */
  lemma WalkIsPath(content: seq<Byte>, size: nat, count: nat, bases: seq<nat>)
    ensures WalkFrom(content, size, count, 0, {}) == Ok(bases) <==> IsWalk(content, size, count, bases)
  {
    WalkFromIsPath(content, size, count, 0, bases);
  }

  /** The same from any start. */
  lemma WalkFromIsPath(content: seq<Byte>, size: nat, count: nat, start: nat, bases: seq<nat>)
    ensures WalkFrom(content, size, count, start, {}) == Ok(bases) <==>
            IsLinked(content, size, count, bases) && (bases != [] ==> bases[0] == start)
  {
    if count > 0 {
      if WalkFrom(content, size, count, start, {}) == Ok(bases) {
        WalkFollows(content, size, count, start, {}, bases);
      }
      if IsLinked(content, size, count, bases) && bases[0] == start {
        PathIsWalked(content, size, count, bases, 0);
        assert bases[0..] == bases && Before(bases, 0) == {};
      }
    }
  }

  lemma {:induction false} WalkFollows(
    content: seq<Byte>, size: nat, count: nat, offset: nat, seen: set<nat>, bases: seq<nat>)
    requires count > 0 && offset !in seen
    requires WalkFrom(content, size, count, offset, seen) == Ok(bases)
    ensures 0 < |bases| <= count && bases[0] == offset && Distinct(bases)
    ensures forall i :: 0 <= i < |bases| ==> bases[i] !in seen && bases[i] + 0x20 <= |content|
    ensures forall i :: 0 < i < |bases| ==> LinkFits(bases[i], size) && Link(content, bases[i - 1]) == bases[i] != 0
    ensures var last := Link(content, bases[|bases| - 1]);
            last == 0 || (LinkFits(last, size) && (last in bases || last in seen || |bases| == count))
    decreases count
  {
    var link := Link(content, offset);
    if link != 0 {
      var seen' := seen + {offset};
      if link in seen' || count == 1 {
        assert bases == [offset];
      } else {
        WalkFollows(content, size, count - 1, link, seen', bases[1..]);
        assert forall i :: 0 < i < |bases| ==> bases[i] == bases[1..][i - 1];
      }
    }
  }

  ghost function Before(bases: seq<nat>, i: nat): set<nat>
    requires i <= |bases|
  {
    set k | 0 <= k < i :: bases[k]
  }

  lemma BeforeGrows(bases: seq<nat>, i: nat)
    requires i < |bases| && Distinct(bases)
    ensures Before(bases, i + 1) == Before(bases, i) + {bases[i]} && bases[i] !in Before(bases, i)
  {
  }

  /** One step of the walk, to a link that is not null. */
  lemma WalkStep(content: seq<Byte>, size: nat, count: nat, offset: nat, seen: set<nat>, rest: seq<nat>)
    requires count > 0 && offset !in seen && offset + 0x20 <= |content|
    requires Link(content, offset) != 0 && LinkFits(Link(content, offset), size)
    requires WalkFrom(content, size, count - 1, Link(content, offset), seen + {offset}) == Ok(rest)
    ensures WalkFrom(content, size, count, offset, seen) == Ok([offset] + rest)
  {
  }

  /** The step at a null link. */
  lemma WalkEnds(content: seq<Byte>, size: nat, count: nat, offset: nat, seen: set<nat>)
    requires count > 0 && offset !in seen && offset + 0x20 <= |content| && Link(content, offset) == 0
    ensures WalkFrom(content, size, count, offset, seen) == Ok([offset])
  {
  }

  lemma {:induction false} PathIsWalked(content: seq<Byte>, size: nat, count: nat, bases: seq<nat>, i: nat)
    requires IsLinked(content, size, count, bases) && i < |bases|
    ensures WalkFrom(content, size, count - i, bases[i], Before(bases, i)) == Ok(bases[i..])
    decreases |bases| - i
  {
    BeforeGrows(bases, i);
    if i + 1 < |bases| {
      PathIsWalked(content, size, count, bases, i + 1);
      OneMoreIsWalked(content, size, count, bases, i);
    } else {
      LastIsWalked(content, size, count, bases);
      assert bases[i..] == [bases[i]];
    }
  }

  lemma OneMoreIsWalked(content: seq<Byte>, size: nat, count: nat, bases: seq<nat>, i: nat)
    requires IsLinked(content, size, count, bases) && i + 1 < |bases|
    requires WalkFrom(content, size, count - (i + 1), bases[i + 1], Before(bases, i + 1)) == Ok(bases[i + 1..])
    ensures WalkFrom(content, size, count - i, bases[i], Before(bases, i)) == Ok(bases[i..])
  {
    var offset, seen, left := bases[i], Before(bases, i), count - i;
    BeforeGrows(bases, i);
    assert Link(content, bases[i + 1 - 1]) == bases[i + 1] && LinkFits(bases[i + 1], size);
    WalkStep(content, size, left, offset, seen, bases[i + 1..]);
    assert bases[i..] == [offset] + bases[i + 1..];
  }

  lemma LastIsWalked(content: seq<Byte>, size: nat, count: nat, bases: seq<nat>)
    requires bases != [] && IsLinked(content, size, count, bases)
    ensures var i := |bases| - 1;
            WalkFrom(content, size, count - i, bases[i], Before(bases, i)) == Ok([bases[i]])
  {
    var i := |bases| - 1;
    BeforeGrows(bases, i);
    WalkStops(content, size, count, bases);
    if Link(content, bases[i]) == 0 {
      WalkEnds(content, size, count - i, bases[i], Before(bases, i));
    } else {
      WalkStep(content, size, count - i, bases[i], Before(bases, i), []);
      assert [bases[i]] + [] == [bases[i]];
    }
  }

  /** Behind the last task there is nothing more to append. */
  lemma WalkStops(content: seq<Byte>, size: nat, count: nat, bases: seq<nat>)
    requires bases != [] && IsLinked(content, size, count, bases)
    ensures var link := Link(content, bases[|bases| - 1]);
            link != 0 ==> WalkFrom(content, size, count - |bases|, link, Before(bases, |bases|)) == Ok([])
  {
    var link := Link(content, bases[|bases| - 1]);
    assert link in bases ==> link in Before(bases, |bases|);
  }
}
