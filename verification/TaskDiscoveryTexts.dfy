/** The task search in terms of the words of the text: which chains are found, and two texts in full. */
module TaskDiscoveryTexts {
  import opened Sorting
  import opened TaskDiscovery
  import opened Words

  /** A task record for the leading register stands behind the header at `base`. */
  predicate HasLeadingRecord(text: seq<Byte>, base: nat) {
    base + 0x2C <= |text| && Word(text, base + 0x28) % 0x100_0000 == 0x01F800
  }

  /** A forward chain of consecutively numbered tasks that ends at a task with the leading record is found whole. */
  lemma {:induction false} NumberedChainIsLinked(text: seq<Byte>, bases: seq<nat>, id: nat, i: nat)
    requires Ascending(bases) && i < |bases|
    requires forall j :: 0 <= j < |bases| ==> bases[j] % 0x100 == 0 && bases[j] + 0x2C <= |text|
    requires forall j :: 0 <= j < |bases| ==> Word(text, bases[j]) % 0x100_0000 == id + j
    requires forall j :: 0 < j < |bases| ==> Word(text, bases[j - 1] + 0x1C) == bases[j]
    requires HasLeadingRecord(text, bases[|bases| - 1])
    ensures Linked(text, bases[i])
    decreases |bases| - i
  {
    if i == |bases| - 1 {
      SeedIsLinked(text, bases[i]);
    } else {
      NumberedChainIsLinked(text, bases, id, i + 1);
      assert bases[i] < bases[i + 1] && Word(text, bases[i + 1 - 1] + 0x1C) == bases[i + 1];
      PredecessorIsLinked(text, bases[i], bases[i + 1]);
    }
  }

  /** A chain of links from a task with the leading record is found whole, however it is numbered and ordered. */
  lemma {:induction false} LinkedChainIsLinked(text: seq<Byte>, bases: seq<nat>, i: nat)
    requires i < |bases|
    requires forall j :: 0 <= j < |bases| ==> bases[j] % 0x100 == 0 && bases[j] + 0x2C <= |text|
    requires forall j :: 0 < j < |bases| ==> Word(text, bases[j - 1] + 0x1C) == bases[j] != 0
    requires HasLeadingRecord(text, bases[0])
    ensures Linked(text, bases[i])
  {
    if i == 0 {
      SeedIsLinked(text, bases[0]);
    } else {
      LinkedChainIsLinked(text, bases, i - 1);
      assert Word(text, bases[i - 1] + 0x1C) == bases[i] && bases[i] % 0x100 == 0;
      NextIsLinked(text, bases[i - 1]);
    }
  }

  /** The header at `b` links forward to the one at `next`, whose id is one more in the low 24 bits. */
  predicate FollowsConsecutively(text: seq<Byte>, b: nat, next: nat)
    requires b + 0x2C <= |text| && next + 0x2C <= |text|
  {
    && next % 0x100 == 0 && b < next && Word(text, b + 0x1C) == next
    && Word(text, next) % 0x100_0000 == Word(text, b) % 0x100_0000 + 1
  }

  /** Nothing else is found: a set that holds all leading tasks and is closed under both rules holds every task. */
  lemma NothingElseIsLinked(text: seq<Byte>, s: set<nat>, base: nat)
    requires forall b: nat :: b % 0x100 == 0 && HasLeadingRecord(text, b) ==> b in s
    requires forall b: nat :: b in s && b + 0x2C <= |text| ==>
               var next := Word(text, b + 0x1C);
               next != 0 && next % 0x100 == 0 && next + 0x2C <= |text| ==> next in s
    requires forall b: nat, next: nat :: next in s && b % 0x100 == 0 && b + 0x2C <= |text| && next + 0x2C <= |text| ==>
               (FollowsConsecutively(text, b, next) ==> b in s)
    requires Linked(text, base)
    ensures base in s
  {
    assert Closed(text, s);
  }

  // ---- two texts ----

  /** Two headers; the first links to the second, which has the given id and the leading record. */
  function TwoTasks(id: Byte): (text: seq<Byte>)
    ensures |text| == 0x200
  {
    seq(0x200, k =>
      if k == 0x1D then 1 else if k == 0x100 then id else if k == 0x129 then 0xF8 else if k == 0x12A then 0x01
      else if k == 0x12B then 0xF4 else 0)
  }

  lemma TwoTasksWords(id: Byte)
    ensures var text := TwoTasks(id);
            && Word(text, 0) == 0 && Word(text, 0x1C) == 0x100 && Word(text, 0x28) == 0
            && Word(text, 0x100) == id && Word(text, 0x11C) == 0 && Word(text, 0x128) == 0xF401_F800
  {
  }

  lemma OnlyTwoHeadersFit(b: nat)
    requires b % 0x100 == 0 && b + 0x2C <= 0x200
    ensures b == 0 || b == 0x100
  {
  }

  /** Numbered 0 and 1, both tasks are found, and no other. */
  lemma NumberedTasksAreFound(base: nat)
    ensures Linked(TwoTasks(1), base) <==> base == 0 || base == 0x100
  {
    var text, bases := TwoTasks(1), [0, 0x100];
    TwoTasksWords(1);
    NumberedChainIsLinked(text, bases, 0, 0);
    NumberedChainIsLinked(text, bases, 0, 1);
    if Linked(text, base) {
      forall b: nat | b % 0x100 == 0 && b + 0x2C <= |text|
        ensures b in {0, 0x100}
      {
        OnlyTwoHeadersFit(b);
      }
      NothingElseIsLinked(text, {0, 0x100}, base);
    }
  }

  /** Numbered 0 and anything but 1, only the second task is found: the link alone does not prove a predecessor. */
  lemma UnnumberedTaskIsNotFound(id: Byte, base: nat)
    requires id != 1
    ensures Linked(TwoTasks(id), base) <==> base == 0x100
  {
    var text := TwoTasks(id);
    TwoTasksWords(id);
    SeedIsLinked(text, 0x100);
    if Linked(text, base) {
      forall b: nat | b % 0x100 == 0 && b + 0x2C <= |text|
        ensures b == 0 || b == 0x100
      {
        OnlyTwoHeadersFit(b);
      }
      NothingElseIsLinked(text, {0x100}, base);
    }
  }

  /** What the search fails on: a task with a link inside the text that is not on the grid. */
  lemma MisalignedMeans(text: seq<Byte>, base: nat)
    ensures Misaligned(text, base) <==>
            && base + 0x2C <= |text|
            && var next := Word(text, base + 0x1C);
               next != 0 && next % 0x100 != 0 && next + 0x2C <= |text|
  {
  }
}
