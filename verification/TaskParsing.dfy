/** The linked task stream of one ANEC content region: walking the chain of
    descriptors and reading the register records of one descriptor. */
module TaskParsing {
  import opened Words

  const HEADER_SIZE := 40
  const NEXT_POINTER := 0x1C

  datatype Record = Record(at: nat, register: nat, values: seq<nat>)

  datatype Parsed = Parsed(records: seq<Record>, end: nat, terminated: bool, truncated: bool)

  function ExtraWords(head: nat): nat {
    if head % 4 == 3 then 4 else 0
  }

  /** A record header: register address in bits 0..25, word count less one above. */
  function Register(word: nat): nat {
    word % 0x400_0000
  }

  function WordCount(word: nat): nat {
    word / 0x400_0000 + 1
  }

  function Values(content: seq<Byte>, at: nat, count: nat): (r: seq<nat>)
    requires at + 4 * count <= |content|
    ensures |r| == count
  {
    seq(count, i requires 0 <= i < count => Word(content, at + 4 * i))
  }

  /** The records of the task at `base`, read from the task-relative `pos` on. */
  function ParseFrom(content: seq<Byte>, base: nat, pos: nat, bound: int): (p: Parsed)
    ensures pos <= p.end && (p.end == pos || (p.end <= bound && base + p.end <= |content|))
    decreases |content| - (base + pos)
  {
    if base + pos + 4 > |content| || pos + 4 > bound then
      Parsed([], pos, false, false)
    else
      var word := Word(content, base + pos);
      if word == 0 then
        Parsed([], pos, true, false)
      else
        var count := WordCount(word);
        var next := pos + 4 + 4 * count;
        if next > bound || base + next > |content| then
          Parsed([], pos, false, true)
        else
          var rest := ParseFrom(content, base, next, bound);
          var record := Record(pos, Register(word), Values(content, base + pos + 4, count));
          Parsed([record] + rest.records, rest.end, rest.terminated, rest.truncated)
  }

  /** Where the walk stops, and why. */
  lemma {:induction false} ParseShape(content: seq<Byte>, base: nat, pos: nat, bound: int)
    ensures var p := ParseFrom(content, base, pos, bound);
            && (p.records == [] <==> p.end == pos)
            && !(p.terminated && p.truncated)
            && (p.terminated ==>
                  p.end + 4 <= bound && base + p.end + 4 <= |content| && Word(content, base + p.end) == 0)
            && (!p.terminated && !p.truncated ==> p.end + 4 > bound || base + p.end + 4 > |content|)
    decreases |content| - (base + pos)
  {
    if base + pos + 4 <= |content| && pos + 4 <= bound && Word(content, base + pos) != 0 {
      var next := pos + 4 + 4 * WordCount(Word(content, base + pos));
      if next <= bound && base + next <= |content| {
        ParseShape(content, base, next, bound);
      }
    }
  }

  /** One record off the front of a parse. */
  lemma ParseStep(content: seq<Byte>, base: nat, pos: nat, bound: int)
    requires base + pos + 4 <= |content| && pos + 4 <= bound && Word(content, base + pos) != 0
    ensures var next := pos + 4 + 4 * WordCount(Word(content, base + pos));
            var p := ParseFrom(content, base, pos, bound);
            if next > bound || base + next > |content| then p == Parsed([], pos, false, true)
            else
              var rest := ParseFrom(content, base, next, bound);
              p == Parsed([RecordAt(content, base, pos)] + rest.records, rest.end, rest.terminated, rest.truncated)
  {
  }

  /** Where no further record can start. */
  lemma ParseEnds(content: seq<Byte>, base: nat, pos: nat, bound: int)
    ensures base + pos + 4 > |content| || pos + 4 > bound ==>
              ParseFrom(content, base, pos, bound) == Parsed([], pos, false, false)
    ensures base + pos + 4 <= |content| && pos + 4 <= bound && Word(content, base + pos) == 0 ==>
              ParseFrom(content, base, pos, bound) == Parsed([], pos, true, false)
  {
  }

  function RecordAt(content: seq<Byte>, base: nat, pos: nat): Record
    requires base + pos + 4 <= |content| && base + pos + 4 + 4 * WordCount(Word(content, base + pos)) <= |content|
  {
    var word := Word(content, base + pos);
    Record(pos, Register(word), Values(content, base + pos + 4, WordCount(word)))
  }

  predicate Aligned(from: nat, to: nat) {
    from <= to && (to - from) % 4 == 0
  }

  lemma AlignedStep(from: nat, count: nat, to: nat)
    requires Aligned(from + 4 + 4 * count, to)
    ensures Aligned(from, to)
  {
    assert to - from == (to - (from + 4 + 4 * count)) + 4 * (1 + count);
  }

  lemma {:induction false} EndIsWordAligned(content: seq<Byte>, base: nat, pos: nat, bound: int)
    ensures Aligned(pos, ParseFrom(content, base, pos, bound).end)
    decreases |content| - (base + pos)
  {
    ParseEnds(content, base, pos, bound);
    if base + pos + 4 <= |content| && pos + 4 <= bound && Word(content, base + pos) != 0 {
      ParseStep(content, base, pos, bound);
      var count := WordCount(Word(content, base + pos));
      var next := pos + 4 + 4 * count;
      if next <= bound && base + next <= |content| {
        EndIsWordAligned(content, base, next, bound);
        AlignedStep(pos, count, ParseFrom(content, base, next, bound).end);
      }
    }
  }

  function RecordStart(content: seq<Byte>, base: nat): nat
    requires base + 4 <= |content|
  {
    HEADER_SIZE + ExtraWords(Word(content, base))
  }

  /** What parse_task returns; reading the header word raises when it is cut off. */
  function Parse(content: seq<Byte>, base: nat, bound: int): (r: Result<Parsed>) {
    if base + 4 > |content| then Err(StructError)
    else Ok(ParseFrom(content, base, RecordStart(content, base), bound))
  }

  /** The records read so far are the first of the whole parse, and `rest` is what follows. */
  ghost predicate IsRest(whole: Parsed, read: seq<Record>, rest: Parsed) {
    whole == Parsed(read + rest.records, rest.end, rest.terminated, rest.truncated)
  }

  lemma StepRest(whole: Parsed, read: seq<Record>, record: Record, rest: Parsed, after: Parsed)
    requires IsRest(whole, read, rest)
    requires rest == Parsed([record] + after.records, after.end, after.terminated, after.truncated)
    ensures IsRest(whole, read + [record], after)
  {
    assert read + ([record] + after.records) == (read + [record]) + after.records;
  }

  lemma RestIsEmpty(whole: Parsed, read: seq<Record>, rest: Parsed)
    requires IsRest(whole, read, rest) && rest.records == []
    ensures whole == Parsed(read, rest.end, rest.terminated, rest.truncated)
  {
  }

  method ParseTask(content: seq<Byte>, base: nat, bound: int) returns (r: Result<Parsed>)
    ensures r == Parse(content, base, bound)
  {
    if base + 4 > |content| {
      return Err(StructError);
    }
    var pos := HEADER_SIZE + ExtraWords(Word(content, base));
    ghost var whole := ParseFrom(content, base, pos, bound);
    var records: seq<Record> := [];
    var end := pos;
    while base + pos + 4 <= |content| && pos + 4 <= bound
      invariant end == pos
      invariant IsRest(whole, records, ParseFrom(content, base, pos, bound))
      decreases |content| - (base + pos)
    {
      var word := Word(content, base + pos);
      if word == 0 {
        ParseEnds(content, base, pos, bound);
        RestIsEmpty(whole, records, ParseFrom(content, base, pos, bound));
        return Ok(Parsed(records, end, true, false));
      }
      ParseStep(content, base, pos, bound);
      var count := WordCount(word);
      if pos + 4 + 4 * count > bound || base + pos + 4 + 4 * count > |content| {
        RestIsEmpty(whole, records, ParseFrom(content, base, pos, bound));
        return Ok(Parsed(records, end, false, true));
      }
      var record := Record(pos, Register(word), Values(content, base + pos + 4, count));
      StepRest(
        whole, records, record, ParseFrom(content, base, pos, bound),
        ParseFrom(content, base, pos + 4 + 4 * count, bound));
      records := records + [record];
      pos := pos + 4 + 4 * count;
      end := pos;
    }
    ParseEnds(content, base, pos, bound);
    RestIsEmpty(whole, records, ParseFrom(content, base, pos, bound));
    r := Ok(Parsed(records, end, false, false));
  }

  /** Records `records` lie one after another from the task-relative `pos` on. */
  ghost predicate Laid(content: seq<Byte>, base: nat, pos: nat, records: seq<Record>)
    decreases |records|
  {
    records != [] ==> HoldsRecord(content, base, pos, records[0]) && Laid(content, base, Next(records[0]), records[1..])
  }

  ghost predicate HoldsRecord(content: seq<Byte>, base: nat, pos: nat, record: Record) {
    && record.at == pos
    && base + Next(record) <= |content|
    && Word(content, base + pos) != 0
    && record.register == Register(Word(content, base + pos))
    && |record.values| == WordCount(Word(content, base + pos))
    && record.values == Values(content, base + pos + 4, |record.values|)
  }

  function Next(record: Record): nat {
    record.at + 4 + 4 * |record.values|
  }

  ghost function EndOf(pos: nat, records: seq<Record>): (end: nat) {
    if records == [] then pos else Next(records[|records| - 1])
  }

  /** The walk cannot go on at `end`: a zero word, the bound, or the end of the stream. */
  ghost predicate Stops(content: seq<Byte>, base: nat, end: nat, bound: int) {
    InReach(content, base, end, bound) ==> Word(content, base + end) == 0
  }

  predicate InReach(content: seq<Byte>, base: nat, end: nat, bound: int) {
    end + 4 <= bound && base + end + 4 <= |content|
  }

  lemma EndOfCons(pos: nat, record: Record, rest: seq<Record>)
    ensures EndOf(pos, [record] + rest) == EndOf(Next(record), rest)
  {
    var all := [record] + rest;
    if rest == [] {
      assert all == [record];
    } else {
      assert all[|all| - 1] == rest[|rest| - 1];
    }
  }

  lemma LaidCons(content: seq<Byte>, base: nat, pos: nat, record: Record, rest: seq<Record>)
    requires HoldsRecord(content, base, pos, record) && Laid(content, base, Next(record), rest)
    ensures Laid(content, base, pos, [record] + rest)
  {
    assert ([record] + rest)[1..] == rest;
  }

  lemma RecordIsHeld(content: seq<Byte>, base: nat, pos: nat)
    requires base + pos + 4 <= |content| && Word(content, base + pos) != 0
    requires base + pos + 4 + 4 * WordCount(Word(content, base + pos)) <= |content|
    ensures HoldsRecord(content, base, pos, RecordAt(content, base, pos))
  {
  }

  /** The records a parse returns lie in the stream, up to where it ended; a completed one ended at a stop. */
  lemma {:induction false} ParsedIsLaid(content: seq<Byte>, base: nat, pos: nat, bound: int)
    ensures var p := ParseFrom(content, base, pos, bound);
            && Laid(content, base, pos, p.records) && p.end == EndOf(pos, p.records)
            && (!p.truncated ==> Stops(content, base, p.end, bound))
    decreases |content| - (base + pos)
  {
    ParseEnds(content, base, pos, bound);
    if base + pos + 4 <= |content| && pos + 4 <= bound && Word(content, base + pos) != 0 {
      ParseStep(content, base, pos, bound);
      var next := pos + 4 + 4 * WordCount(Word(content, base + pos));
      if next <= bound && base + next <= |content| {
        var record, rest := RecordAt(content, base, pos), ParseFrom(content, base, next, bound);
        ParsedIsLaid(content, base, next, bound);
        RecordIsHeld(content, base, pos);
        LaidCons(content, base, pos, record, rest.records);
        EndOfCons(pos, record, rest.records);
      }
    }
  }

  /** And they are the only ones: whatever lies there up to a stop is what the parse returns. */
  lemma {:induction false} LaidIsParsed(content: seq<Byte>, base: nat, pos: nat, bound: int, records: seq<Record>)
    requires Laid(content, base, pos, records)
    requires EndOf(pos, records) <= bound || records == []
    requires Stops(content, base, EndOf(pos, records), bound)
    ensures var end := EndOf(pos, records);
            ParseFrom(content, base, pos, bound) == Parsed(records, end, InReach(content, base, end, bound), false)
    decreases |records|
  {
    if records != [] {
      LaidInside(content, base, Next(records[0]), records[1..]);
      LaidIsParsed(content, base, Next(records[0]), bound, records[1..]);
      assert records == [records[0]] + records[1..];
    }
  }

  lemma {:induction false} LaidInside(content: seq<Byte>, base: nat, pos: nat, records: seq<Record>)
    requires Laid(content, base, pos, records)
    ensures pos <= EndOf(pos, records) && (records != [] ==> base + EndOf(pos, records) <= |content|)
    decreases |records|
  {
    if records != [] {
      LaidInside(content, base, Next(records[0]), records[1..]);
    }
  }

  /** Locality: records are still there when their bytes are copied elsewhere. */
  lemma {:induction false} LaidTransfers(
    a: seq<Byte>, base: nat, b: seq<Byte>, base': nat, pos: nat, records: seq<Record>)
    requires Laid(a, base, pos, records)
    requires SameBytes(a, base + pos, b, base' + pos, EndOf(pos, records) - pos)
    ensures Laid(b, base', pos, records)
    decreases |records|
  {
    if records != [] {
      LaidInside(a, base, Next(records[0]), records[1..]);
      var n := EndOf(pos, records) - pos;
      SameWord(a, base + pos, b, base' + pos, n, base + pos);
      SameValues(a, base + pos + 4, b, base' + pos + 4, |records[0].values|);
      LaidTransfers(a, base, b, base', Next(records[0]), records[1..]);
    }
  }

  /** The converse: where the same records lie, the same bytes do. */
  lemma {:induction false} LaidDeterminesBytes(
    a: seq<Byte>, base: nat, b: seq<Byte>, base': nat, pos: nat, records: seq<Record>)
    requires records != [] && Laid(a, base, pos, records) && Laid(b, base', pos, records)
    ensures SameBytes(a, base + pos, b, base' + pos, EndOf(pos, records) - pos)
    decreases |records|
  {
    var record, rest := records[0], records[1..];
    RecordDeterminesBytes(a, base, b, base', pos, record);
    assert records == [record] + rest;
    EndOfCons(pos, record, rest);
    if rest != [] {
      LaidInside(a, base, Next(record), rest);
      LaidDeterminesBytes(a, base, b, base', Next(record), rest);
      JoinBytes(a, base + pos, b, base' + pos, Next(record) - pos, EndOf(Next(record), rest) - Next(record));
    }
  }

  lemma JoinBytes(a: seq<Byte>, i: nat, b: seq<Byte>, j: nat, m: nat, n: nat)
    requires SameBytes(a, i, b, j, m) && SameBytes(a, i + m, b, j + m, n)
    ensures SameBytes(a, i, b, j, m + n)
  {
    forall k | i <= k < i + m + n
      ensures a[k] == b[k - i + j]
    {
      if k >= i + m {
        assert a[k] == b[k - (i + m) + (j + m)];
      }
    }
  }

  lemma RecordDeterminesBytes(a: seq<Byte>, base: nat, b: seq<Byte>, base': nat, pos: nat, record: Record)
    requires HoldsRecord(a, base, pos, record) && HoldsRecord(b, base', pos, record)
    ensures SameBytes(a, base + pos, b, base' + pos, Next(record) - pos)
  {
    PartsDetermineWord(Word(a, base + pos), Word(b, base' + pos));
    WordIsInjective(a, base + pos, b, base' + pos);
    ValuesDetermineBytes(a, base + pos + 4, b, base' + pos + 4, |record.values|);
    JoinBytes(a, base + pos, b, base' + pos, 4, 4 * |record.values|);
  }

  lemma PartsDetermineWord(v: nat, w: nat)
    requires Register(v) == Register(w) && WordCount(v) == WordCount(w)
    ensures v == w
  {
  }

  lemma {:induction false} ValuesDetermineBytes(a: seq<Byte>, i: nat, b: seq<Byte>, j: nat, count: nat)
    requires i + 4 * count <= |a| && j + 4 * count <= |b| && Values(a, i, count) == Values(b, j, count)
    ensures SameBytes(a, i, b, j, 4 * count)
  {
    if count > 0 {
      var last := count - 1;
      assert Values(a, i, last) == Values(a, i, count)[..last] && Values(b, j, last) == Values(b, j, count)[..last];
      ValuesDetermineBytes(a, i, b, j, last);
      assert Values(a, i, count)[last] == Values(b, j, count)[last];
      WordIsInjective(a, i + 4 * last, b, j + 4 * last);
      JoinBytes(a, i, b, j, 4 * last, 4);
    }
  }

  /** Any place that holds the same record bytes and then stops parses to the same records. */
  lemma ParseTransfers(a: seq<Byte>, base: nat, bound: int, b: seq<Byte>, base': nat, bound': int, pos: nat)
    requires var p := ParseFrom(a, base, pos, bound);
             && !p.truncated && p.end <= bound'
             && SameBytes(a, base + pos, b, base' + pos, p.end - pos)
             && Stops(b, base', p.end, bound')
    ensures var p := ParseFrom(a, base, pos, bound);
            ParseFrom(b, base', pos, bound') == Parsed(p.records, p.end, InReach(b, base', p.end, bound'), false)
  {
    var p := ParseFrom(a, base, pos, bound);
    ParsedIsLaid(a, base, pos, bound);
    LaidTransfers(a, base, b, base', pos, p.records);
    LaidIsParsed(b, base', pos, bound', p.records);
  }

  lemma SameValues(a: seq<Byte>, i: nat, b: seq<Byte>, j: nat, count: nat)
    requires i + 4 * count <= |a| && j + 4 * count <= |b|
    requires SameBytes(a, i, b, j, 4 * count)
    ensures Values(a, i, count) == Values(b, j, count)
  {
    forall k | 0 <= k < count
      ensures Values(a, i, count)[k] == Values(b, j, count)[k]
    {
      SameWord(a, i, b, j, 4 * count, i + 4 * k);
    }
  }
}
