/** Register records: the encoder of the descriptor builder and the register walk
    of the converter, tied to the record parse of the stream tool. */
module Registers {
  import opened Bits
  import opened TaskParsing
  import opened Words

  type RegisterMap = map<nat, nat>

  /** The values of one record land at consecutive word addresses. */
  function WriteValues(registers: RegisterMap, address: nat, values: seq<nat>): RegisterMap {
    if values == [] then registers
    else
      var last := |values| - 1;
      WriteValues(registers, address, values[..last])[address + 4 * last := values[last]]
  }

  function RecordMap(records: seq<Record>): RegisterMap {
    if records == [] then map[]
    else
      var last := |records| - 1;
      WriteValues(RecordMap(records[..last]), records[last].register, records[last].values)
  }

  /** The converter tests header word 9 for the extra word, the stream tool word 0. */
  function WalkStart(td: seq<Byte>): nat
    requires |td| >= HEADER_SIZE
  {
    HEADER_SIZE + ExtraWords(Word(td, HEADER_SIZE - 4))
  }

  /** The register walk is the record parse of the whole descriptor: the same
      records give the map, and a record running past the end is the only error. */
  function Walk(td: seq<Byte>): Result<RegisterMap> {
    if |td| < HEADER_SIZE then Err(ValueError)
    else
      var p := ParseFrom(td, 0, WalkStart(td), |td|);
      if p.truncated then Err(ValueError) else Ok(RecordMap(p.records))
  }

  method WriteRecord(registers: RegisterMap, td: seq<Byte>, offset: nat, register: nat, count: nat)
    returns (r: RegisterMap)
    requires offset + 4 * count <= |td|
    ensures r == WriteValues(registers, register, Values(td, offset, count))
  {
    r := registers;
    ghost var values := Values(td, offset, count);
    for index := 0 to count
      invariant r == WriteValues(registers, register, values[..index])
    {
      assert values[..index + 1][..index] == values[..index];
      r := r[register + 4 * index := Word(td, offset + 4 * index)];
    }
    assert values[..count] == values;
  }

  /** What the walk has read so far, and what its descriptor still holds. */
  ghost predicate HasRead(td: seq<Byte>, registers: RegisterMap, read: seq<Record>, offset: nat) {
    |td| >= HEADER_SIZE && registers == RecordMap(read) &&
    IsRest(ParseFrom(td, 0, WalkStart(td), |td|), read, ParseFrom(td, 0, offset, |td|))
  }

  lemma RecordMapGrows(read: seq<Record>, record: Record)
    ensures RecordMap(read + [record]) == WriteValues(RecordMap(read), record.register, record.values)
  {
    assert (read + [record])[..|read|] == read;
  }

  lemma WalkOverruns(td: seq<Byte>, registers: RegisterMap, offset: nat, read: seq<Record>)
    requires HasRead(td, registers, read, offset) && offset + 4 <= |td| && Word(td, offset) != 0
    requires offset + 4 + 4 * WordCount(Word(td, offset)) > |td|
    ensures ParseFrom(td, 0, WalkStart(td), |td|).truncated
  {
    ParseStep(td, 0, offset, |td|);
  }

  lemma WalkAdvances(
    td: seq<Byte>, registers: RegisterMap, offset: nat, read: seq<Record>, record: Record, next: nat)
    requires HasRead(td, registers, read, offset) && offset + 4 <= |td| && Word(td, offset) != 0
    requires next == offset + 4 + 4 * WordCount(Word(td, offset)) <= |td| && record == RecordAt(td, 0, offset)
    ensures HasRead(td, WriteValues(registers, record.register, record.values), read + [record], next)
  {
    ParseStep(td, 0, offset, |td|);
    ReadOneMore(td, read, offset, record, ParseFrom(td, 0, WalkStart(td), |td|), next);
    RecordMapGrows(read, record);
  }

  lemma ReadOneMore(td: seq<Byte>, read: seq<Record>, offset: nat, record: Record, whole: Parsed, next: nat)
    requires IsRest(whole, read, ParseFrom(td, 0, offset, |td|))
    requires var rest := ParseFrom(td, 0, next, |td|);
             ParseFrom(td, 0, offset, |td|) ==
             Parsed([record] + rest.records, rest.end, rest.terminated, rest.truncated)
    ensures IsRest(whole, read + [record], ParseFrom(td, 0, next, |td|))
  {
    StepRest(whole, read, record, ParseFrom(td, 0, offset, |td|), ParseFrom(td, 0, next, |td|));
  }

  /** One record of the walk; running past the end raises. */
  method WalkRecord(td: seq<Byte>, registers: RegisterMap, offset: nat, ghost read: seq<Record>)
    returns (r: Result<(RegisterMap, nat)>, ghost more: seq<Record>)
    requires HasRead(td, registers, read, offset) && offset + 4 <= |td| && Word(td, offset) != 0
    ensures r.Ok? ==> HasRead(td, r.value.0, more, r.value.1) && offset < r.value.1 <= |td|
    ensures r.Err? ==> r.fault == ValueError && ParseFrom(td, 0, WalkStart(td), |td|).truncated
  {
    more := read;
    var header := Word(td, offset);
    var register, count := Register(header), WordCount(header);
    if offset + 4 + 4 * count > |td| {
      WalkOverruns(td, registers, offset, read);
      return Err(ValueError), more;
    }
    WalkAdvances(td, registers, offset, read, RecordAt(td, 0, offset), offset + 4 + 4 * count);
    var written := WriteRecord(registers, td, offset + 4, register, count);
    more := read + [RecordAt(td, 0, offset)];
    r := Ok((written, offset + 4 + 4 * count));
  }

  method WalkRegisters(td: seq<Byte>) returns (r: Result<RegisterMap>)
    ensures r == Walk(td)
  {
    if |td| < HEADER_SIZE {
      return Err(ValueError);
    }
    var registers: RegisterMap := map[];
    var offset := HEADER_SIZE + ExtraWords(Word(td, HEADER_SIZE - 4));
    ghost var read := [];
    while offset + 4 <= |td|
      invariant HasRead(td, registers, read, offset)
      decreases |td| - offset
    {
      if Word(td, offset) == 0 {
        break;
      }
      var step;
      step, read := WalkRecord(td, registers, offset, read);
      if step.Err? {
        return Err(step.fault);
      }
      registers, offset := step.value.0, step.value.1;
    }
    ParseEnds(td, 0, offset, |td|);
    WalkEnds(td, registers, read, offset);
    r := Ok(registers);
  }

  lemma WalkEnds(td: seq<Byte>, registers: RegisterMap, read: seq<Record>, offset: nat)
    requires HasRead(td, registers, read, offset)
    requires ParseFrom(td, 0, offset, |td|).records == [] && !ParseFrom(td, 0, offset, |td|).truncated
    ensures Walk(td) == Ok(registers)
  {
    RestIsEmpty(ParseFrom(td, 0, WalkStart(td), |td|), read, ParseFrom(td, 0, offset, |td|));
  }

  // ---- the encoder ----

  /** One register write of a descriptor under construction. */
  datatype RegisterWrite = RegisterWrite(address: nat, values: seq<nat>)

  function StreamHeader(address: nat, count: nat): nat
    requires count >= 1
  {
    Or(Shl(count - 1, 26), address)
  }

  predicate Fits(words: seq<nat>) {
    forall i :: 0 <= i < |words| ==> words[i] < WORD_LIMIT
  }

  /** The writes the record format can carry; address 0 with one value would read as a terminator. */
  predicate Encodable(w: RegisterWrite) {
    && w.address < 0x400_0000 && 1 <= |w.values| <= 64
    && !(w.address == 0 && |w.values| == 1)
    && Fits(w.values)
  }

  /** The header keeps both fields apart: neither leaks into the other. */
  lemma HeaderFields(address: nat, count: nat)
    requires address < 0x400_0000 && 1 <= count <= 64
    ensures var h := StreamHeader(address, count);
            h < WORD_LIMIT && Register(h) == address && WordCount(h) == count
    ensures StreamHeader(address, count) == 0 <==> address == 0 && count == 1
  {
    ShiftBy26(1);
    ShiftBy26(count - 1);
    OrOfDisjoint(count - 1, address, 26);
    assert (0x400_0000 * (count - 1) + address) / 0x400_0000 == count - 1;
    assert (0x400_0000 * (count - 1) + address) % 0x400_0000 == address;
  }

  function EncodeWords(words: seq<nat>): (r: seq<Byte>)
    requires Fits(words)
    ensures |r| == 4 * |words|
  {
    if words == [] then [] else LittleEndian(words[0]) + EncodeWords(words[1..])
  }

  function EncodeWrite(w: RegisterWrite): (r: seq<Byte>)
    requires Encodable(w)
    ensures |r| == 4 + 4 * |w.values|
  {
    HeaderFields(w.address, |w.values|);
    LittleEndian(StreamHeader(w.address, |w.values|)) + EncodeWords(w.values)
  }

  ghost predicate AllEncodable(writes: seq<RegisterWrite>) {
    forall i :: 0 <= i < |writes| ==> Encodable(writes[i])
  }

  ghost function Encode(writes: seq<RegisterWrite>): seq<Byte>
    requires AllEncodable(writes)
  {
    if writes == [] then [] else EncodeWrite(writes[0]) + Encode(writes[1..])
  }

  /** What the writes leave in the registers, one after another. */
  function WriteMap(writes: seq<RegisterWrite>): RegisterMap {
    if writes == [] then map[]
    else
      var last := |writes| - 1;
      WriteValues(WriteMap(writes[..last]), writes[last].address, writes[last].values)
  }

  /** The records a stream holding these writes from `pos` on parses to. */
  ghost function Placed(writes: seq<RegisterWrite>, pos: nat): (records: seq<Record>)
    ensures |records| == |writes|
    ensures forall i :: 0 <= i < |writes| ==>
              records[i].register == writes[i].address && records[i].values == writes[i].values
  {
    if writes == [] then []
    else [Record(pos, writes[0].address, writes[0].values)] + Placed(writes[1..], pos + 4 + 4 * |writes[0].values|)
  }

  lemma {:induction false} WordsRead(content: seq<Byte>, at: nat, words: seq<nat>)
    requires Fits(words)
    requires SameBytes(EncodeWords(words), 0, content, at, 4 * |words|)
    ensures Values(content, at, |words|) == words
    decreases |words|
  {
    if words != [] {
      var rest := words[1..];
      PrefixAndSuffix(LittleEndian(words[0]), EncodeWords(rest), content, at);
      FirstWord(LittleEndian(words[0]), content, at, words[0]);
      WordsRead(content, at + 4, rest);
      forall i | 0 <= i < |words|
        ensures Values(content, at, |words|)[i] == words[i]
      {
        if i > 0 {
          assert Values(content, at + 4, |rest|)[i - 1] == rest[i - 1];
        }
      }
    }
  }

  lemma FirstWord(bytes: seq<Byte>, content: seq<Byte>, at: nat, w: nat)
    requires w < WORD_LIMIT && |bytes| >= 4 && bytes[..4] == LittleEndian(w)
    requires SameBytes(bytes, 0, content, at, |bytes|)
    ensures Word(content, at) == w
  {
    SameWord(bytes, 0, content, at, |bytes|, 0);
    var b := LittleEndian(w);
    assert bytes[..4][0] == b[0] && bytes[..4][1] == b[1] && bytes[..4][2] == b[2] && bytes[..4][3] == b[3];
  }

  /** Encoded writes lie in the stream as the records they stand for. */
  lemma {:induction false} EncodedIsLaid(content: seq<Byte>, base: nat, pos: nat, writes: seq<RegisterWrite>)
    requires AllEncodable(writes) && SameBytes(Encode(writes), 0, content, base + pos, |Encode(writes)|)
    ensures Laid(content, base, pos, Placed(writes, pos))
    decreases |writes|
  {
    if writes != [] {
      var w, rest, one, more := writes[0], writes[1..], EncodeWrite(writes[0]), Encode(writes[1..]);
      var next := pos + |one|;
      PrefixAndSuffix(one, more, content, base + pos);
      FirstRecordIsHeld(one, content, base, pos, w);
      EncodedIsLaid(content, base, next, rest);
      PlacedCons(writes, pos, next);
      LaidCons(content, base, pos, Record(pos, w.address, w.values), Placed(rest, next));
    } else {
      assert Placed(writes, pos) == [];
    }
  }

  lemma {:induction false} EncodedLength(writes: seq<RegisterWrite>, pos: nat)
    requires AllEncodable(writes)
    ensures EndOf(pos, Placed(writes, pos)) == pos + |Encode(writes)|
    decreases |writes|
  {
    if writes != [] {
      var next := pos + |EncodeWrite(writes[0])|;
      var record := Record(pos, writes[0].address, writes[0].values);
      EncodedLength(writes[1..], next);
      PlacedCons(writes, pos, next);
      EndOfCons(pos, record, Placed(writes[1..], next));
    }
  }

  lemma PlacedCons(writes: seq<RegisterWrite>, pos: nat, next: nat)
    requires writes != [] && next == pos + 4 + 4 * |writes[0].values|
    ensures Placed(writes, pos) == [Record(pos, writes[0].address, writes[0].values)] + Placed(writes[1..], next)
  {
  }

  lemma PrefixAndSuffix(one: seq<Byte>, more: seq<Byte>, content: seq<Byte>, at: nat)
    requires SameBytes(one + more, 0, content, at, |one + more|)
    ensures SameBytes(one, 0, content, at, |one|) && SameBytes(more, 0, content, at + |one|, |more|)
  {
    var bytes := one + more;
    assert forall k :: 0 <= k < |one| ==> one[k] == bytes[k];
    assert forall k :: 0 <= k < |more| ==> more[k] == bytes[|one| + k];
  }

  lemma FirstRecordIsHeld(bytes: seq<Byte>, content: seq<Byte>, base: nat, pos: nat, w: RegisterWrite)
    requires Encodable(w) && bytes == EncodeWrite(w)
    requires SameBytes(bytes, 0, content, base + pos, |bytes|)
    ensures HoldsRecord(content, base, pos, Record(pos, w.address, w.values))
  {
    HeaderFields(w.address, |w.values|);
    assert bytes[..4] == LittleEndian(StreamHeader(w.address, |w.values|));
    FirstWord(bytes, content, base + pos, StreamHeader(w.address, |w.values|));
    PrefixAndSuffix(LittleEndian(StreamHeader(w.address, |w.values|)), EncodeWords(w.values), content, base + pos);
    WordsRead(content, base + pos + 4, w.values);
  }

  lemma {:induction false} PlacedMap(records: seq<Record>, writes: seq<RegisterWrite>)
    requires |records| == |writes|
    requires forall i :: 0 <= i < |writes| ==>
               records[i].register == writes[i].address && records[i].values == writes[i].values
    ensures RecordMap(records) == WriteMap(writes)
    decreases |writes|
  {
    if writes != [] {
      PlacedMap(records[..|records| - 1], writes[..|writes| - 1]);
    }
  }

  /** Reading back, stream tool: any place that holds the encoding at the record
      start and then stops parses to exactly the encoded records. */
  lemma ParseReadsEncoding(content: seq<Byte>, base: nat, bound: nat, writes: seq<RegisterWrite>)
    requires base + HEADER_SIZE <= |content| && AllEncodable(writes)
    requires var pos := RecordStart(content, base);
             && SameBytes(Encode(writes), 0, content, base + pos, |Encode(writes)|)
             && pos + |Encode(writes)| <= bound
             && Stops(content, base, pos + |Encode(writes)|, bound)
    ensures var pos := RecordStart(content, base);
            var end := pos + |Encode(writes)|;
            Parse(content, base, bound) ==
              Ok(Parsed(Placed(writes, pos), end, InReach(content, base, end, bound), false))
  {
    var pos := RecordStart(content, base);
    EncodedIsLaid(content, base, pos, writes);
    EncodedLength(writes, pos);
    LaidIsParsed(content, base, pos, bound, Placed(writes, pos));
  }

  /** Reading back, converter: the register walk recovers the sequential register map. */
  lemma WalkReadsEncoding(td: seq<Byte>, writes: seq<RegisterWrite>)
    requires |td| >= HEADER_SIZE && AllEncodable(writes)
    requires var pos := WalkStart(td);
             && SameBytes(Encode(writes), 0, td, pos, |Encode(writes)|)
             && Stops(td, 0, pos + |Encode(writes)|, |td|)
    ensures Walk(td) == Ok(WriteMap(writes))
  {
    var pos := WalkStart(td);
    EncodedIsLaid(td, 0, pos, writes);
    EncodedLength(writes, pos);
    LaidIsParsed(td, 0, pos, |td|, Placed(writes, pos));
    PlacedMap(Placed(writes, pos), writes);
  }

  // ---- the two readers ----

  /** Both extra-word tests come out the same, so both readers start at the same place. */
  predicate SameStart(td: seq<Byte>)
    requires |td| >= HEADER_SIZE
  {
    Word(td, 0) % 4 == 3 <==> Word(td, HEADER_SIZE - 4) % 4 == 3
  }

  /** No record can be read at `pos`: there is no header word, a zero one, or one whose values run past the end. */
  predicate NoRecordAt(td: seq<Byte>, pos: nat) {
    pos + 4 > |td| || Word(td, pos) == 0 || pos + 4 + 4 * WordCount(Word(td, pos)) > |td|
  }

  /** The first record read tells where the reading started. */
  lemma FirstRecord(td: seq<Byte>, pos: nat)
    ensures var p := ParseFrom(td, 0, pos, |td|);
            if NoRecordAt(td, pos) then p.records == [] else p.records != [] && p.records[0].at == pos
  {
    ParseEnds(td, 0, pos, |td|);
    if pos + 4 <= |td| && Word(td, pos) != 0 {
      ParseStep(td, 0, pos, |td|);
    }
  }

  /** The two readers read the same records of a descriptor if and only if their extra-word tests
      agree or neither finds a record where it starts. */
  lemma ReadersAgreeIff(td: seq<Byte>)
    requires |td| >= HEADER_SIZE
    ensures var tool := Parse(td, 0, |td|).value;
            var converter := ParseFrom(td, 0, WalkStart(td), |td|);
            && Walk(td) == (if converter.truncated then Err(ValueError) else Ok(RecordMap(converter.records)))
            && (SameStart(td) ==> tool == converter)
            && (tool.records == converter.records <==>
                SameStart(td) || (NoRecordAt(td, RecordStart(td, 0)) && NoRecordAt(td, WalkStart(td))))
  {
    FirstRecord(td, RecordStart(td, 0));
    FirstRecord(td, WalkStart(td));
  }

  /** A descriptor of 48 bytes with header word 0 equal to 3: an extra-word mark to the stream tool alone. */
  function Marked(): (td: seq<Byte>)
    ensures |td| == 48
  {
    seq(48, k => if k == 0 then 3 else if k == HEADER_SIZE then 1 else 0)
  }

  /** A last record of one word, at the end of a descriptor. */
  lemma LastRecord(td: seq<Byte>, pos: nat)
    requires pos + 8 == |td| && Word(td, pos) == 1
    ensures ParseFrom(td, 0, pos, |td|) == Parsed([Record(pos, 1, [Word(td, pos + 4)])], pos + 8, false, false)
  {
    ParseStep(td, 0, pos, |td|);
    ParseEnds(td, 0, pos + 8, |td|);
    LastRecordAt(td, pos);
  }

  lemma LastRecordAt(td: seq<Byte>, pos: nat)
    requires pos + 8 == |td| && Word(td, pos) == 1
    ensures WordCount(1) == 1 && RecordAt(td, 0, pos) == Record(pos, 1, [Word(td, pos + 4)])
  {
  }

  lemma OneRecordMap(record: Record, value: nat)
    requires record.values == [value]
    ensures RecordMap([record]) == map[record.register := value]
  {
    RecordMapGrows([], record);
    assert [] + [record] == [record];
  }

  lemma MarkedWords()
    ensures var td := Marked();
            Word(td, 0) == 3 && Word(td, 36) == 0 && Word(td, 40) == 1 && Word(td, 44) == 0
  {
  }

  lemma ConverterReadsMark(td: seq<Byte>)
    requires |td| == HEADER_SIZE + 8 && Word(td, HEADER_SIZE - 4) == 0
    requires Word(td, HEADER_SIZE) == 1 && Word(td, HEADER_SIZE + 4) == 0
    ensures Walk(td) == Ok(map[1 := 0])
  {
    LastRecord(td, HEADER_SIZE);
    OneRecordMap(Record(HEADER_SIZE, 1, [0]), 0);
  }

  lemma ToolSkipsMark(td: seq<Byte>)
    requires |td| == HEADER_SIZE + 8 && Word(td, 0) == 3 && Word(td, HEADER_SIZE + 4) == 0
    ensures Parse(td, 0, |td|) == Ok(Parsed([], HEADER_SIZE + 4, true, false))
  {
    ParseEnds(td, 0, HEADER_SIZE + 4, |td|);
  }

  /** The converter reads a write of 0 to register 1 there, the stream tool nothing at all. */
  lemma ReadersCanDiffer()
    ensures Walk(Marked()) == Ok(map[1 := 0])
    ensures Parse(Marked(), 0, |Marked()|) == Ok(Parsed([], HEADER_SIZE + 4, true, false))
  {
    MarkedWords();
    ConverterReadsMark(Marked());
    ToolSkipsMark(Marked());
  }

  /** The words of one record go to consecutive word addresses, over what was there; no other register changes. */
  lemma {:induction false} RegistersAreWritten(registers: RegisterMap, address: nat, values: seq<nat>, r: nat)
    ensures var after := WriteValues(registers, address, values);
            && (forall i :: 0 <= i < |values| ==> address + 4 * i in after && after[address + 4 * i] == values[i])
            && ((forall i :: 0 <= i < |values| ==> r != address + 4 * i) ==>
                  (r in after <==> r in registers) && (r in registers ==> after[r] == registers[r]))
    decreases |values|
  {
    if values != [] {
      RegistersAreWritten(registers, address, values[..|values| - 1], r);
    }
  }
}
