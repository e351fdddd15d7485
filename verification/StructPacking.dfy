/** struct.pack and struct.unpack of little-endian unsigned fields of given widths. */
module StructPacking {
  import opened Words

  /** 256 ** width */
  function Capacity(width: nat): (c: nat)
    ensures c >= 1
  {
    if width == 0 then 1 else 0x100 * Capacity(width - 1)
  }

  function EncodeField(v: nat, width: nat): (r: seq<Byte>)
    ensures |r| == width
  {
    if width == 0 then [] else [v % 0x100] + EncodeField(v / 0x100, width - 1)
  }

  function DecodeField(s: seq<Byte>): nat {
    if s == [] then 0 else s[0] + 0x100 * DecodeField(s[1..])
  }

  lemma {:induction false} FieldRoundTrip(v: nat, width: nat)
    requires v < Capacity(width)
    ensures DecodeField(EncodeField(v, width)) == v
  {
    if width > 0 {
      FieldRoundTrip(v / 0x100, width - 1);
      assert EncodeField(v, width)[1..] == EncodeField(v / 0x100, width - 1);
    }
  }

  function Size(widths: seq<nat>): nat {
    if widths == [] then 0 else widths[0] + Size(widths[1..])
  }

  /** Packing raises when a value is negative or too wide for its field. */
  function PackFields(widths: seq<nat>, values: seq<int>): (r: Result<seq<Byte>>)
    requires |values| == |widths|
    ensures r.Ok? ==> |r.value| == Size(widths)
  {
    if widths == [] then Ok([])
    else if !(0 <= values[0] < Capacity(widths[0])) then Err(StructError)
    else
      var rest :- PackFields(widths[1..], values[1..]);
      Ok(EncodeField(values[0], widths[0]) + rest)
  }

  function UnpackFields(widths: seq<nat>, s: seq<Byte>): (values: seq<int>)
    requires |s| == Size(widths)
    ensures |values| == |widths|
  {
    if widths == [] then []
    else [DecodeField(s[..widths[0]])] + UnpackFields(widths[1..], s[widths[0]..])
  }

  /** Whatever was packed is what is unpacked. */
  lemma {:induction false} UnpackPacked(widths: seq<nat>, values: seq<int>)
    requires |values| == |widths| && PackFields(widths, values).Ok?
    ensures UnpackFields(widths, PackFields(widths, values).value) == values
  {
    if widths != [] {
      var bytes, rest := PackFields(widths, values).value, PackFields(widths[1..], values[1..]).value;
      assert bytes[..widths[0]] == EncodeField(values[0], widths[0]) && bytes[widths[0]..] == rest;
      FieldRoundTrip(values[0], widths[0]);
      UnpackPacked(widths[1..], values[1..]);
    }
  }

  /** Packing succeeds exactly when every value fits its field. */
  lemma {:induction false} PacksIff(widths: seq<nat>, values: seq<int>)
    requires |values| == |widths|
    ensures PackFields(widths, values).Ok? <==> forall i :: 0 <= i < |widths| ==> 0 <= values[i] < Capacity(widths[i])
  {
    if widths != [] {
      PacksIff(widths[1..], values[1..]);
      assert widths == [widths[0]] + widths[1..] && values == [values[0]] + values[1..];
    }
  }

  /** Fields are little-endian: four bytes are a word, eight are two. */
  lemma FieldIsWords(s: seq<Byte>)
    ensures |s| == 4 ==> DecodeField(s) == Word(s, 0)
    ensures |s| == 8 ==> DecodeField(s) == DoubleWord(s, 0)
  {
    if |s| == 4 {
      FourBytes(s);
    } else if |s| == 8 {
      FourMore(s);
      FourBytes(s[4..]);
    }
  }

  lemma FourBytes(s: seq<Byte>)
    requires |s| == 4
    ensures DecodeField(s) == Word(s, 0)
  {
    FourMore(s);
    assert DecodeField(s[4..]) == 0;
  }

  lemma FourMore(s: seq<Byte>)
    requires |s| >= 4
    ensures DecodeField(s) == Word(s, 0) + WORD_LIMIT * DecodeField(s[4..])
  {
    assert s[1..][1..] == s[2..] && s[2..][1..] == s[3..] && s[3..][1..] == s[4..];
    assert DecodeField(s) == s[0] + 0x100 * DecodeField(s[1..]);
    assert DecodeField(s[1..]) == s[1] + 0x100 * DecodeField(s[2..]);
    assert DecodeField(s[2..]) == s[2] + 0x100 * DecodeField(s[3..]);
    assert DecodeField(s[3..]) == s[3] + 0x100 * DecodeField(s[4..]);
  }

  lemma {:induction false} SizeOfMore(widths: seq<nat>, n: nat)
    requires n < |widths|
    ensures Size(widths[..n + 1]) == Size(widths[..n]) + widths[n]
  {
    if n == 0 {
      assert widths[..1] == [widths[0]] && widths[..1][1..] == [];
    } else {
      SizeOfMore(widths[1..], n - 1);
      assert widths[..n + 1][1..] == widths[1..][..n] && widths[..n][1..] == widths[1..][..n - 1];
    }
  }

  /** Value `i` is packed behind the fields before it. */
  lemma {:induction false} FieldStandsAt(widths: seq<nat>, values: seq<int>, i: nat)
    requires |values| == |widths| && PackFields(widths, values).Ok? && i < |widths|
    ensures var bytes, at := PackFields(widths, values).value, Size(widths[..i]);
            at + widths[i] <= |bytes| && DecodeField(bytes[at..at + widths[i]]) == values[i]
    decreases i
  {
    var bytes, rest := PackFields(widths, values).value, PackFields(widths[1..], values[1..]).value;
    assert bytes == EncodeField(values[0], widths[0]) + rest;
    if i == 0 {
      FieldRoundTrip(values[0], widths[0]);
      assert bytes[..widths[0]] == EncodeField(values[0], widths[0]);
    } else {
      FieldStandsAt(widths[1..], values[1..], i - 1);
      assert widths[..i][1..] == widths[1..][..i - 1];
      var at := Size(widths[1..][..i - 1]);
      assert bytes[widths[0] + at..widths[0] + at + widths[i]] == rest[at..at + widths[i]];
    }
  }

  /** A packed 4-byte field is a word of the result, an 8-byte field two words. */
  lemma PackedWords(widths: seq<nat>, values: seq<int>, i: nat, bytes: seq<Byte>, at: nat)
    requires |values| == |widths| && PackFields(widths, values) == Ok(bytes) && i < |widths|
    requires at == Size(widths[..i])
    ensures widths[i] == 4 ==> at + 4 <= |bytes| && Word(bytes, at) == values[i]
    ensures widths[i] == 8 ==> at + 8 <= |bytes| && DoubleWord(bytes, at) == values[i]
  {
    FieldStandsAt(widths, values, i);
    var field := bytes[at..at + widths[i]];
    FieldIsWords(field);
    if widths[i] == 4 {
      SameWord(field, 0, bytes, at, 4, 0);
    } else if widths[i] == 8 {
      SameWord(field, 0, bytes, at, 8, 0);
      SameWord(field, 0, bytes, at, 8, 4);
    }
  }
}
