/** Byte streams and the little-endian 32-bit words stored in them, with the
    exceptions the Python sources raise. */
module Words {

  /** The exception classes the modelled code raises. */
  datatype Fault = StructError | AssertionError | ValueError | RuntimeError

  datatype Result<+T> = Ok(value: T) | Err(fault: Fault) {
    predicate IsFailure() {
      Err?
    }

    function PropagateFailure<U>(): Result<U>
      requires Err?
    {
      Err(fault)
    }

    function Extract(): T
      requires Ok?
    {
      value
    }
  }

  type Byte = b: int | 0 <= b < 0x100

  /** A halfword. */
  type Half = x: int | 0 <= x < 0x1_0000

  const WORD_LIMIT := 0x1_0000_0000

  /** The unsigned word at offset `at`: struct format "<I". */
  function Word(s: seq<Byte>, at: nat): (w: nat)
    requires at + 4 <= |s|
    ensures w < WORD_LIMIT
  {
    var b0: int, b1: int, b2: int, b3: int := s[at], s[at + 1], s[at + 2], s[at + 3];
    b0 + 0x100 * (b1 + 0x100 * (b2 + 0x100 * b3))
  }

  /** Struct format "<Q". */
  function DoubleWord(s: seq<Byte>, at: nat): nat
    requires at + 8 <= |s|
  {
    Word(s, at) + 0x1_0000_0000 * Word(s, at + 4)
  }

  /** A word is zero exactly when its bytes are. */
  lemma ZeroWordBytes(s: seq<Byte>, at: nat)
    requires at + 4 <= |s|
    ensures Word(s, at) == 0 <==> forall k :: at <= k < at + 4 ==> s[k] == 0
  {
  }

  function LittleEndian(w: nat): (r: seq<Byte>)
    requires w < WORD_LIMIT
    ensures |r| == 4 && Word(r, 0) == w
  {
    var w1 := w / 0x100;
    var w2 := w1 / 0x100;
    [w % 0x100, w1 % 0x100, w2 % 0x100, w2 / 0x100]
  }

  /** struct.pack_into("<I", s, at, w): the word changes, every other byte stays. */
  function Put(s: seq<Byte>, at: nat, w: nat): (r: seq<Byte>)
    requires at + 4 <= |s| && w < WORD_LIMIT
    ensures |r| == |s| && Word(r, at) == w
    ensures forall k :: 0 <= k < |s| && !(at <= k < at + 4) ==> r[k] == s[k]
  {
    var bytes := LittleEndian(w);
    s[at := bytes[0]][at + 1 := bytes[1]][at + 2 := bytes[2]][at + 3 := bytes[3]]
  }

  /** `n` bytes of `a` from `i` on are those of `b` from `j` on. */
  ghost predicate SameBytes(a: seq<Byte>, i: nat, b: seq<Byte>, j: nat, n: int) {
    && 0 <= n && i + n <= |a| && j + n <= |b|
    && forall k :: i <= k < i + n ==> a[k] == b[k - i + j]
  }

  lemma SameWord(a: seq<Byte>, i: nat, b: seq<Byte>, j: nat, n: nat, at: nat)
    requires SameBytes(a, i, b, j, n) && i <= at && at + 4 <= i + n
    ensures Word(a, at) == Word(b, at - i + j)
  {
  }

  /** A word is determined by its four bytes, and determines them. */
  lemma WordIsInjective(a: seq<Byte>, i: nat, b: seq<Byte>, j: nat)
    requires i + 4 <= |a| && j + 4 <= |b| && Word(a, i) == Word(b, j)
    ensures SameBytes(a, i, b, j, 4)
  {
    var a2: int, b2: int := a[i + 2] + 0x100 * (a[i + 3] as int), b[j + 2] + 0x100 * (b[j + 3] as int);
    var a1: int, b1: int := a[i + 1] + 0x100 * a2, b[j + 1] + 0x100 * b2;
    SplitByte(a[i], a1, b[j], b1);
    SplitByte(a[i + 1], a2, b[j + 1], b2);
    SplitByte(a[i + 2], a[i + 3], b[j + 2], b[j + 3]);
  }

  lemma SplitByte(low: Byte, high: int, low': Byte, high': int)
    requires low + 0x100 * high == low' + 0x100 * high'
    ensures low == low' && high == high'
  {
  }

  /** Writing back the word that is already there changes nothing. */
  lemma PutSame(s: seq<Byte>, at: nat)
    requires at + 4 <= |s|
    ensures Put(s, at, Word(s, at)) == s
  {
    var r := Put(s, at, Word(s, at));
    WordIsInjective(r, at, s, at);
    assert r == s[..at] + r[at..at + 4] + s[at + 4..];
    assert s == s[..at] + s[at..at + 4] + s[at + 4..];
  }

  /** Different addresses on the 0x100 grid of task bases are at least 0x100 apart. */
  lemma GridApart(a: nat, b: nat)
    requires a % 0x100 == 0 && b % 0x100 == 0 && a != b
    ensures a + 0x100 <= b || b + 0x100 <= a
  {
    var q, r := a / 0x100, b / 0x100;
    assert a - b == 0x100 * (q - r);
  }

  function Zeros(n: nat): (r: seq<Byte>)
    ensures |r| == n && forall k :: 0 <= k < n ==> r[k] == 0
  {
    seq(n, _ => 0)
  }

  /** s[lo:hi] = bytes(hi - lo) */
  function ZeroRange(s: seq<Byte>, lo: nat, hi: nat): (r: seq<Byte>)
    requires lo <= hi <= |s|
    ensures |r| == |s| && forall k :: 0 <= k < |s| ==> r[k] == if lo <= k < hi then 0 else s[k]
  {
    seq(|s|, k requires 0 <= k < |s| => if lo <= k < hi then 0 else s[k])
  }

  ghost function Below(n: nat): (s: set<nat>)
    ensures forall b: nat :: b in s <==> b < n
  {
    if n == 0 then {} else Below(n - 1) + {n - 1}
  }

  /** Put on a bytearray. */
  method PackInto(a: array<Byte>, at: nat, w: nat)
    requires at + 4 <= a.Length && w < WORD_LIMIT
    modifies a
    ensures a[..] == Put(old(a[..]), at, w)
  {
    var bytes := LittleEndian(w);
    a[at], a[at + 1], a[at + 2], a[at + 3] := bytes[0], bytes[1], bytes[2], bytes[3];
    assert a[..] == Put(old(a[..]), at, w);
  }
}
