/** The logical state of ring attention: which token is in which slot, and sums over slots as sums over tokens. */
module AttentionRing {
  import opened Vectors
  import opened WeightPacking

  const DIMENSION: nat := 256
  const FLOAT16_MIN := -65504.0

  /** All accepted tokens, with the ring size and the slot the next one goes to. */
  datatype History = History(context: nat, cursor: nat, keys: seq<Vector>, values: seq<Vector>) {
    predicate Valid() {
      && 1 <= context && cursor < context && cursor <= |keys| == |values|
      && (cursor == |keys| || cursor + context <= |keys|)
      && (forall t :: 0 <= t < |keys| ==> |keys[t]| == DIMENSION)
      && forall t :: 0 <= t < |values| ==> |values[t]| == DIMENSION
    }

    /** How many slots are in use. */
    function Length(): nat {
      if |keys| < context then |keys| else context
    }

    /** The newest token of slot s. */
    function Token(s: nat): nat
      requires Valid() && s < Length()
      ensures Token(s) < |keys|
    {
      var base := |keys| - cursor;
      if s < cursor then base + s else base + s - context
    }

    /** The slot of token t, one of the last Length() ones. */
    function SlotOf(t: nat): nat
      requires Valid() && |keys| - Length() <= t < |keys|
      ensures SlotOf(t) < Length() && Token(SlotOf(t)) == t
    {
      var base := |keys| - cursor;
      if t >= base then t - base else t + context - base
    }

    function Appended(key: Vector, value: Vector): History {
      History(context, if cursor + 1 == context then 0 else cursor + 1, keys + [key], values + [value])
    }

    /** Appending puts the new token in the cursor's slot and leaves every other slot's token. */
    lemma AppendedTokens(key: Vector, value: Vector, s: nat)
      requires Valid() && |key| == DIMENSION && |value| == DIMENSION
      requires s < Appended(key, value).Length()
      ensures var next := Appended(key, value);
              && next.Valid()
              && next.Token(s) == (if s == cursor then |keys| else if s < Length() then Token(s) else |keys|)
              && (s != cursor ==> s < Length())
    {
    }

    lemma AppendedIsValid(key: Vector, value: Vector)
      requires Valid() && |key| == DIMENSION && |value| == DIMENSION
      ensures Appended(key, value).Valid()
    {
    }

    /** A token offered to the state: it has a slot only while the cursor is a column of the value program. */
    function Offered(key: Vector, value: Vector): History {
      if cursor < DIMENSION then Appended(key, value) else this
    }

    /** The score rows in use are the keys of their slots' tokens. */
    ghost predicate HoldsKeys(m: Matrix<real>)
      requires Valid() && IsMatrix(m, ROWS, DIMENSION) && context <= ROWS
    {
      forall s :: 0 <= s < Length() ==> m[s] == keys[Token(s)]
    }

    /** The value columns in use are the values of their slots' tokens, and the others are zero. */
    ghost predicate HoldsValues(m: Matrix<real>)
      requires Valid() && IsMatrix(m, ROWS, DIMENSION)
    {
      && Length() <= DIMENSION
      && forall e, s {:trigger m[e][s]} :: 0 <= e < DIMENSION && 0 <= s < DIMENSION ==>
           m[e][s] == if s < Length() then values[Token(s)][e] else 0.0
    }

    /** The score of slot s: its own key against the query, or the least half-precision number. */
    function Score(query: Vector, s: nat): real
      requires Valid() && s < context && |query| == DIMENSION
    {
      if s < Length() then Dot(keys[Token(s)], query, DIMENSION) else FLOAT16_MIN
    }

    function Scores(query: Vector): (scores: Vector)
      requires Valid() && |query| == DIMENSION
      ensures |scores| == context
    {
      seq(context, s requires 0 <= s < context => Score(query, s))
    }

    /** The score a token's slot holds comes from the token's own key. */
    lemma TokenScore(query: Vector, t: nat)
      requires Valid() && |query| == DIMENSION && |keys| - Length() <= t < |keys|
      ensures Scores(query)[SlotOf(t)] == Dot(keys[t], query, DIMENSION)
    {
    }

    /** A slot not in use scores the least finite half-precision number. */
    lemma UnusedIsMasked(query: Vector, s: nat)
      requires Valid() && |query| == DIMENSION && Length() <= s < context
      ensures Scores(query)[s] == -65504.0
    {
    }

    /** Element e of every slot in use, weighted by the slot's probability. */
    function SlotTerms(p: Vector, e: nat): (terms: Vector)
      requires Valid() && |p| == context && e < DIMENSION
      ensures |terms| == Length()
    {
      seq(Length(), s requires 0 <= s < Length() => Times(values[Token(s)][e], p[s]))
    }

    /** The same for the last Length() tokens in arrival order. */
    function ArrivalTerms(p: Vector, e: nat): (terms: Vector)
      requires Valid() && |p| == context && e < DIMENSION
      ensures |terms| == Length()
    {
      var first := |keys| - Length();
      seq(Length(), i requires 0 <= i < Length() => Times(values[first + i][e], p[SlotOf(first + i)]))
    }

    /** The attended element: the weighted sum of the remembered tokens in arrival order. */
    function Attended(p: Vector, e: nat): real
      requires Valid() && |p| == context && e < DIMENSION
    {
      Sum(ArrivalTerms(p, e), Length())
    }

    /** In arrival order the ring starts at the cursor: the terms are the slot terms rotated. */
    lemma TermsRotate(p: Vector, e: nat)
      requires Valid() && |p| == context && e < DIMENSION
      ensures cursor <= Length()
      ensures ArrivalTerms(p, e) ==
              if cursor == |keys| then SlotTerms(p, e) else SlotTerms(p, e)[cursor..] + SlotTerms(p, e)[..cursor]
    {
      var slots, arrival := SlotTerms(p, e), ArrivalTerms(p, e);
      var first := |keys| - Length();
      forall i | 0 <= i < Length()
        ensures arrival[i] == slots[SlotOf(first + i)]
      {
        assert Token(SlotOf(first + i)) == first + i;
      }
    }

    lemma SlotSumIsAttended(p: Vector, e: nat)
      requires Valid() && |p| == context && e < DIMENSION
      ensures Sum(SlotTerms(p, e), Length()) == Attended(p, e)
    {
      TermsRotate(p, e);
      if cursor != |keys| {
        SumRotates(SlotTerms(p, e), cursor);
      }
    }
  }

  /** Keys and values of tokens, one after another. */
  datatype KeyValue = KeyValue(key: Vector, value: Vector) {
    predicate IsShaped() {
      |key| == DIMENSION && |value| == DIMENSION
    }
  }

  function OfferAll(h: History, tokens: seq<KeyValue>): History {
    if tokens == [] then h
    else
      var last := |tokens| - 1;
      OfferAll(h, tokens[..last]).Offered(tokens[last].key, tokens[last].value)
  }

  /** A fresh ring keeps a whole run of tokens if and only if its context has at most 256 slots or the run at
      most 256 tokens; a longer run leaves it with the first 256, and the cursor where every token is refused. */
  lemma {:induction false} RunIsKeptIff(context: nat, tokens: seq<KeyValue>)
    requires 1 <= context && forall i :: 0 <= i < |tokens| ==> tokens[i].IsShaped()
    ensures var h := OfferAll(History(context, 0, [], []), tokens);
            && h.Valid() && h.context == context
            && (|h.keys| == |tokens| <==> context <= DIMENSION || |tokens| <= DIMENSION)
            && (h.cursor == DIMENSION <==> DIMENSION < context && DIMENSION <= |tokens|)
            && (DIMENSION < context ==> h.cursor == |h.keys| == if |tokens| < DIMENSION then |tokens| else DIMENSION)
    decreases |tokens|
  {
    if tokens != [] {
      RunIsKeptIff(context, tokens[..|tokens| - 1]);
    }
  }

  lemma {:induction false} SumOfConcatenation(a: Vector, b: Vector, n: nat)
    requires n <= |b|
    ensures Sum(a + b, |a| + n) == Sum(a, |a|) + Sum(b, n)
    decreases n
  {
    if n > 0 {
      SumOfConcatenation(a, b, n - 1);
    } else {
      SumOfPrefix(a + b, a, |a|);
    }
  }

  lemma {:induction false} SumOfPrefix(a: Vector, b: Vector, n: nat)
    requires n <= |a| && n <= |b| && forall i :: 0 <= i < n ==> a[i] == b[i]
    ensures Sum(a, n) == Sum(b, n)
  {
    if n > 0 {
      SumOfPrefix(a, b, n - 1);
    }
  }

  /** A rotation keeps the sum. */
  lemma SumRotates(terms: Vector, at: nat)
    requires at <= |terms|
    ensures Sum(terms[at..] + terms[..at], |terms|) == Sum(terms, |terms|)
  {
    SumOfConcatenation(terms[..at], terms[at..], |terms| - at);
    SumOfConcatenation(terms[at..], terms[..at], at);
    assert terms == terms[..at] + terms[at..];
  }

  /** The product row over a padded activation is the sum over the slots in use. */
  lemma {:induction false} RowSum(h: History, m: Matrix<real>, p: Vector, activation: Vector, e: nat, n: nat)
    requires h.Valid() && IsMatrix(m, ROWS, DIMENSION) && h.HoldsValues(m)
    requires |p| == h.context && e < DIMENSION && |activation| == DIMENSION && n <= DIMENSION
    requires forall s :: 0 <= s < DIMENSION && s < h.context ==> activation[s] == p[s]
    ensures Dot(m[e], activation, n) == Sum(h.SlotTerms(p, e), if n < h.Length() then n else h.Length())
  {
    if n > 0 {
      RowSum(h, m, p, activation, e, n - 1);
      assert m[e][n - 1] == if n - 1 < h.Length() then h.values[h.Token(n - 1)][e] else 0.0;
    }
  }
}
