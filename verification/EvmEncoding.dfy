/** The Solidity Contract ABI Specification's encoding, and that the decoder inverts it. */
module EvmEncoding {
  import opened Wrappers
  import opened EvmLogs

  // ---------------------------------------------------------------- encoding

  function ToHex(v: nat, k: nat): (h: Hex)
    ensures |h| == k
  {
    if k == 0 then [] else ToHex(v / 16, k - 1) + [v % 16]
  }

  function Word(v: nat): (h: Hex)
    ensures |h| == WORD
  {
    ToHex(v, WORD)
  }

  function Zeros(n: nat): (h: Hex)
    ensures |h| == n
  {
    seq(n, _ => 0)
  }

  lemma {:induction false} PowerIsPositive(k: nat)
    ensures Power16(k) >= 1
  {
    if k > 0 { PowerIsPositive(k - 1); }
  }

  lemma {:induction false} SpanIsTwoSigns()
    ensures Span() == 2 * SignBit() && SignBit() >= 8
  {
    PowerIsPositive(WORD - 1);
    assert Power16(WORD) == 16 * Power16(WORD - 1);
  }

  predicate Dynamic(t: AbiType) { t.Bytes? || t.Text? }

  /** A value of the type, as Solidity holds it. */
  predicate HasType(t: AbiType, v: Value) {
    match t
    case Address => v.AddressValue? && |v.digits| == 40
    case Bool => v.BoolValue?
    case Bytes => v.BytesValue? && |v.digits| % 2 == 0
    case Bytes32 => v.Bytes32Value? && |v.digits| == WORD
    case Int256 => v.IntValue? && 0 <= v.i + SignBit() && v.i < SignBit()
    case Text => v.TextValue? && |v.digits| % 2 == 0
    case Uint(_) => v.UintValue? && v.u < Span()
  }

  /** `enc` of a static value: one 32-byte word. */
  function StaticWord(t: AbiType, v: Value): (h: Hex)
    requires HasType(t, v) && !Dynamic(t)
    ensures |h| == WORD
  {
    match t
    case Address => Zeros(24) + v.digits
    case Bool => Word(if v.b then 1 else 0)
    case Bytes32 => v.digits
    case Int256 => SpanIsTwoSigns(); Word(if v.i < 0 then v.i + Span() else v.i)
    case Uint(_) => Word(v.u)
  }

  /** Digits that fill the last word of `n` digits. */
  function Padding(n: nat): (p: nat)
    ensures p < WORD && (n + p) % WORD == 0
  {
    if n % WORD == 0 then 0 else WORD - n % WORD
  }

  /** `enc` of a dynamic value: its length in bytes, then its bytes, filled with zeros to a word. */
  function Tail(v: Value): Hex
    requires v.BytesValue? || v.TextValue?
  {
    Word(|v.digits| / 2) + v.digits + Zeros(Padding(|v.digits|))
  }

  ghost predicate Typed(params: seq<Param>, args: seq<Value>) {
    |args| == |params| && forall i | 0 <= i < |params| :: HasType(params[i].abiType, args[i])
  }

  /** The tails of the dynamic data arguments among the first `n`. */
  function Tails(params: seq<Param>, args: seq<Value>, n: nat): Hex
    requires Typed(params, args) && n <= |params|
  {
    if n == 0 then []
    else Tails(params, args, n - 1) + if !params[n - 1].indexed && Dynamic(params[n - 1].abiType) then Tail(args[n - 1]) else []
  }

  /** All heads together, in digits. */
  function HeadLength(params: seq<Param>): nat { WORD * (|params| - Indexed(params, |params|)) }

  /** The head word of data argument `i`: its value, or its tail's offset in bytes. */
  function Head(params: seq<Param>, args: seq<Value>, i: nat): (h: Hex)
    requires Typed(params, args) && i < |params|
    ensures |h| == WORD
  {
    if Dynamic(params[i].abiType) then Word((HeadLength(params) + |Tails(params, args, i)|) / 2)
    else StaticWord(params[i].abiType, args[i])
  }

  function Heads(params: seq<Param>, args: seq<Value>, n: nat): (h: Hex)
    requires Typed(params, args) && n <= |params|
    ensures |h| == WORD * (n - Indexed(params, n))
  {
    if n == 0 then [] else Heads(params, args, n - 1) + if params[n - 1].indexed then [] else Head(params, args, n - 1)
  }

  function Topics(params: seq<Param>, args: seq<Value>, n: nat): (t: seq<Hex>)
    requires Typed(params, args) && n <= |params|
    requires forall i | 0 <= i < |params| && params[i].indexed :: !Dynamic(params[i].abiType)
    ensures |t| == Indexed(params, n)
  {
    if n == 0 then []
    else Topics(params, args, n - 1) + if params[n - 1].indexed then [StaticWord(params[n - 1].abiType, args[n - 1])] else []
  }

  function EncodeData(params: seq<Param>, args: seq<Value>): Hex
    requires Typed(params, args)
  {
    Heads(params, args, |params|) + Tails(params, args, |params|)
  }

  function Encode(topic0: Hex, params: seq<Param>, args: seq<Value>): Log
    requires Typed(params, args)
    requires forall i | 0 <= i < |params| && params[i].indexed :: !Dynamic(params[i].abiType)
  {
    Log([topic0] + Topics(params, args, |params|), EncodeData(params, args))
  }

  // ---------------------------------------------------------------- words read back

  lemma {:induction false} NumberOfHex(v: nat, k: nat)
    requires v < Power16(k)
    ensures Number(ToHex(v, k)) == v
  {
    if k > 0 {
      NumberOfHex(v / 16, k - 1);
      assert ToHex(v, k)[..k - 1] == ToHex(v / 16, k - 1);
    }
  }

  lemma {:induction false} NumberOfWord(v: nat)
    requires v < Span()
    ensures Number(Word(v)) == v
  {
    NumberOfHex(v, WORD);
  }

  /** A static word decodes to the value it encodes, whatever the data. */
  lemma {:induction false} StaticRoundTrip(t: AbiType, v: Value, data: Hex)
    requires HasType(t, v) && !Dynamic(t)
    ensures DecodeWord(t, StaticWord(t, v), data) == v
  {
    SpanIsTwoSigns();
    match t
    case Address => assert (Zeros(24) + v.digits)[24..] == v.digits;
    case Bool => NumberOfWord(if v.b then 1 else 0);
    case Bytes32 =>
    case Int256 => NumberOfWord(if v.i < 0 then v.i + Span() else v.i);
    case Uint(_) => NumberOfWord(v.u);
  }

  lemma {:induction false} MaxSafeIntegerFits(k: nat)
    requires k >= 14
    ensures MAX_SAFE_INTEGER < Power16(k)
  {
    if k > 14 {
      MaxSafeIntegerFits(k - 1);
    } else {
      assert Power16(4) == 0x1_0000;
      assert Power16(8) == 0x1_0000_0000;
      assert Power16(12) == 0x1_0000_0000_0000;
    }
  }

  lemma {:induction false} SliceOfMiddle(before: Hex, middle: Hex, after: Hex)
    ensures Slice(before + middle + after, |before|, |middle|) == middle
  {
  }

  lemma {:induction false} Regroup(before: Hex, word: Hex, digits: Hex, filling: Hex, after: Hex)
    ensures before + (word + digits + filling) + after == before + word + (digits + filling + after)
    ensures before + (word + digits + filling) + after == (before + word) + digits + (filling + after)
  {
  }

  lemma {:induction false} WordFound(before: Hex, word: Hex, after: Hex, k: nat)
    requires |word| == WORD && |before| == k * WORD
    ensures WordFromData(before + word + after, k) == Some(word)
  {
    SliceOfMiddle(before, word, after);
  }

  lemma {:induction false} BytesFound(front: Hex, digits: Hex, after: Hex, k: nat)
    requires |front| == (k + 1) * WORD
    ensures Slice(front + digits + after, (k + 1) * WORD, |digits|) == digits
  {
    SliceOfMiddle(front, digits, after);
  }

  /** A length word and bytes, `k` words into the data, are found through the offset `32 k`. */
  lemma {:induction false} OffsetFinds(data: Hex, k: nat, digits: Hex)
    requires |digits| % 2 == 0 && 32 * k <= MAX_SAFE_INTEGER && |digits| <= 2 * MAX_SAFE_INTEGER
    requires WordFromData(data, k) == Some(Word(|digits| / 2)) && Slice(data, (k + 1) * WORD, |digits|) == digits
    ensures DynamicBytes(data, Word(32 * k)) == Some(digits)
  {
    SafeWord(32 * k);
    SafeWord(|digits| / 2);
    assert 32 * k / 32 == k;
  }

  lemma {:induction false} SafeWord(v: nat)
    requires v <= MAX_SAFE_INTEGER
    ensures Number(Word(v)) == v
  {
    MaxSafeIntegerFits(WORD);
    NumberOfWord(v);
  }

  /** A tail inside the data is found through its offset word. */
  lemma {:induction false} DynamicRoundTrip(before: Hex, v: Value, after: Hex, k: nat)
    requires (v.BytesValue? || v.TextValue?) && |v.digits| % 2 == 0
    requires |before| == k * WORD && |before + Tail(v) + after| <= 2 * MAX_SAFE_INTEGER
    ensures DynamicBytes(before + Tail(v) + after, Word(32 * k)) == Some(v.digits)
  {
    var lengthWord, filling := Word(|v.digits| / 2), Zeros(Padding(|v.digits|));
    Regroup(before, lengthWord, v.digits, filling, after);
    WordFound(before, lengthWord, v.digits + filling + after, k);
    BytesFound(before + lengthWord, v.digits, filling + after, k);
    OffsetFinds(before + Tail(v) + after, k, v.digits);
  }

  // ---------------------------------------------------------------- where the parts are

  /** How many words of tails stand before parameter `n`'s. */
  function TailWords(params: seq<Param>, args: seq<Value>, n: nat): nat
    requires Typed(params, args) && n <= |params|
  {
    if n == 0 then 0
    else TailWords(params, args, n - 1)
         + if !params[n - 1].indexed && Dynamic(params[n - 1].abiType) then 1 + WordsFor(|args[n - 1].digits|) else 0
  }

  function WordsFor(n: nat): nat { (n + Padding(n)) / WORD }

  lemma {:induction false} TailIsWhole(v: Value)
    requires v.BytesValue? || v.TextValue?
    ensures |Tail(v)| == WORD * (1 + WordsFor(|v.digits|))
  {
    var n := |v.digits|;
    assert |Tail(v)| == WORD + (n + Padding(n));
    assert n + Padding(n) == WORD * WordsFor(n);
  }

  lemma {:induction false} TailsAreWhole(params: seq<Param>, args: seq<Value>, n: nat)
    requires Typed(params, args) && n <= |params|
    ensures |Tails(params, args, n)| == WORD * TailWords(params, args, n)
  {
    if n > 0 {
      TailsAreWhole(params, args, n - 1);
      if !params[n - 1].indexed && Dynamic(params[n - 1].abiType) { TailIsWhole(args[n - 1]); }
    }
  }

  lemma {:induction false} Associate(a: Hex, b: Hex, c: Hex)
    ensures (a + b) + c == a + (b + c)
  {
  }

  lemma {:induction false} TailsExtend(params: seq<Param>, args: seq<Value>, n: nat, m: nat) returns (rest: Hex)
    requires Typed(params, args) && n <= m <= |params|
    ensures Tails(params, args, m) == Tails(params, args, n) + rest
    decreases m
  {
    if n == m {
      rest := [];
    } else {
      var front := TailsExtend(params, args, n, m - 1);
      var own: Hex := if !params[m - 1].indexed && Dynamic(params[m - 1].abiType) then Tail(args[m - 1]) else [];
      rest := front + own;
      Associate(Tails(params, args, n), front, own);
    }
  }

  lemma {:induction false} HeadsExtend(params: seq<Param>, args: seq<Value>, n: nat, m: nat) returns (rest: Hex)
    requires Typed(params, args) && n <= m <= |params|
    ensures Heads(params, args, m) == Heads(params, args, n) + rest
    decreases m
  {
    if n == m {
      rest := [];
    } else {
      var front := HeadsExtend(params, args, n, m - 1);
      var own: Hex := if params[m - 1].indexed then [] else Head(params, args, m - 1);
      rest := front + own;
      Associate(Heads(params, args, n), front, own);
    }
  }

  lemma {:induction false} TopicAt(params: seq<Param>, args: seq<Value>, i: nat, n: nat)
    requires Typed(params, args) && i < n <= |params| && params[i].indexed
    requires forall j | 0 <= j < |params| && params[j].indexed :: !Dynamic(params[j].abiType)
    ensures Indexed(params, i) < Indexed(params, n)
    ensures Topics(params, args, n)[Indexed(params, i)] == StaticWord(params[i].abiType, args[i])
    decreases n
  {
    if i < n - 1 { TopicAt(params, args, i, n - 1); }
  }

  lemma {:induction false} HeadAt(params: seq<Param>, args: seq<Value>, i: nat)
    requires Typed(params, args) && i < |params| && !params[i].indexed
    ensures WordFromData(EncodeData(params, args), i - Indexed(params, i)) == Some(Head(params, args, i))
  {
    var rest := HeadsExtend(params, args, i + 1, |params|);
    var before, head, tails := Heads(params, args, i), Head(params, args, i), Tails(params, args, |params|);
    GatherLast(before, head, rest, tails);
    WordFound(before, head, rest + tails, i - Indexed(params, i));
  }

  lemma {:induction false} GatherLast(before: Hex, head: Hex, rest: Hex, tails: Hex)
    ensures ((before + head) + rest) + tails == before + head + (rest + tails)
  {
  }

  lemma {:induction false} TailAt(params: seq<Param>, args: seq<Value>, i: nat)
    requires Typed(params, args) && i < |params| && !params[i].indexed && Dynamic(params[i].abiType)
    requires |EncodeData(params, args)| <= 2 * MAX_SAFE_INTEGER
    ensures DynamicBytes(EncodeData(params, args), Head(params, args, i)) == Some(args[i].digits)
  {
    var rest := TailsAround(params, args, i);
    TailsAreWhole(params, args, i);
    var heads, front, tail := Heads(params, args, |params|), Tails(params, args, i), Tail(args[i]);
    assert HasType(params[i].abiType, args[i]);
    assert EncodeData(params, args) == heads + ((front + tail) + rest);
    assert Head(params, args, i) == Word((|heads| + |front|) / 2);
    TailFound(EncodeData(params, args), heads, front, args[i], rest, |params| - Indexed(params, |params|), TailWords(params, args, i));
  }

  lemma {:induction false} TailsAround(params: seq<Param>, args: seq<Value>, i: nat) returns (rest: Hex)
    requires Typed(params, args) && i < |params| && !params[i].indexed && Dynamic(params[i].abiType)
    ensures Tails(params, args, |params|) == (Tails(params, args, i) + Tail(args[i])) + rest
  {
    rest := TailsExtend(params, args, i + 1, |params|);
  }

  lemma {:induction false} TailFound(data: Hex, heads: Hex, front: Hex, v: Value, rest: Hex, n: nat, m: nat)
    requires (v.BytesValue? || v.TextValue?) && |v.digits| % 2 == 0
    requires |heads| == WORD * n && |front| == WORD * m
    requires data == heads + ((front + Tail(v)) + rest) && |data| <= 2 * MAX_SAFE_INTEGER
    ensures DynamicBytes(data, Word((|heads| + |front|) / 2)) == Some(v.digits)
  {
    HalfOfWords(n, m);
    Gather(heads, front, Tail(v), rest);
    DynamicRoundTrip(heads + front, v, rest, n + m);
  }

  lemma {:induction false} HalfOfWords(n: nat, m: nat)
    ensures (WORD * n + WORD * m) / 2 == 32 * (n + m) && WORD * n + WORD * m == (n + m) * WORD
  {
  }

  lemma {:induction false} Gather(heads: Hex, front: Hex, tail: Hex, rest: Hex)
    ensures heads + ((front + tail) + rest) == (heads + front) + tail + rest
  {
  }

  // ---------------------------------------------------------------- the round trip

  lemma {:induction false} ArgRoundTrips(topic0: Hex, params: seq<Param>, args: seq<Value>, i: nat)
    requires Typed(params, args) && i < |params|
    requires forall j | 0 <= j < |params| && params[j].indexed :: !Dynamic(params[j].abiType)
    requires |Encode(topic0, params, args).data| <= 2 * MAX_SAFE_INTEGER
    ensures ArgAt(params, Encode(topic0, params, args), i) == Some(args[i])
  {
    var log := Encode(topic0, params, args);
    if params[i].indexed { TopicRoundTrips(topic0, params, args, i); } else { DataRoundTrips(params, args, log, i); }
  }

  lemma {:induction false} DataRoundTrips(params: seq<Param>, args: seq<Value>, log: Log, i: nat)
    requires Typed(params, args) && i < |params| && !params[i].indexed
    requires log.data == EncodeData(params, args) && |log.data| <= 2 * MAX_SAFE_INTEGER
    ensures ArgAt(params, log, i) == Some(args[i])
  {
    HeadAt(params, args, i);
    HeadRoundTrips(params, args, i);
    ArgFromWord(params, log, i, Head(params, args, i), args[i]);
  }

  lemma {:induction false} ArgFromWord(params: seq<Param>, log: Log, i: nat, word: Hex, v: Value)
    requires i < |params| && !params[i].indexed && |word| == WORD
    requires WordFromData(log.data, i - Indexed(params, i)) == Some(word) && DecodeWord(params[i].abiType, word, log.data) == v
    ensures ArgAt(params, log, i) == Some(v)
  {
  }

  lemma {:induction false} TopicRoundTrips(topic0: Hex, params: seq<Param>, args: seq<Value>, i: nat)
    requires Typed(params, args) && i < |params| && params[i].indexed
    requires forall j | 0 <= j < |params| && params[j].indexed :: !Dynamic(params[j].abiType)
    ensures ArgAt(params, Encode(topic0, params, args), i) == Some(args[i])
  {
    TopicAt(params, args, i, |params|);
    StaticRoundTrip(params[i].abiType, args[i], []);
    assert Encode(topic0, params, args).topics[1 + Indexed(params, i)] == StaticWord(params[i].abiType, args[i]);
  }

  lemma {:induction false} HeadRoundTrips(params: seq<Param>, args: seq<Value>, i: nat)
    requires Typed(params, args) && i < |params| && !params[i].indexed && |EncodeData(params, args)| <= 2 * MAX_SAFE_INTEGER
    ensures DecodeWord(params[i].abiType, Head(params, args, i), EncodeData(params, args)) == args[i]
  {
    if Dynamic(params[i].abiType) {
      TailAt(params, args, i);
      assert HasType(params[i].abiType, args[i]);
    } else {
      StaticRoundTrip(params[i].abiType, args[i], EncodeData(params, args));
    }
  }

  lemma {:induction false} Snoc<T>(s: seq<T>, n: nat)
    requires 0 < n <= |s|
    ensures s[..n] == s[..n - 1] + [s[n - 1]]
  {
  }

  lemma {:induction false} ArgsTogether(params: seq<Param>, log: Log, args: seq<Value>, n: nat)
    requires n <= |params| == |args| && forall i {:trigger ArgAt(params, log, i)} | 0 <= i < n :: ArgAt(params, log, i) == Some(args[i])
    ensures DecodeArgs(params, log, n) == Decoded(args[..n])
  {
    if n > 0 {
      ArgsTogether(params, log, args, n - 1);
      assert ArgAt(params, log, n - 1) == Some(args[n - 1]);
      Snoc(args, n);
    }
  }

  /** Decoding an encoded event gives its arguments back, for every event whose indexed inputs are
      static, in any order of indexed and data inputs. */
  lemma {:induction false} DecodeInvertsEncode(abis: map<Hex, seq<Param>>, topic0: Hex, args: seq<Value>)
    requires topic0 in abis && Typed(abis[topic0], args)
    requires forall j | 0 <= j < |abis[topic0]| && abis[topic0][j].indexed :: !Dynamic(abis[topic0][j].abiType)
    requires |Encode(topic0, abis[topic0], args).data| <= 2 * MAX_SAFE_INTEGER
    ensures Decode(abis, Encode(topic0, abis[topic0], args)) == Decoded(args)
  {
    var params := abis[topic0];
    var log := Encode(topic0, params, args);
    forall i | 0 <= i < |params| ensures ArgAt(params, log, i) == Some(args[i]) {
      ArgRoundTrips(topic0, params, args, i);
    }
    ArgsTogether(params, log, args, |params|);
    assert args[..|params|] == args;
  }
}
