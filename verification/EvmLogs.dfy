/** The EVM event decoder, src/raw/evmLogs.ts:404-471 and 506-592.  A hex text is the sequence of
    its digits, without the `0x` in front. */
module EvmLogs {
  import opened Wrappers

  type Digit = d: nat | d < 16 witness 0

  type Hex = seq<Digit>

  datatype AbiType = Address | Bool | Bytes | Bytes32 | Int256 | Text | Uint(bits: nat)

  datatype Param = Param(abiType: AbiType, indexed: bool)

  datatype Log = Log(topics: seq<Hex>, data: Hex)

  /** Decoded arguments; `Unreadable` is the null a dynamic value outside the data decodes to.  A
      string is the bytes it was made from. */
  datatype Value =
    | AddressValue(digits: Hex)
    | BoolValue(b: bool)
    | BytesValue(digits: Hex)
    | Bytes32Value(digits: Hex)
    | IntValue(i: int)
    | TextValue(digits: Hex)
    | UintValue(u: nat)
    | Unreadable

  datatype Decoded = Undecoded | Malformed(args: seq<Value>) | Decoded(args: seq<Value>)

  const WORD: nat := 64
  const MAX_SAFE_INTEGER: int := 9007199254740991

  // ---------------------------------------------------------------- words

  function Power16(k: nat): nat { if k == 0 then 1 else 16 * Power16(k - 1) }

  /** One past the largest 256-bit number. */
  function Span(): nat { Power16(WORD) }

  function SignBit(): nat { 8 * Power16(WORD - 1) }

  /** `BigInt('0x' + hex)`. */
  function Number(hex: Hex): nat {
    if hex == [] then 0 else 16 * Number(hex[..|hex| - 1]) + hex[|hex| - 1]
  }

  function IntFromWord(word: Hex): int {
    if Number(word) < SignBit() then Number(word) else Number(word) - Span()
  }

  /** `slice(from, from + length)`, which stops at the end of the text. */
  function Slice(hex: Hex, from: nat, length: nat): (s: Hex)
    ensures |s| <= length
  {
    if from > |hex| then [] else if from + length > |hex| then hex[from..] else hex[from..from + length]
  }

  function WordFromData(data: Hex, index: nat): Option<Hex> {
    var word := Slice(data, index * WORD, WORD);
    if |word| == WORD then Some(word) else None
  }

  /** The bytes a dynamic value's offset word points at. */
  function DynamicBytes(data: Hex, offsetWord: Hex): Option<Hex> {
    var offset := Number(offsetWord);
    if offset > MAX_SAFE_INTEGER || offset % 32 != 0 then None
    else
      var lengthWord := WordFromData(data, offset / 32);
      if lengthWord.None? || Number(lengthWord.value) > MAX_SAFE_INTEGER then None
      else
        var length := 2 * Number(lengthWord.value);
        var bytes := Slice(data, (offset / 32 + 1) * WORD, length);
        if |bytes| != length then None else Some(bytes)
  }

  function DecodeWord(abiType: AbiType, word: Hex, data: Hex): Value
    requires |word| == WORD
  {
    match abiType
    case Address => AddressValue(word[24..])
    case Bool => BoolValue(Number(word) != 0)
    case Bytes => if DynamicBytes(data, word).Some? then BytesValue(DynamicBytes(data, word).value) else Unreadable
    case Bytes32 => Bytes32Value(word)
    case Int256 => IntValue(IntFromWord(word))
    case Text => if DynamicBytes(data, word).Some? then TextValue(DynamicBytes(data, word).value) else Unreadable
    case Uint(_) => UintValue(Number(word))
  }

  // ---------------------------------------------------------------- one log

  /** How many of the first `n` parameters are indexed. */
  function Indexed(params: seq<Param>, n: nat): (k: nat)
    requires n <= |params|
    ensures k <= n
  {
    if n == 0 then 0 else Indexed(params, n - 1) + if params[n - 1].indexed then 1 else 0
  }

  /** Parameter `i`'s value, `None` where its topic or data word is missing. */
  function ArgAt(params: seq<Param>, log: Log, i: nat): Option<Value>
    requires i < |params|
  {
    if params[i].indexed then
      var topic := 1 + Indexed(params, i);
      if topic < |log.topics| && |log.topics[topic]| == WORD then Some(DecodeWord(params[i].abiType, log.topics[topic], [])) else None
    else
      var word := WordFromData(log.data, i - Indexed(params, i));
      if word.Some? then Some(DecodeWord(params[i].abiType, word.value, log.data)) else None
  }

  /** The first `n` parameters: all their values, or those before the first missing one. */
  function DecodeArgs(params: seq<Param>, log: Log, n: nat): Decoded
    requires n <= |params|
  {
    if n == 0 then Decoded([])
    else
      var front := DecodeArgs(params, log, n - 1);
      if !front.Decoded? then front
      else
        var arg := ArgAt(params, log, n - 1);
        if arg.Some? then Decoded(front.args + [arg.value]) else Malformed(front.args)
  }

  /** `abis` is the table of configured events by the hash of their signature. */
  function Decode(abis: map<Hex, seq<Param>>, log: Log): Decoded {
    if log.topics == [] || log.topics[0] !in abis then Undecoded
    else
      var params := abis[log.topics[0]];
      if |log.topics| - 1 < Indexed(params, |params|) then Malformed([]) else DecodeArgs(params, log, |params|)
  }

  method DecodeEvmLog(abis: map<Hex, seq<Param>>, log: Log) returns (decoded: Decoded)
    ensures decoded == Decode(abis, log)
  {
    if |log.topics| == 0 || log.topics[0] !in abis {
      return Undecoded;
    }
    var params := abis[log.topics[0]];
    if |log.topics| - 1 < Indexed(params, |params|) {
      return Malformed([]);
    }
    var args: seq<Value> := [];
    var topicIndex, dataIndex := 1, 0;
    for i := 0 to |params|
      invariant DecodeArgs(params, log, i) == Decoded(args)
      invariant topicIndex == 1 + Indexed(params, i) && dataIndex == i - Indexed(params, i)
    {
      var data := [];
      var word: Option<Hex> := None;
      if params[i].indexed {
        if topicIndex < |log.topics| && |log.topics[topicIndex]| == WORD {
          word := Some(log.topics[topicIndex]);
        }
        topicIndex := topicIndex + 1;
      } else {
        word := WordFromData(log.data, dataIndex);
        data := log.data;
        dataIndex := dataIndex + 1;
      }
      if word.None? {
        MissingStops(params, log, i + 1, |params|);
        return Malformed(args);
      }
      args := args + [DecodeWord(params[i].abiType, word.value, data)];
    }
    decoded := Decoded(args);
  }

  lemma {:induction false} MissingStops(params: seq<Param>, log: Log, n: nat, m: nat)
    requires n <= m <= |params| && !DecodeArgs(params, log, n).Decoded?
    ensures DecodeArgs(params, log, m) == DecodeArgs(params, log, n)
    decreases m
  {
    if n < m { MissingStops(params, log, n, m - 1); }
  }

  // ---------------------------------------------------------------- when a log is malformed

  /** Every indexed parameter has a word-sized topic, and the data holds every head word. */
  ghost predicate WellFormed(params: seq<Param>, log: Log) {
    && |log.topics| >= 1 + Indexed(params, |params|)
    && (forall t | 1 <= t <= Indexed(params, |params|) :: |log.topics[t]| == WORD)
    && |log.data| >= WORD * (|params| - Indexed(params, |params|))
  }

  lemma WordPresentIff(data: Hex, index: nat)
    ensures WordFromData(data, index).Some? <==> |data| >= WORD * (index + 1)
  {
  }

  lemma {:induction false} DecodedIff(params: seq<Param>, log: Log, n: nat)
    requires n <= |params|
    ensures DecodeArgs(params, log, n).Decoded?
       <==> && |log.topics| >= 1 + Indexed(params, n)
            && (forall t | 1 <= t <= Indexed(params, n) :: |log.topics[t]| == WORD)
            && |log.data| >= WORD * (n - Indexed(params, n))
    requires |log.topics| >= 1
    ensures DecodeArgs(params, log, n).Decoded? ==> |DecodeArgs(params, log, n).args| == n
  {
    if n > 0 {
      DecodedIff(params, log, n - 1);
      if !params[n - 1].indexed { WordPresentIff(log.data, n - 1 - Indexed(params, n - 1)); }
    }
  }

  /** A log of a configured event decodes exactly when no indexed topic and no head word is
      missing; otherwise it is malformed. */
  lemma MalformedIff(abis: map<Hex, seq<Param>>, log: Log)
    requires log.topics != [] && log.topics[0] in abis
    ensures Decode(abis, log).Decoded? <==> WellFormed(abis[log.topics[0]], log)
    ensures Decode(abis, log).Malformed? <==> !WellFormed(abis[log.topics[0]], log)
  {
    var params := abis[log.topics[0]];
    DecodedIff(params, log, |params|);
    DecodeIsNeverUndecoded(params, log, |params|);
  }

  lemma {:induction false} DecodeIsNeverUndecoded(params: seq<Param>, log: Log, n: nat)
    requires n <= |params|
    ensures !DecodeArgs(params, log, n).Undecoded?
  {
    if n > 0 { DecodeIsNeverUndecoded(params, log, n - 1); }
  }

  /** A log is left undecoded exactly when it has no topic or its first names no configured event. */
  lemma UndecodedIff(abis: map<Hex, seq<Param>>, log: Log)
    ensures Decode(abis, log).Undecoded? <==> log.topics == [] || log.topics[0] !in abis
  {
    if log.topics != [] && log.topics[0] in abis { DecodeIsNeverUndecoded(abis[log.topics[0]], log, |abis[log.topics[0]]|); }
  }

  // ---------------------------------------------------------------- the arguments of a malformed log

  lemma {:induction false} CutIndexed(params: seq<Param>, n: nat, i: nat)
    requires i <= n <= |params|
    ensures Indexed(params[..n], i) == Indexed(params, i)
  {
    if i > 0 { CutIndexed(params, n, i - 1); }
  }

  /** Later inputs do not matter to earlier arguments. */
  lemma {:induction false} CutDecodes(params: seq<Param>, log: Log, n: nat, i: nat)
    requires i <= n <= |params|
    ensures DecodeArgs(params[..n], log, i) == DecodeArgs(params, log, i)
  {
    if i > 0 {
      CutDecodes(params, log, n, i - 1);
      CutArg(params, log, n, i - 1);
    }
  }

  lemma CutArg(params: seq<Param>, log: Log, n: nat, i: nat)
    requires i < n <= |params|
    ensures ArgAt(params[..n], log, i) == ArgAt(params, log, i)
  {
    CutIndexed(params, n, i);
  }

  lemma {:induction false} FirstMissing(params: seq<Param>, log: Log, m: nat) returns (n: nat)
    requires m <= |params| && DecodeArgs(params, log, m).Malformed?
    ensures n < m && DecodeArgs(params, log, n) == Decoded(DecodeArgs(params, log, m).args) && DecodeArgs(params, log, n + 1).Malformed?
  {
    if DecodeArgs(params, log, m - 1).Malformed? { n := FirstMissing(params, log, m - 1); }
    else {
      DecodeIsNeverUndecoded(params, log, m - 1);
      n := m - 1;
    }
  }

  /** What a malformed log still shows: nothing when topics are lacking, otherwise exactly what it
      would decode to were its event cut before the first input whose word is missing. */
  lemma MalformedArgs(abis: map<Hex, seq<Param>>, log: Log) returns (n: nat)
    requires Decode(abis, log).Malformed?
    ensures var params := abis[log.topics[0]];
            if |log.topics| - 1 < Indexed(params, |params|) then Decode(abis, log).args == []
            else n < |params| && WellFormed(params[..n], log) && !WellFormed(params[..n + 1], log)
                 && Decode(abis[log.topics[0] := params[..n]], log) == Decoded(Decode(abis, log).args)
  {
    var params := abis[log.topics[0]];
    n := 0;
    if |log.topics| - 1 >= Indexed(params, |params|) {
      n := FirstMissing(params, log, |params|);
      CutDecodes(params, log, n, n);
      CutDecodes(params, log, n + 1, n + 1);
      DecodedIff(params[..n], log, n);
      DecodedIff(params[..n + 1], log, n + 1);
    }
  }

  // ---------------------------------------------------------------- dynamic values and flags

  /** The data holds a length word at digit `at` and behind it two digits for every byte. */
  ghost predicate HoldsBytes(data: Hex, at: nat) {
    && at + 64 <= |data| && Number(data[at..at + 64]) <= 9_007_199_254_740_991
    && at + 64 + 2 * Number(data[at..at + 64]) <= |data|
  }

  ghost function BytesAt(data: Hex, at: nat): Option<Hex> {
    if HoldsBytes(data, at) then Some(data[at + 64..at + 64 + 2 * Number(data[at..at + 64])]) else None
  }

  /** A dynamic value is found exactly when its offset word is a whole number of words and a safe
      integer, and the data holds a length, a safe integer too, and the bytes at that offset. */
  lemma DynamicIff(data: Hex, offsetWord: Hex)
    ensures var offset := Number(offsetWord);
            DynamicBytes(data, offsetWord)
            == if offset % 32 == 0 && offset <= 9_007_199_254_740_991 then BytesAt(data, 2 * offset) else None
  {
    var offset := Number(offsetWord);
    if offset % 32 == 0 {
      var k: nat := offset / 32;
      assert offset == 32 * k;
      DynamicAt(data, offsetWord, k);
      assert 2 * offset == 64 * k;
    }
  }

  lemma DynamicAt(data: Hex, offsetWord: Hex, k: nat)
    requires Number(offsetWord) == 32 * k
    ensures DynamicBytes(data, offsetWord) == if 32 * k <= 9_007_199_254_740_991 then BytesAt(data, 64 * k) else None
  {
    LengthWordAt(data, k);
    assert 32 * k / 32 == k && 32 * k % 32 == 0;
    if HoldsBytes(data, 64 * k) {
      var length := 2 * Number(data[64 * k..64 * k + 64]);
      assert Slice(data, (k + 1) * WORD, length) == data[64 * k + 64..64 * k + 64 + length];
    }
  }

  lemma LengthWordAt(data: Hex, k: nat)
    ensures WordFromData(data, k) == if 64 * k + 64 <= |data| then Some(data[64 * k..64 * k + 64]) else None
  {
    assert k * WORD == 64 * k;
  }

  lemma {:induction false} NumberIsZeroIff(hex: Hex)
    ensures Number(hex) == 0 <==> forall i | 0 <= i < |hex| :: hex[i] == 0
  {
    if hex != [] {
      NumberIsZeroIff(hex[..|hex| - 1]);
      assert hex == hex[..|hex| - 1] + [hex[|hex| - 1]];
    }
  }

  /** Any digit of a flag's word may set it; of an address only the last forty digits count. */
  lemma LooseWords(word: Hex, data: Hex)
    requires |word| == WORD
    ensures DecodeWord(Bool, word, data) == BoolValue(exists i :: 0 <= i < 64 && word[i] != 0)
    ensures DecodeWord(Address, word, data) == AddressValue(word[|word| - 40..])
  {
    NumberIsZeroIff(word);
  }
}
