/** utils/txutils.rs: the raw transaction parser, and the wire format it inverts. */
module TxParser {
  import opened Bytes
  import opened Results
  import opened Structs

  type Sha = seq<byte> -> Digest

  datatype Utxo = Utxo(hash: seq<byte>, index: u32)
  datatype TxInput = TxInput(utxo: Utxo, sequence: u32)
  datatype TxOutput = TxOutput(value: u64, script: seq<byte>)
  datatype BitcoinTransaction = BitcoinTransaction(
    version: u32,
    txIn: seq<TxInput>,
    txOut: seq<TxOutput>,
    locktime: u32,
    hash: Digest,
    hasWitness: bool)

  // ---------------------------------------------------------------- little-endian numbers and slices

  function LeVal(s: seq<byte>): nat {
    if s == [] then 0 else s[0] + 256 * LeVal(s[1..])
  }

  function LeEnc(v: nat, n: nat): (s: seq<byte>)
    ensures |s| == n
  {
    if n == 0 then [] else [v % 256] + LeEnc(v / 256, n - 1)
  }

  lemma {:induction false} LeRoundTrip(v: nat, n: nat)
    requires v < Pow(n)
    ensures LeVal(LeEnc(v, n)) == v
  {
    if n > 0 {
      LeRoundTrip(v / 256, n - 1);
    }
  }

  /** The i-th byte has weight 256 to the i. */
  lemma {:induction false} LittleEndian(s: seq<byte>, i: nat)
    requires i < |s|
    ensures LeVal(s) / Pow(i) % 256 == s[i]
  {
    if i > 0 {
      LittleEndian(s[1..], i - 1);
      DivDiv(LeVal(s), 256, Pow(i - 1));
      assert LeVal(s) / 256 == LeVal(s[1..]);
    }
  }

  lemma {:induction false} LeBound(s: seq<byte>)
    ensures LeVal(s) < Pow(|s|)
  {
    if s != [] {
      LeBound(s[1..]);
    }
  }

  /** data[offset..offset + n], panicking when it is out of bounds. */
  function Slice(data: seq<byte>, offset: nat, n: nat): (r: Result<seq<byte>>)
    ensures r.Ok? ==> |r.value| == n
  {
    if offset + n <= |data| then Ok(data[offset..offset + n]) else Err(Panic)
  }

  /** The n-byte little-endian number at an offset. */
  function Number(data: seq<byte>, offset: nat, n: nat): (r: Result<nat>)
    ensures r.Ok? ==> r.value < Pow(n) && offset + n <= |data|
  {
    var bytes :- Slice(data, offset, n);
    LeBound(bytes);
    Ok(LeVal(bytes))
  }

  lemma WordPowers()
    ensures Pow(2) == 0x1_0000 && Pow(4) == 0x1_0000_0000 && Pow(8) == 0x1_0000_0000_0000_0000
  {
    PowAdd(4, 4);
  }

  function U32At(data: seq<byte>, offset: nat): (r: Result<u32>)
    ensures r.Ok? ==> offset + 4 <= |data|
  {
    var v :- Number(data, offset, 4);
    WordPowers();
    Ok(v)
  }

  function U64At(data: seq<byte>, offset: nat): (r: Result<u64>)
    ensures r.Ok? ==> offset + 8 <= |data|
  {
    var v :- Number(data, offset, 8);
    WordPowers();
    Ok(v)
  }

  // ---------------------------------------------------------------- the parser, as functions

  datatype VarInt = VarInt(value: u64, size: nat)

  function ReadVarInt(data: seq<byte>, start: nat): (r: Result<VarInt>)
    ensures r.Ok? ==> start + r.value.size <= |data| && r.value.size > 0
  {
    if start >= |data| then Err(Panic)
    else if data[start] <= 0xFC then Ok(VarInt(data[start], 1))
    else
      WordPowers();
      if data[start] == 0xFD then
        var v :- Number(data, start + 1, 2);
        Ok(VarInt(v, 3))
      else if data[start] == 0xFE then
        var v :- Number(data, start + 1, 4);
        Ok(VarInt(v, 5))
      else
        var v :- Number(data, start + 1, 8);
        Ok(VarInt(v, 9))
  }

  /** One byte up to 252; else 253, 254 or 255 and the number in the next two, four or eight, whatever it is. */
  lemma VarIntExactly(data: seq<byte>, start: nat)
    ensures var more := if start >= |data| || data[start] < 253 then 0
                        else if data[start] == 253 then 2 else if data[start] == 254 then 4 else 8;
            ReadVarInt(data, start) == if start + 1 + more > |data| then Err(Panic)
                                       else if more == 0 then Ok(VarInt(data[start], 1))
                                       else Ok(VarInt(VarIntValue(data, start, more), 1 + more))
  {
    hide LeVal;
  }

  function VarIntValue(data: seq<byte>, start: nat, more: nat): u64
    requires start + 1 + more <= |data| && more <= 8
  {
    LeBound(data[start + 1..start + 1 + more]);
    PowMono(more, 8);
    WordPowers();
    LeVal(data[start + 1..start + 1 + more])
  }

  datatype Inputs = Inputs(list: seq<TxInput>, emptyScripts: nat, offset: nat)
  datatype Outputs = Outputs(list: seq<TxOutput>, offset: nat)

  /** The input loop with count rounds to go. */
  function ParseInputs(data: seq<byte>, count: nat, done: Inputs): Result<Inputs> {
    if count == 0 then Ok(done) else
      var hash :- Slice(data, done.offset, 32);
      var index :- U32At(data, done.offset + 32);
      var script :- ReadVarInt(data, done.offset + 36);
      var next := done.offset + 36 + script.value + script.size;
      var sequence :- U32At(data, next);
      ParseInputs(data, count - 1, Inputs(done.list + [TxInput(Utxo(hash, index), sequence)],
                                          done.emptyScripts + (if script.value == 0 then 1 else 0), next + 4))
  }

  /** The output loop. */
  function ParseOutputs(data: seq<byte>, count: nat, done: Outputs): Result<Outputs> {
    if count == 0 then Ok(done) else
      var value :- U64At(data, done.offset);
      var size :- ReadVarInt(data, done.offset + 8);
      var start := done.offset + 8 + size.size;
      var script :- Slice(data, start, size.value);
      ParseOutputs(data, count - 1, Outputs(done.list + [TxOutput(value, script)], start + size.value))
  }

  /** Skipping the items of one witness stack. */
  function SkipItems(data: seq<byte>, count: nat, offset: nat): Result<nat> {
    if count == 0 then Ok(offset) else
      var size :- ReadVarInt(data, offset);
      SkipItems(data, count - 1, offset + size.size + size.value)
  }

  /** Skipping witness stacks. */
  function SkipStacks(data: seq<byte>, count: nat, offset: nat): Result<nat>
    decreases count
  {
    if count == 0 then Ok(offset) else
      var items :- ReadVarInt(data, offset);
      var next :- SkipItems(data, items.value, offset + items.size);
      SkipStacks(data, count - 1, next)
  }

  datatype Parsed = Parsed(tx: BitcoinTransaction, consumed: nat)

  function ParseTransaction(sha: Sha, data: seq<byte>): Result<Parsed> {
    var version :- U32At(data, 0);
    if |data| <= 4 then Err(Panic) else
    var flag := data[4];
    var start := if version > 1 && flag == 0 then 6 else 4;
    var inputCount :- ReadVarInt(data, start);
    var inputs :- ParseInputs(data, inputCount.value, Inputs([], 0, start + inputCount.size));
    var outputCount :- ReadVarInt(data, inputs.offset);
    var outputs :- ParseOutputs(data, outputCount.value, Outputs([], inputs.offset + outputCount.size));
    var tail :- if flag == 0 then SkipStacks(data, inputs.emptyScripts, outputs.offset) else Ok(outputs.offset);
    var locktime :- U32At(data, tail);
    if flag == 0 && outputs.offset < 6 then Err(Panic) else
    var hashed := if flag == 0 then data[..4] + data[6..outputs.offset] + data[tail..] else data;
    Ok(Parsed(BitcoinTransaction(version, inputs.list, outputs.list, locktime, sha(hashed), flag == 0), tail + 4))
  }

  // ---------------------------------------------------------------- the parser, with its cursor

  /** parse_transaction: one cursor moved through nested loops. `consumed` is where it stops. */
  method Parse(sha: Sha, data: seq<byte>) returns (r: Result<BitcoinTransaction>, consumed: nat)
    ensures r.Ok? ==> ParseTransaction(sha, data) == Ok(Parsed(r.value, consumed))
    ensures r.Err? ==> ParseTransaction(sha, data) == Err(r.error)
  {
    hide U32At, ReadVarInt, ParseInputs, ParseOutputs;
    consumed := 0;
    var version :- U32At(data, 0);
    if |data| <= 4 {
      return Err(Panic), 0;
    }
    var flag := data[4];
    var offset := 4;
    if version > 1 && flag == 0 {
      offset := 6;
    }
    var inputCount :- ReadVarInt(data, offset);
    offset := offset + inputCount.size;

    var inputs :- ReadInputs(data, inputCount.value, offset);
    offset := inputs.offset;

    var outputCount :- ReadVarInt(data, offset);
    offset := offset + outputCount.size;
    var outputs :- ReadOutputs(data, outputCount.value, offset);
    offset := outputs.offset;

    var witnessStart := offset;
    if flag == 0 {
      offset :- SkipWitnesses(data, inputs.emptyScripts, offset);
    }
    var locktime :- U32At(data, offset);
    offset := offset + 4;
    var hashed := data;
    if flag == 0 {
      if witnessStart < 6 {
        return Err(Panic), 0;
      }
      hashed := data[..4] + data[6..witnessStart] + data[offset - 4..];
    }
    return Ok(BitcoinTransaction(version, inputs.list, outputs.list, locktime, sha(hashed), flag == 0)), offset;
  }

  /** The input loop. */
  method ReadInputs(data: seq<byte>, count: nat, start: nat) returns (r: Result<Inputs>)
    ensures r == ParseInputs(data, count, Inputs([], 0, start))
  {
    hide Slice, U32At, ReadVarInt;
    var offset, witnessInputCount, inputs := start, 0, [];
    for i := 0 to count
      invariant 0 <= witnessInputCount && 0 <= offset
      invariant ParseInputs(data, count, Inputs([], 0, start))
             == ParseInputs(data, count - i, Inputs(inputs, witnessInputCount, offset))
    {
      var prevTxHash :- Slice(data, offset, 32);
      offset := offset + 32;
      var utxoIndex :- U32At(data, offset);
      offset := offset + 4;
      var script :- ReadVarInt(data, offset);
      if script.value == 0 {
        witnessInputCount := witnessInputCount + 1;
      }
      offset := offset + script.value + script.size;
      var sequence :- U32At(data, offset);
      offset := offset + 4;
      inputs := inputs + [TxInput(Utxo(prevTxHash, utxoIndex), sequence)];
    }
    r := Ok(Inputs(inputs, witnessInputCount, offset));
  }

  /** The output loop. */
  method ReadOutputs(data: seq<byte>, count: nat, start: nat) returns (r: Result<Outputs>)
    ensures r == ParseOutputs(data, count, Outputs([], start))
  {
    hide Slice, U64At, ReadVarInt;
    var offset, outputs := start, [];
    for i := 0 to count
      invariant 0 <= offset
      invariant ParseOutputs(data, count, Outputs([], start)) == ParseOutputs(data, count - i, Outputs(outputs, offset))
    {
      var value :- U64At(data, offset);
      offset := offset + 8;
      var size :- ReadVarInt(data, offset);
      offset := offset + size.size;
      var script :- Slice(data, offset, size.value);
      offset := offset + size.value;
      outputs := outputs + [TxOutput(value, script)];
    }
    r := Ok(Outputs(outputs, offset));
  }

  /** The nested witness loops. */
  method SkipWitnesses(data: seq<byte>, count: nat, start: nat) returns (r: Result<nat>)
    ensures r == SkipStacks(data, count, start)
  {
    var offset := start;
    for i := 0 to count
      invariant 0 <= offset
      invariant SkipStacks(data, count, start) == SkipStacks(data, count - i, offset)
    {
      var items :- ReadVarInt(data, offset);
      offset :- SkipStack(data, items.value, offset + items.size);
    }
    r := Ok(offset);
  }

  method SkipStack(data: seq<byte>, count: nat, start: nat) returns (r: Result<nat>)
    ensures r == SkipItems(data, count, start)
  {
    var offset := start;
    for j := 0 to count
      invariant 0 <= offset
      invariant SkipItems(data, count, start) == SkipItems(data, count - j, offset)
    {
      var size :- ReadVarInt(data, offset);
      offset := offset + size.size;
      offset := offset + size.value;
    }
    r := Ok(offset);
  }

  // ---------------------------------------------------------------- the wire format

  datatype Input = Input(hash: seq<byte>, index: u32, script: seq<byte>, sequence: u32)

  /** A transaction as the sender writes it, with one witness stack per input. */
  datatype Transaction = Transaction(
    version: u32,
    inputs: seq<Input>,
    outputs: seq<TxOutput>,
    stacks: seq<seq<seq<byte>>>,
    locktime: u32)

  /** What the field widths and the 64-bit length prefixes can express. */
  ghost predicate Encodable(t: Transaction) {
    && |t.inputs| <= U64_MAX && |t.outputs| <= U64_MAX && |t.stacks| == |t.inputs|
    && (forall i :: 0 <= i < |t.inputs| ==> |t.inputs[i].hash| == 32 && |t.inputs[i].script| <= U64_MAX)
    && (forall i :: 0 <= i < |t.outputs| ==> |t.outputs[i].script| <= U64_MAX)
    && (forall i :: 0 <= i < |t.stacks| ==> StackEncodable(t.stacks[i]))
  }

  ghost predicate StackEncodable(stack: seq<seq<byte>>) {
    |stack| <= U64_MAX && forall j :: 0 <= j < |stack| ==> |stack[j]| <= U64_MAX
  }

  ghost function EncVarInt(n: nat): seq<byte>
    requires n <= U64_MAX
  {
    if n <= 0xFC then [n]
    else if n <= 0xFFFF then [0xFD] + LeEnc(n, 2)
    else if n <= 0xFFFF_FFFF then [0xFE] + LeEnc(n, 4)
    else [0xFF] + LeEnc(n, 8)
  }

  ghost function EncBytes(s: seq<byte>): seq<byte>
    requires |s| <= U64_MAX
  {
    EncVarInt(|s|) + s
  }

  ghost function EncInputs(inputs: seq<Input>): seq<byte>
    requires forall i :: 0 <= i < |inputs| ==> |inputs[i].hash| == 32 && |inputs[i].script| <= U64_MAX
  {
    if inputs == [] then [] else
      var i := inputs[0];
      (i.hash + (LeEnc(i.index, 4) + (EncBytes(i.script) + LeEnc(i.sequence, 4)))) + EncInputs(inputs[1..])
  }

  ghost function EncOutputs(outputs: seq<TxOutput>): seq<byte>
    requires forall i :: 0 <= i < |outputs| ==> |outputs[i].script| <= U64_MAX
  {
    if outputs == [] then [] else
      (LeEnc(outputs[0].value, 8) + EncBytes(outputs[0].script)) + EncOutputs(outputs[1..])
  }

  ghost function EncItems(stack: seq<seq<byte>>): seq<byte>
    requires forall j :: 0 <= j < |stack| ==> |stack[j]| <= U64_MAX
  {
    if stack == [] then [] else EncBytes(stack[0]) + EncItems(stack[1..])
  }

  ghost function EncStacks(stacks: seq<seq<seq<byte>>>): seq<byte>
    requires forall i :: 0 <= i < |stacks| ==> StackEncodable(stacks[i])
  {
    if stacks == [] then [] else
      assert StackEncodable(stacks[0]);
      (EncVarInt(|stacks[0]|) + EncItems(stacks[0])) + EncStacks(stacks[1..])
  }

  /** Inputs and outputs with their counts: the part both forms share. */
  ghost function EncBody(t: Transaction): seq<byte>
    requires Encodable(t)
  {
    EncVarInt(|t.inputs|) + (EncInputs(t.inputs) + (EncVarInt(|t.outputs|) + EncOutputs(t.outputs)))
  }

  ghost function Legacy(t: Transaction): seq<byte>
    requires Encodable(t)
  {
    LeEnc(t.version, 4) + (EncBody(t) + LeEnc(t.locktime, 4))
  }

  /** The form of BIP 144, section "Serialization": marker 0, flag 1, and the witness before the lock time. */
  ghost function Segwit(t: Transaction): seq<byte>
    requires Encodable(t)
  {
    LeEnc(t.version, 4) + ([0, 1] + (EncBody(t) + (EncStacks(t.stacks) + LeEnc(t.locktime, 4))))
  }

  // ---------------------------------------------------------------- the parser inverts it

  /** s stands in data at an offset. */
  ghost predicate At(data: seq<byte>, offset: nat, s: seq<byte>) {
    offset + |s| <= |data| && data[offset..offset + |s|] == s
  }

  lemma AtParts(data: seq<byte>, offset: nat, a: seq<byte>, b: seq<byte>)
    requires At(data, offset, a + b)
    ensures At(data, offset, a) && At(data, offset + |a|, b)
  {
    var whole := data[offset..offset + |a + b|];
    assert data[offset..offset + |a|] == whole[..|a|] && data[offset + |a|..offset + |a| + |b|] == whole[|a|..];
  }

  lemma ReadNumber(data: seq<byte>, offset: nat, v: nat, n: nat)
    requires At(data, offset, LeEnc(v, n)) && v < Pow(n)
    ensures Number(data, offset, n) == Ok(v)
  {
    LeRoundTrip(v, n);
  }

  lemma ReadEncodedVarInt(data: seq<byte>, offset: nat, n: nat)
    requires n <= U64_MAX && At(data, offset, EncVarInt(n))
    ensures ReadVarInt(data, offset) == Ok(VarInt(n, |EncVarInt(n)|))
  {
    WordPowers();
    assert data[offset] == data[offset..offset + |EncVarInt(n)|][0];
    if n > 0xFC {
      var size := if n <= 0xFFFF then 2 else if n <= 0xFFFF_FFFF then 4 else 8;
      AtParts(data, offset, [EncVarInt(n)[0]], LeEnc(n, size));
      ReadNumber(data, offset + 1, n, size);
    }
  }

  ghost function ParsedInput(i: Input): TxInput { TxInput(Utxo(i.hash, i.index), i.sequence) }

  ghost function ParsedInputs(inputs: seq<Input>): seq<TxInput> {
    if inputs == [] then [] else [ParsedInput(inputs[0])] + ParsedInputs(inputs[1..])
  }

  ghost function EmptyScripts(inputs: seq<Input>): nat {
    if inputs == [] then 0 else (if inputs[0].script == [] then 1 else 0) + EmptyScripts(inputs[1..])
  }

  lemma ReadInput(data: seq<byte>, offset: nat, i: Input)
    requires |i.hash| == 32 && |i.script| <= U64_MAX
    requires At(data, offset, i.hash + (LeEnc(i.index, 4) + (EncBytes(i.script) + LeEnc(i.sequence, 4))))
    ensures Slice(data, offset, 32) == Ok(i.hash) && U32At(data, offset + 32) == Ok(i.index)
    ensures ReadVarInt(data, offset + 36) == Ok(VarInt(|i.script|, |EncVarInt(|i.script|)|))
    ensures U32At(data, offset + 36 + |EncBytes(i.script)|) == Ok(i.sequence)
  {
    WordPowers();
    AtParts(data, offset, i.hash, LeEnc(i.index, 4) + (EncBytes(i.script) + LeEnc(i.sequence, 4)));
    AtParts(data, offset + 32, LeEnc(i.index, 4), EncBytes(i.script) + LeEnc(i.sequence, 4));
    AtParts(data, offset + 36, EncBytes(i.script), LeEnc(i.sequence, 4));
    AtParts(data, offset + 36, EncVarInt(|i.script|), i.script);
    ReadNumber(data, offset + 32, i.index, 4);
    ReadEncodedVarInt(data, offset + 36, |i.script|);
    ReadNumber(data, offset + 36 + |EncBytes(i.script)|, i.sequence, 4);
  }

  lemma {:induction false} ParsesInputs(data: seq<byte>, inputs: seq<Input>, done: Inputs)
    requires forall i :: 0 <= i < |inputs| ==> |inputs[i].hash| == 32 && |inputs[i].script| <= U64_MAX
    requires At(data, done.offset, EncInputs(inputs))
    ensures ParseInputs(data, |inputs|, done)
            == Ok(Inputs(done.list + ParsedInputs(inputs), done.emptyScripts + EmptyScripts(inputs),
                         done.offset + |EncInputs(inputs)|))
    decreases |inputs|
  {
    hide At, Slice, U32At, ReadVarInt, EncVarInt, LeEnc;
    if inputs == [] {
      assert done.list + [] == done.list;
    } else {
      var i := inputs[0];
      var first := i.hash + (LeEnc(i.index, 4) + (EncBytes(i.script) + LeEnc(i.sequence, 4)));
      AtParts(data, done.offset, first, EncInputs(inputs[1..]));
      ReadInput(data, done.offset, i);
      var next := Inputs(done.list + [ParsedInput(i)], done.emptyScripts + (if i.script == [] then 1 else 0),
                         done.offset + |first|);
      ParsesInputs(data, inputs[1..], next);
      assert done.list + ([ParsedInput(i)] + ParsedInputs(inputs[1..])) == next.list + ParsedInputs(inputs[1..]);
    }
  }

  lemma ReadOutput(data: seq<byte>, offset: nat, o: TxOutput)
    requires |o.script| <= U64_MAX && At(data, offset, LeEnc(o.value, 8) + EncBytes(o.script))
    ensures U64At(data, offset) == Ok(o.value)
    ensures ReadVarInt(data, offset + 8) == Ok(VarInt(|o.script|, |EncVarInt(|o.script|)|))
    ensures Slice(data, offset + 8 + |EncVarInt(|o.script|)|, |o.script|) == Ok(o.script)
  {
    WordPowers();
    AtParts(data, offset, LeEnc(o.value, 8), EncBytes(o.script));
    AtParts(data, offset + 8, EncVarInt(|o.script|), o.script);
    ReadNumber(data, offset, o.value, 8);
    ReadEncodedVarInt(data, offset + 8, |o.script|);
  }

  lemma {:induction false} ParsesOutputs(data: seq<byte>, outputs: seq<TxOutput>, done: Outputs)
    requires forall i :: 0 <= i < |outputs| ==> |outputs[i].script| <= U64_MAX
    requires At(data, done.offset, EncOutputs(outputs))
    ensures ParseOutputs(data, |outputs|, done) == Ok(Outputs(done.list + outputs, done.offset + |EncOutputs(outputs)|))
    decreases |outputs|
  {
    hide At, Slice, U64At, ReadVarInt, EncVarInt, LeEnc;
    if outputs == [] {
      assert done.list + [] == done.list;
    } else {
      var o := outputs[0];
      var first := LeEnc(o.value, 8) + EncBytes(o.script);
      AtParts(data, done.offset, first, EncOutputs(outputs[1..]));
      ReadOutput(data, done.offset, o);
      var next := Outputs(done.list + [o], done.offset + |first|);
      ParsesOutputs(data, outputs[1..], next);
      assert next.list + outputs[1..] == done.list + outputs;
    }
  }

  lemma {:induction false} SkipsItems(data: seq<byte>, stack: seq<seq<byte>>, offset: nat)
    requires forall j :: 0 <= j < |stack| ==> |stack[j]| <= U64_MAX
    requires At(data, offset, EncItems(stack))
    ensures SkipItems(data, |stack|, offset) == Ok(offset + |EncItems(stack)|)
    decreases |stack|
  {
    hide At, ReadVarInt, EncVarInt;
    if stack != [] {
      AtParts(data, offset, EncBytes(stack[0]), EncItems(stack[1..]));
      AtParts(data, offset, EncVarInt(|stack[0]|), stack[0]);
      ReadEncodedVarInt(data, offset, |stack[0]|);
      SkipsItems(data, stack[1..], offset + |EncBytes(stack[0])|);
    }
  }

  lemma {:induction false} SkipsStacks(data: seq<byte>, stacks: seq<seq<seq<byte>>>, offset: nat)
    requires forall i :: 0 <= i < |stacks| ==> StackEncodable(stacks[i])
    requires At(data, offset, EncStacks(stacks))
    ensures SkipStacks(data, |stacks|, offset) == Ok(offset + |EncStacks(stacks)|)
    decreases |stacks|
  {
    hide At, ReadVarInt, EncVarInt, EncItems, SkipItems;
    if stacks != [] {
      assert StackEncodable(stacks[0]);
      var first := EncVarInt(|stacks[0]|) + EncItems(stacks[0]);
      AtParts(data, offset, first, EncStacks(stacks[1..]));
      AtParts(data, offset, EncVarInt(|stacks[0]|), EncItems(stacks[0]));
      ReadEncodedVarInt(data, offset, |stacks[0]|);
      SkipsItems(data, stacks[0], offset + |EncVarInt(|stacks[0]|)|);
      SkipsStacks(data, stacks[1..], offset + |first|);
    }
  }

  lemma ParsesBody(data: seq<byte>, t: Transaction, start: nat)
    requires Encodable(t) && At(data, start, EncBody(t))
    ensures var ni := VarInt(|t.inputs|, |EncVarInt(|t.inputs|)|);
            var inputsEnd := start + ni.size + |EncInputs(t.inputs)|;
            var no := VarInt(|t.outputs|, |EncVarInt(|t.outputs|)|);
            && ReadVarInt(data, start) == Ok(ni)
            && ParseInputs(data, ni.value, Inputs([], 0, start + ni.size))
               == Ok(Inputs(ParsedInputs(t.inputs), EmptyScripts(t.inputs), inputsEnd))
            && ReadVarInt(data, inputsEnd) == Ok(no)
            && ParseOutputs(data, no.value, Outputs([], inputsEnd + no.size))
               == Ok(Outputs(t.outputs, start + |EncBody(t)|))
  {
    hide At, ReadVarInt, EncVarInt, EncInputs, EncOutputs, ParseInputs, ParseOutputs;
    var ni, no := EncVarInt(|t.inputs|), EncVarInt(|t.outputs|);
    var inputs, outputs := EncInputs(t.inputs), EncOutputs(t.outputs);
    AtParts(data, start, ni, inputs + (no + outputs));
    AtParts(data, start + |ni|, inputs, no + outputs);
    AtParts(data, start + |ni| + |inputs|, no, outputs);
    ReadEncodedVarInt(data, start, |t.inputs|);
    ParsesInputs(data, t.inputs, Inputs([], 0, start + |ni|));
    ReadEncodedVarInt(data, start + |ni| + |inputs|, |t.outputs|);
    ParsesOutputs(data, t.outputs, Outputs([], start + |ni| + |inputs| + |no|));
    assert [] + ParsedInputs(t.inputs) == ParsedInputs(t.inputs) && [] + t.outputs == t.outputs;
  }

  lemma AtAll(data: seq<byte>)
    ensures At(data, 0, data)
  {
    assert data[0..|data|] == data;
  }

  /** Where the segwit marker would stand, the legacy form has the first byte of a non-zero count. */
  lemma FirstByte(data: seq<byte>, t: Transaction)
    requires Encodable(t) && t.inputs != [] && At(data, 4, EncBody(t))
    ensures |data| > 4 && data[4] != 0
  {
    var n := EncVarInt(|t.inputs|);
    AtParts(data, 4, n, EncInputs(t.inputs) + (EncVarInt(|t.outputs|) + EncOutputs(t.outputs)));
    assert data[4] == data[4..4 + |n|][0];
  }

  ghost function Recovered(sha: Sha, t: Transaction, segwit: bool): BitcoinTransaction
    requires Encodable(t)
  {
    BitcoinTransaction(t.version, ParsedInputs(t.inputs), t.outputs, t.locktime, sha(Legacy(t)), segwit)
  }

  /** Legacy form: with at least one input everything is recovered, exactly its bytes are consumed, and all bytes are
      hashed, those that follow included. */
  lemma ParserInvertsLegacy(sha: Sha, t: Transaction, tail: seq<byte>)
    requires Encodable(t) && t.inputs != []
    ensures ParseTransaction(sha, Legacy(t) + tail)
            == Ok(Parsed(Recovered(sha, t, false).(hash := sha(Legacy(t) + tail)), |Legacy(t)|))
  {
    hide Legacy, EncBody, LeEnc, ReadVarInt, ParseInputs, ParseOutputs, Number, EncVarInt, At;
    var data := Legacy(t) + tail;
    WordPowers();
    LegacyParts(t, tail);
    ReadNumber(data, 0, t.version, 4);
    ReadNumber(data, 4 + |EncBody(t)|, t.locktime, 4);
    ParsesBody(data, t, 4);
    FirstByte(data, t);
  }

  lemma LegacyParts(t: Transaction, tail: seq<byte>)
    requires Encodable(t)
    ensures var data := Legacy(t) + tail;
            && At(data, 0, LeEnc(t.version, 4)) && At(data, 4, EncBody(t))
            && At(data, 4 + |EncBody(t)|, LeEnc(t.locktime, 4))
            && |Legacy(t)| == 8 + |EncBody(t)|
  {
    hide EncBody, LeEnc;
    var data, version, body, lock := Legacy(t) + tail, LeEnc(t.version, 4), EncBody(t), LeEnc(t.locktime, 4);
    AtAll(data);
    assert data == version + (body + (lock + tail));
    AtParts(data, 0, version, body + (lock + tail));
    AtParts(data, 4, body, lock + tail);
    AtParts(data, 4 + |body|, lock, tail);
  }

  lemma {:induction false} AllEmpty(inputs: seq<Input>)
    requires forall i :: 0 <= i < |inputs| ==> inputs[i].script == []
    ensures EmptyScripts(inputs) == |inputs|
  {
    if inputs != [] {
      AllEmpty(inputs[1..]);
    }
  }

  /** BIP 144 form, for version 2 and up with every scriptSig empty: the same, and what is hashed is still the legacy
      form and what follows, the witness being left out. */
  lemma ParserInvertsSegwit(sha: Sha, t: Transaction, tail: seq<byte>)
    requires Encodable(t) && t.inputs != [] && t.version >= 2
    requires forall i :: 0 <= i < |t.inputs| ==> t.inputs[i].script == []
    ensures ParseTransaction(sha, Segwit(t) + tail)
            == Ok(Parsed(Recovered(sha, t, true).(hash := sha(Legacy(t) + tail)), |Segwit(t)|))
  {
    hide Segwit, Legacy, EncBody, EncStacks, LeEnc, ReadVarInt;
    hide ParseInputs, ParseOutputs, SkipStacks, Number, EncVarInt, At;
    var data := Segwit(t) + tail;
    WordPowers();
    SegwitParts(t, tail);
    ReadNumber(data, 0, t.version, 4);
    ReadNumber(data, 6 + |EncBody(t)| + |EncStacks(t.stacks)|, t.locktime, 4);
    ParsesBody(data, t, 6);
    AllEmpty(t.inputs);
    SkipsStacks(data, t.stacks, 6 + |EncBody(t)|);
  }

  lemma SegwitParts(t: Transaction, tail: seq<byte>)
    requires Encodable(t)
    ensures var (data, body, stacks) := (Segwit(t) + tail, EncBody(t), EncStacks(t.stacks));
            var end := 6 + |body| + |stacks|;
            && |Segwit(t)| == end + 4 && data[4] == 0
            && At(data, 0, LeEnc(t.version, 4)) && At(data, 6, body)
            && At(data, 6 + |body|, stacks) && At(data, end, LeEnc(t.locktime, 4))
            && data[..4] + data[6..6 + |body|] + data[end..] == Legacy(t) + tail
  {
    hide EncBody, EncStacks, LeEnc;
    var data, version, body := Segwit(t) + tail, LeEnc(t.version, 4), EncBody(t);
    var stacks, lock := EncStacks(t.stacks), LeEnc(t.locktime, 4);
    AtAll(data);
    assert data == version + ([0, 1] + (body + (stacks + (lock + tail))));
    AtParts(data, 0, version, [0, 1] + (body + (stacks + (lock + tail))));
    AtParts(data, 4, [0, 1], body + (stacks + (lock + tail)));
    AtParts(data, 6, body, stacks + (lock + tail));
    AtParts(data, 6 + |body|, stacks, lock + tail);
    AtParts(data, 6 + |body| + |stacks|, lock, tail);
    assert data[4] == data[4..6][0] == 0;
    StripsToLegacy(data, version, body, stacks, lock + tail);
    assert version + (body + (lock + tail)) == Legacy(t) + tail;
  }

  lemma StripsToLegacy(data: seq<byte>, version: seq<byte>, body: seq<byte>, stacks: seq<byte>, lock: seq<byte>)
    requires data == version + ([0, 1] + (body + (stacks + lock))) && |version| == 4
    ensures var tail := 6 + |body| + |stacks|;
            data[..4] + data[6..6 + |body|] + data[tail..] == version + (body + lock)
  {
    assert data == ((version + [0, 1]) + body) + (stacks + lock);
    assert data == (((version + [0, 1]) + body) + stacks) + lock;
  }

  // ---------------------------------------------------------------- and nothing more

  lemma {:induction false} StacksConcat(a: seq<seq<seq<byte>>>, b: seq<seq<seq<byte>>>)
    requires forall i :: 0 <= i < |a| ==> StackEncodable(a[i])
    requires forall i :: 0 <= i < |b| ==> StackEncodable(b[i])
    ensures forall i :: 0 <= i < |a + b| ==> StackEncodable((a + b)[i])
    ensures EncStacks(a + b) == EncStacks(a) + EncStacks(b)
    ensures |EncStacks(b)| >= |b|
    decreases |a|, |b|
  {
    hide EncVarInt, EncItems;
    if a != [] {
      StacksConcat(a[1..], b);
      assert (a + b)[1..] == a[1..] + b && (a + b)[0] == a[0];
      var first := EncVarInt(|a[0]|) + EncItems(a[0]);
      assert (first + EncStacks(a[1..])) + EncStacks(b) == first + (EncStacks(a[1..]) + EncStacks(b));
    } else {
      assert a + b == b;
      if b != [] {
        StacksConcat([], b[1..]);
        VarIntNonEmpty(|b[0]|);
      }
    }
  }

  lemma VarIntNonEmpty(n: nat)
    requires n <= U64_MAX
    ensures |EncVarInt(n)| > 0
  {}

  lemma {:induction false} EmptyScriptsCount(inputs: seq<Input>)
    ensures EmptyScripts(inputs) <= |inputs|
    ensures EmptyScripts(inputs) == |inputs| <==> forall i :: 0 <= i < |inputs| ==> inputs[i].script == []
  {
    if inputs != [] {
      EmptyScriptsCount(inputs[1..]);
      if forall i :: 0 <= i < |inputs[1..]| ==> inputs[1..][i].script == [] {
        assert forall i :: 0 < i < |inputs| ==> inputs[i] == inputs[1..][i - 1];
      }
    }
  }

  /** The segwit form, cut where the parser stops skipping. */
  lemma SkipsTooFew(t: Transaction) returns (end: nat)
    requires Encodable(t) && EmptyScripts(t.inputs) < |t.inputs|
    ensures |Segwit(t)| > 6 && Segwit(t)[4] == 0
    ensures At(Segwit(t), 0, LeEnc(t.version, 4)) && At(Segwit(t), 6, EncBody(t))
    ensures SkipStacks(Segwit(t), EmptyScripts(t.inputs), 6 + |EncBody(t)|) == Ok(end) && end + 4 < |Segwit(t)|
  {
    hide EncBody, EncStacks, LeEnc, SkipStacks, EncVarInt, EmptyScripts;
    var data, version, body := Segwit(t), LeEnc(t.version, 4), EncBody(t);
    var stacks, lock := EncStacks(t.stacks), LeEnc(t.locktime, 4);
    EmptyScriptsCount(t.inputs);
    var k := EmptyScripts(t.inputs);
    var skipped, rest := t.stacks[..k], t.stacks[k..];
    AtAll(data);
    AtParts(data, 0, version, [0, 1] + (body + (stacks + lock)));
    AtParts(data, 4, [0, 1], body + (stacks + lock));
    AtParts(data, 6, body, stacks + lock);
    AtParts(data, 6 + |body|, stacks, lock);
    assert t.stacks == skipped + rest;
    StacksConcat(skipped, rest);
    AtParts(data, 6 + |body|, EncStacks(skipped), EncStacks(rest));
    SkipsStacks(data, skipped, 6 + |body|);
    assert data[4] == data[4..6][0] == 0;
    end := 6 + |body| + |EncStacks(skipped)|;
  }

  /** With a non-empty scriptSig among its inputs, the parser skips too few witness stacks and stops early. */
  lemma MixedScriptsStopEarly(sha: Sha, t: Transaction)
    requires Encodable(t) && t.inputs != [] && t.version >= 2 && EmptyScripts(t.inputs) < |t.inputs|
    ensures var r := ParseTransaction(sha, Segwit(t)); r.Ok? ==> r.value.consumed < |Segwit(t)|
  {
    hide Segwit, EncBody, LeEnc, ReadVarInt, ParseInputs, ParseOutputs, SkipStacks, Number, EncVarInt, At, EmptyScripts;
    WordPowers();
    var end := SkipsTooFew(t);
    ReadNumber(Segwit(t), 0, t.version, 4);
    ParsesBody(Segwit(t), t, 6);
  }

  /** Below version 2 the marker byte is read as an input count of zero. */
  lemma OldVersionLosesInputs(sha: Sha, t: Transaction)
    requires Encodable(t) && t.inputs != [] && t.version < 2
    ensures var r := ParseTransaction(sha, Segwit(t)); r.Ok? ==> r.value.tx.txIn == []
  {
    hide EncBody, EncStacks, LeEnc, ParseOutputs, SkipStacks, Number, EncVarInt;
    var data, version := Segwit(t), LeEnc(t.version, 4);
    var tail := EncBody(t) + (EncStacks(t.stacks) + LeEnc(t.locktime, 4));
    WordPowers();
    AtAll(data);
    AtParts(data, 0, version, [0, 1] + tail);
    AtParts(data, 4, [0, 1], tail);
    ReadNumber(data, 0, t.version, 4);
    assert data[4] == data[4..6][0] == 0;
    assert ReadVarInt(data, 4) == Ok(VarInt(0, 1));
  }

  /** BIP 144 form with at least one input: the parser inverts it exactly for version 2 and up with every scriptSig
      empty. */
  lemma ParserInvertsSegwitExactly(sha: Sha, t: Transaction)
    requires Encodable(t) && t.inputs != []
    ensures ParseTransaction(sha, Segwit(t)) == Ok(Parsed(Recovered(sha, t, true), |Segwit(t)|))
            <==> t.version >= 2 && forall i :: 0 <= i < |t.inputs| ==> t.inputs[i].script == []
  {
    hide ParseTransaction, Segwit, Legacy;
    EmptyScriptsCount(t.inputs);
    if t.version < 2 {
      OldVersionLosesInputs(sha, t);
    } else if EmptyScripts(t.inputs) < |t.inputs| {
      MixedScriptsStopEarly(sha, t);
    } else {
      ParserInvertsSegwit(sha, t, []);
      assert Segwit(t) + [] == Segwit(t) && Legacy(t) + [] == Legacy(t);
    }
  }

  /** Legacy form: inverted exactly when there is an input; without one its count reads as the segwit marker. */
  lemma ParserInvertsLegacyExactly(sha: Sha, t: Transaction)
    requires Encodable(t)
    ensures ParseTransaction(sha, Legacy(t)) == Ok(Parsed(Recovered(sha, t, false), |Legacy(t)|)) <==> t.inputs != []
  {
    hide ParseTransaction, Legacy;
    if t.inputs != [] {
      ParserInvertsLegacy(sha, t, []);
      assert Legacy(t) + [] == Legacy(t);
    } else {
      NoInputsReadAsMarker(sha, t);
    }
  }

  lemma NoInputsReadAsMarker(sha: Sha, t: Transaction)
    requires Encodable(t) && t.inputs == []
    ensures ParseTransaction(sha, Legacy(t)).Ok? ==> ParseTransaction(sha, Legacy(t)).value.tx.hasWitness
  {
    hide Slice, Number, ReadVarInt, ParseInputs, ParseOutputs, SkipStacks, LeEnc, EncOutputs;
    assert Legacy(t)[4] == EncBody(t)[0] == EncVarInt(0)[0] == 0;
  }

  // ---------------------------------------------------------------- cut short

  lemma NumberStable(data: seq<byte>, tail: seq<byte>, offset: nat, n: nat)
    ensures Slice(data, offset, n).Ok? ==> Slice(data + tail, offset, n) == Slice(data, offset, n)
    ensures Number(data, offset, n).Ok? ==> Number(data + tail, offset, n) == Number(data, offset, n)
  {
    if offset + n <= |data| {
      assert (data + tail)[offset..offset + n] == data[offset..offset + n];
    }
  }

  lemma VarIntStable(data: seq<byte>, tail: seq<byte>, start: nat)
    requires ReadVarInt(data, start).Ok?
    ensures ReadVarInt(data + tail, start) == ReadVarInt(data, start)
  {
    hide Number;
    NumberStable(data, tail, start + 1, 2);
    NumberStable(data, tail, start + 1, 4);
    NumberStable(data, tail, start + 1, 8);
  }

  lemma {:induction false} InputsStable(data: seq<byte>, tail: seq<byte>, count: nat, done: Inputs)
    requires ParseInputs(data, count, done).Ok?
    ensures ParseInputs(data + tail, count, done) == ParseInputs(data, count, done)
    decreases count
  {
    hide Slice, Number, ReadVarInt;
    if count > 0 {
      var script := ReadVarInt(data, done.offset + 36).value;
      var next := done.offset + 36 + script.value + script.size;
      NumberStable(data, tail, done.offset, 32);
      NumberStable(data, tail, done.offset + 32, 4);
      VarIntStable(data, tail, done.offset + 36);
      NumberStable(data, tail, next, 4);
      var utxo := Utxo(Slice(data, done.offset, 32).value, U32At(data, done.offset + 32).value);
      var list := done.list + [TxInput(utxo, U32At(data, next).value)];
      var empty := done.emptyScripts + (if script.value == 0 then 1 else 0);
      InputsStable(data, tail, count - 1, Inputs(list, empty, next + 4));
    }
  }

  lemma {:induction false} OutputsStable(data: seq<byte>, tail: seq<byte>, count: nat, done: Outputs)
    requires ParseOutputs(data, count, done).Ok?
    ensures ParseOutputs(data + tail, count, done) == ParseOutputs(data, count, done)
    decreases count
  {
    hide Slice, Number, ReadVarInt;
    if count > 0 {
      var size := ReadVarInt(data, done.offset + 8).value;
      var start := done.offset + 8 + size.size;
      NumberStable(data, tail, done.offset, 8);
      VarIntStable(data, tail, done.offset + 8);
      NumberStable(data, tail, start, size.value);
      var output := TxOutput(U64At(data, done.offset).value, Slice(data, start, size.value).value);
      OutputsStable(data, tail, count - 1, Outputs(done.list + [output], start + size.value));
    }
  }

  lemma {:induction false} ItemsStable(data: seq<byte>, tail: seq<byte>, count: nat, offset: nat)
    requires SkipItems(data, count, offset).Ok?
    ensures SkipItems(data + tail, count, offset) == SkipItems(data, count, offset)
    decreases count
  {
    hide ReadVarInt;
    if count > 0 {
      VarIntStable(data, tail, offset);
      var size := ReadVarInt(data, offset).value;
      ItemsStable(data, tail, count - 1, offset + size.size + size.value);
    }
  }

  lemma {:induction false} StacksStable(data: seq<byte>, tail: seq<byte>, count: nat, offset: nat)
    requires SkipStacks(data, count, offset).Ok?
    ensures SkipStacks(data + tail, count, offset) == SkipStacks(data, count, offset)
    decreases count
  {
    hide ReadVarInt;
    if count > 0 {
      VarIntStable(data, tail, offset);
      var items := ReadVarInt(data, offset).value;
      ItemsStable(data, tail, items.value, offset + items.size);
      StacksStable(data, tail, count - 1, SkipItems(data, items.value, offset + items.size).value);
    }
  }

  /** What parses parses the same with more bytes behind it, but for the hash. */
  lemma ParseStable(sha: Sha, data: seq<byte>, tail: seq<byte>)
    requires ParseTransaction(sha, data).Ok?
    ensures ParseTransaction(sha, data).value.consumed <= |data|
    ensures var (r, r') := (ParseTransaction(sha, data).value, ParseTransaction(sha, data + tail));
            r'.Ok? && r'.value.consumed == r.consumed && r'.value.tx == r.tx.(hash := r'.value.tx.hash)
  {
    hide Slice, Number, ReadVarInt, ParseInputs, ParseOutputs, SkipStacks;
    var flag := data[4];
    var start := if U32At(data, 0).value > 1 && flag == 0 then 6 else 4;
    NumberStable(data, tail, 0, 4);
    VarIntStable(data, tail, start);
    var inputCount := ReadVarInt(data, start).value;
    var first := Inputs([], 0, start + inputCount.size);
    InputsStable(data, tail, inputCount.value, first);
    var inputs := ParseInputs(data, inputCount.value, first).value;
    VarIntStable(data, tail, inputs.offset);
    var outputCount := ReadVarInt(data, inputs.offset).value;
    OutputsStable(data, tail, outputCount.value, Outputs([], inputs.offset + outputCount.size));
    var outputs := ParseOutputs(data, outputCount.value, Outputs([], inputs.offset + outputCount.size)).value;
    var end := outputs.offset;
    if flag == 0 {
      StacksStable(data, tail, inputs.emptyScripts, outputs.offset);
      end := SkipStacks(data, inputs.emptyScripts, outputs.offset).value;
    }
    NumberStable(data, tail, end, 4);
  }

  /** Cut short anywhere, an invertible transaction does not parse. */
  lemma PrefixFails(sha: Sha, t: Transaction, k: nat)
    requires Encodable(t) && t.inputs != []
    ensures k < |Legacy(t)| ==> ParseTransaction(sha, Legacy(t)[..k]).Err?
    ensures t.version >= 2 && (forall i :: 0 <= i < |t.inputs| ==> t.inputs[i].script == []) && k < |Segwit(t)| ==>
              ParseTransaction(sha, Segwit(t)[..k]).Err?
  {
    hide ParseTransaction, Legacy, Segwit;
    ParserInvertsLegacyExactly(sha, t);
    ParserInvertsSegwitExactly(sha, t);
    if k < |Legacy(t)| {
      assert Legacy(t)[..k] + Legacy(t)[k..] == Legacy(t);
      if ParseTransaction(sha, Legacy(t)[..k]).Ok? {
        ParseStable(sha, Legacy(t)[..k], Legacy(t)[k..]);
      }
    }
    if k < |Segwit(t)| {
      assert Segwit(t)[..k] + Segwit(t)[k..] == Segwit(t);
      if ParseTransaction(sha, Segwit(t)[..k]).Ok? {
        ParseStable(sha, Segwit(t)[..k], Segwit(t)[k..]);
      }
    }
  }
}
