/**
 * The binary format of expressions (section 5.4 of the WebAssembly Core Specification 1.0):
 * the bytes the backend appends for each instruction, and a parser that recovers the code.
 */
module Binary {
  import opened Words
  import opened Wasm
  import opened Leb

  const END: Byte := 0x0b
  const ELSE: Byte := 0x05
  const EMPTY: Byte := 0x40

  function TypeByte(t: ValType): Byte {
    match t
    case TI32 => 0x7f
    case TI64 => 0x7e
  }

  function BlockType(t: Option<ValType>): Byte {
    match t
    case None => EMPTY
    case Some(v) => TypeByte(v)
  }

  function Encode(i: Instr): (bs: seq<Byte>)
    ensures |bs| > 0
  {
    match i
    case Unreachable => [0x00]
    case Block(body) => [0x02, EMPTY] + EncodeAll(body) + [END]
    case Loop(body) => [0x03, EMPTY] + EncodeAll(body) + [END]
    case If(thn) => [0x04, EMPTY] + EncodeAll(thn) + [END]
    case IfElse(t, thn, els) => [0x04, BlockType(t)] + EncodeAll(thn) + [ELSE] + EncodeAll(els) + [END]
    case Br(d) => [0x0c] + Uleb(d)
    case BrIf(d) => [0x0d] + Uleb(d)
    case Return => [0x0f]
    case Call(f) => [0x10] + Uleb(f)
    case Drop => [0x1a]
    case LocalGet(x) => [0x20] + Uleb(x)
    case LocalSet(x) => [0x21] + Uleb(x)
    case GlobalGet(x) => [0x23] + Uleb(x)
    case GlobalSet(x) => [0x24] + Uleb(x)
    case MemLoad(t) => [if t == TI32 then 0x28 else 0x29] + MemArg(t)
    case MemStore(t) => [if t == TI32 then 0x36 else 0x37] + MemArg(t)
    case MemStore8 => [0x3a, 0, 0]
    case I32Const(c) => [0x41] + Sleb(c)
    case I64Const(c) => [0x42] + Sleb(c)
    case Numeric(op) => [op]
  }

  /** Loads and stores are naturally aligned and have offset 0. */
  function MemArg(t: ValType): seq<Byte> {
    [if t == TI32 then 2 else 3, 0]
  }

  function EncodeAll(code: seq<Instr>): seq<Byte> {
    if code == [] then [] else Encode(code[0]) + EncodeAll(code[1..])
  }

  lemma {:induction false} EncodeConcat(a: seq<Instr>, b: seq<Instr>)
    ensures EncodeAll(a + b) == EncodeAll(a) + EncodeAll(b)
  {
    hide Encode;
    if a == [] {
      assert a + b == b;
    } else {
      assert (a + b)[0] == a[0] && (a + b)[1..] == a[1..] + b;
      EncodeConcat(a[1..], b);
    }
  }

  lemma EncodeOne(i: Instr)
    ensures EncodeAll([i]) == Encode(i)
  {
    assert [i][1..] == [];
    assert EncodeAll([]) == [];
  }

  /** Indices are 32-bit, and plain opcodes are those of numeric instructions. */
  predicate Encodable(i: Instr) {
    match i
    case Block(body) => AllEncodable(body)
    case Loop(body) => AllEncodable(body)
    case If(thn) => AllEncodable(thn)
    case IfElse(_, thn, els) => AllEncodable(thn) && AllEncodable(els)
    case Br(d) => d < TWO32
    case BrIf(d) => d < TWO32
    case Call(f) => f < TWO32
    case LocalGet(x) => x < TWO32
    case LocalSet(x) => x < TWO32
    case GlobalGet(x) => x < TWO32
    case GlobalSet(x) => x < TWO32
    case Numeric(op) => 0x45 <= op <= 0xbf
    case _ => true
  }

  predicate AllEncodable(code: seq<Instr>) {
    forall j :: 0 <= j < |code| ==> Encodable(code[j])
  }

  // ---- parsing --------------------------------------------------------------------------

  /** A sequence of instructions and the `end` or `else` that closes it. */
  datatype Body = Body(code: seq<Instr>, closer: Byte)

  function ParseInstr(bs: seq<Byte>): (r: Parsed<Instr>)
    ensures r.Parsed? ==> |r.rest| < |bs|
    decreases |bs|, 0
  {
    if bs == [] then Malformed
    else if bs[0] == 0x02 || bs[0] == 0x03 then
      if |bs| < 2 || bs[1] != EMPTY then Malformed
      else match ParseCode(bs[2..])
        case Parsed(Body(code, closer), rest) =>
          if closer != END then Malformed
          else Parsed(if bs[0] == 0x02 then Block(code) else Loop(code), rest)
        case Malformed => Malformed
    else if bs[0] == 0x04 then ParseIf(bs)
    else if bs[0] == 0x41 then
      match ParseS(32, bs[1..])
      case Parsed(v, rest) => if -TWO31 <= v < TWO31 then Parsed(I32Const(v), rest) else Malformed
      case Malformed => Malformed
    else if bs[0] == 0x42 then
      match ParseS(64, bs[1..])
      case Parsed(v, rest) => if -TWO63 <= v < TWO63 then Parsed(I64Const(v), rest) else Malformed
      case Malformed => Malformed
    else if bs[0] in {0x0c, 0x0d, 0x10, 0x20, 0x21, 0x23, 0x24} then
      match ParseU(32, bs[1..])
      case Parsed(v, rest) => Parsed(WithIndex(bs[0], v), rest)
      case Malformed => Malformed
    else if bs[0] in {0x28, 0x29, 0x36, 0x37} then
      var t := if bs[0] == 0x28 || bs[0] == 0x36 then TI32 else TI64;
      if |bs| < 3 || bs[1..3] != MemArg(t) then Malformed
      else Parsed(if bs[0] <= 0x29 then MemLoad(t) else MemStore(t), bs[3..])
    else if bs[0] == 0x3a then if |bs| < 3 || bs[1..3] != [0, 0] then Malformed else Parsed(MemStore8, bs[3..])
    else if bs[0] == 0x00 then Parsed(Unreachable, bs[1..])
    else if bs[0] == 0x0f then Parsed(Return, bs[1..])
    else if bs[0] == 0x1a then Parsed(Drop, bs[1..])
    else if 0x45 <= bs[0] <= 0xbf then Parsed(Numeric(bs[0]), bs[1..])
    else Malformed
  }

  function WithIndex(op: Byte, v: nat): Instr {
    match op
    case 0x0c => Br(v)
    case 0x0d => BrIf(v)
    case 0x10 => Call(v)
    case 0x20 => LocalGet(v)
    case 0x21 => LocalSet(v)
    case 0x23 => GlobalGet(v)
    case _ => GlobalSet(v)
  }

  function ParseBlockType(b: Byte): Parsed<Option<ValType>> {
    match b
    case 0x40 => Parsed(None, [])
    case 0x7f => Parsed(Some(TI32), [])
    case 0x7e => Parsed(Some(TI64), [])
    case _ => Malformed
  }

  function ParseIf(bs: seq<Byte>): (r: Parsed<Instr>)
    requires bs != []
    ensures r.Parsed? ==> |r.rest| < |bs|
    decreases |bs| - 1, 3
  {
    if |bs| < 2 || ParseBlockType(bs[1]).Malformed? then Malformed
    else match ParseCode(bs[2..])
      case Malformed => Malformed
      case Parsed(Body(thn, closer), rest) =>
        if closer == END then
          if bs[1] == EMPTY then Parsed(If(thn), rest) else Malformed
        else match ParseCode(rest)
          case Malformed => Malformed
          case Parsed(Body(els, closer2), rest2) =>
            if closer2 != END then Malformed else Parsed(IfElse(ParseBlockType(bs[1]).value, thn, els), rest2)
  }

  function ParseCode(bs: seq<Byte>): (r: Parsed<Body>)
    ensures r.Parsed? ==> |r.rest| < |bs| && r.value.closer in {END, ELSE}
    decreases |bs|, 1
  {
    if bs == [] then Malformed
    else if bs[0] == END || bs[0] == ELSE then Parsed(Body([], bs[0]), bs[1..])
    else match ParseInstr(bs)
      case Malformed => Malformed
      case Parsed(i, rest) =>
        match ParseCode(rest)
        case Malformed => Malformed
        case Parsed(Body(code, closer), rest2) => Parsed(Body([i] + code, closer), rest2)
  }

  /** What is written is read back, whatever follows: nesting is recovered from balanced closers. */
  lemma {:induction false} CodeRoundTrip(code: seq<Instr>, closer: Byte, rest: seq<Byte>)
    requires AllEncodable(code) && closer in {END, ELSE}
    ensures ParseCode(EncodeAll(code) + [closer] + rest) == Parsed(Body(code, closer), rest)
    decreases code, 1
  {
    var bs := EncodeAll(code) + [closer] + rest;
    if code == [] {
      assert bs == [closer] + rest && bs[1..] == rest;
    } else {
      var more := EncodeAll(code[1..]) + [closer] + rest;
      assert bs == Encode(code[0]) + more;
      InstrRoundTrip(code[0], more);
      CodeRoundTrip(code[1..], closer, rest);
      FirstByte(code[0]);
      assert bs[0] == Encode(code[0])[0];
      assert [code[0]] + code[1..] == code;
    }
  }

  lemma FirstByte(i: Instr)
    requires Encodable(i)
    ensures Encode(i)[0] !in {END, ELSE}
  {
  }

  lemma {:induction false} InstrRoundTrip(i: Instr, rest: seq<Byte>)
    requires Encodable(i)
    ensures ParseInstr(Encode(i) + rest) == Parsed(i, rest)
    decreases i, 1
  {
    hide ParseInstr, Uleb, Sleb, EncodeAll;
    match i
    case Block(body) => BlockRoundTrip(0x02, body, rest);
    case Loop(body) => BlockRoundTrip(0x03, body, rest);
    case If(thn) => IfRoundTrip(thn, rest);
    case IfElse(t, thn, els) => IfElseRoundTrip(i, rest);
    case I32Const(c) => ConstRoundTrip(c, 0, rest);
    case I64Const(c) => ConstRoundTrip(0, c, rest);
    case Br(x) => IndexRoundTrip(0x0c, x, rest);
    case BrIf(x) => IndexRoundTrip(0x0d, x, rest);
    case Call(x) => IndexRoundTrip(0x10, x, rest);
    case LocalGet(x) => IndexRoundTrip(0x20, x, rest);
    case LocalSet(x) => IndexRoundTrip(0x21, x, rest);
    case GlobalGet(x) => IndexRoundTrip(0x23, x, rest);
    case GlobalSet(x) => IndexRoundTrip(0x24, x, rest);
    case MemLoad(t) => MemoryRoundTrip(i, t, rest);
    case MemStore(t) => MemoryRoundTrip(i, t, rest);
    case MemStore8 => Store8RoundTrip(rest);
    case _ => PlainRoundTrip(i, rest);
  }

  lemma PlainRoundTrip(i: Instr, rest: seq<Byte>)
    requires Encodable(i) && (i.Unreachable? || i.Return? || i.Drop? || i.Numeric?)
    ensures ParseInstr(Encode(i) + rest) == Parsed(i, rest)
  {
    hide ParseU, ParseS, ParseCode, EncodeAll;
    var bs := Encode(i) + rest;
    assert bs[1..] == rest;
  }

  lemma MemoryRoundTrip(i: Instr, t: ValType, rest: seq<Byte>)
    requires i == MemLoad(t) || i == MemStore(t)
    ensures ParseInstr(Encode(i) + rest) == Parsed(i, rest)
  {
    hide ParseU, ParseS, ParseCode, EncodeAll;
    var bs := Encode(i) + rest;
    assert bs[3..] == rest && bs[1..3] == MemArg(t);
  }

  lemma Store8RoundTrip(rest: seq<Byte>)
    ensures ParseInstr(Encode(MemStore8) + rest) == Parsed(MemStore8, rest)
  {
    hide ParseU, ParseS, ParseCode, EncodeAll;
    var bs := Encode(MemStore8) + rest;
    assert bs[3..] == rest && bs[1..3] == [0, 0];
  }

  lemma ConstRoundTrip(c: I32, d: I64, rest: seq<Byte>)
    ensures ParseInstr([0x41] + Sleb(c) + rest) == Parsed(I32Const(c), rest)
    ensures ParseInstr([0x42] + Sleb(d) + rest) == Parsed(I64Const(d), rest)
  {
    hide ParseU, ParseS, ParseCode, Sleb;
    assert ([0x41] + Sleb(c) + rest)[1..] == Sleb(c) + rest;
    assert ([0x42] + Sleb(d) + rest)[1..] == Sleb(d) + rest;
    LebIsFaithful(0, c, d, rest);
  }

  lemma {:induction false} IfRoundTrip(thn: seq<Instr>, rest: seq<Byte>)
    requires AllEncodable(thn)
    ensures ParseInstr([0x04, EMPTY] + EncodeAll(thn) + [END] + rest) == Parsed(If(thn), rest)
    decreases thn, 2
  {
    hide ParseU, ParseS, ParseCode, EncodeAll;
    var bs := [0x04, EMPTY] + EncodeAll(thn) + [END] + rest;
    CodeRoundTrip(thn, END, rest);
    assert bs[2..] == EncodeAll(thn) + [END] + rest;
  }

  lemma {:induction false} IfElseRoundTrip(i: Instr, rest: seq<Byte>)
    requires i.IfElse? && Encodable(i)
    ensures ParseInstr(Encode(i) + rest) == Parsed(i, rest)
    decreases i, 0
  {
    hide ParseU, ParseS, ParseCode, EncodeAll;
    var bs := Encode(i) + rest;
    var tail := EncodeAll(i.els) + [END] + rest;
    CodeRoundTrip(i.thn, ELSE, tail);
    CodeRoundTrip(i.els, END, rest);
    assert bs[2..] == EncodeAll(i.thn) + [ELSE] + tail;
  }

  lemma {:induction false} BlockRoundTrip(op: Byte, body: seq<Instr>, rest: seq<Byte>)
    requires AllEncodable(body) && (op == 0x02 || op == 0x03)
    ensures ParseInstr([op, EMPTY] + EncodeAll(body) + [END] + rest)
      == Parsed(if op == 0x02 then Block(body) else Loop(body), rest)
    decreases body, 2
  {
    hide ParseU, ParseS, ParseCode, EncodeAll;
    var bs := [op, EMPTY] + EncodeAll(body) + [END] + rest;
    CodeRoundTrip(body, END, rest);
    assert bs[2..] == EncodeAll(body) + [END] + rest;
  }

  lemma IndexRoundTrip(op: Byte, x: nat, rest: seq<Byte>)
    requires x < TWO32 && op in {0x0c, 0x0d, 0x10, 0x20, 0x21, 0x23, 0x24}
    ensures ParseInstr([op] + Uleb(x) + rest) == Parsed(WithIndex(op, x), rest)
  {
    hide ParseU, ParseS, ParseCode, Uleb;
    assert ([op] + Uleb(x) + rest)[1..] == Uleb(x) + rest;
    LebIsFaithful(x, 0, 0, rest);
  }

  /** Different code is written differently. */
  lemma EncodingIsInjective(a: seq<Instr>, b: seq<Instr>)
    requires AllEncodable(a) && AllEncodable(b) && EncodeAll(a) == EncodeAll(b)
    ensures a == b
  {
    CodeRoundTrip(a, END, []);
    CodeRoundTrip(b, END, []);
  }
}
