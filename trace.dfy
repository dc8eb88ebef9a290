/**
  The CPU execution tracer: one fixed-column log line per instruction, in the
  format of the reference CPU trace logs that emulator runs are compared with.
  The tracer only peeks at memory and at the register snapshot; it is a function.
 */
module Trace {
  import opened Bytes
  import opened Text
  import opened Wrappers

  /** The operand-location schemes of the 6502. */
  datatype AddressingMode =
    | Immediate
    | ZeroPage | ZeroPageX | ZeroPageY
    | Absolute | AbsoluteX | AbsoluteY
    | IndirectX | IndirectY
    | NoneAddressing

  /** One entry of the instruction-metadata table. */
  datatype OpCode = OpCode(code: u8, mnemonic: string, len: nat, mode: AddressingMode)

  /** The static opcode table, keyed by opcode byte. */
  type OpTable = map<u8, OpCode>

  /** A side-effect-free view of the CPU's memory. */
  type Peek = u16 -> u8

  /** The CPU's effective-address resolver: addressing mode and operand location to address. */
  type Resolver = (AddressingMode, u16) -> u16

  /** The register snapshot the tracer reports. */
  datatype Cpu = Cpu(registerA: u8, registerX: u8, registerY: u8, status: u8, stackPointer: u8, programCounter: u16)

  datatype TraceError =
    | UnknownOpcode(code: u8)
    | UnexpectedLength(code: u8, len: nat)
    | UnexpectedMode(code: u8, mode: AddressingMode, len: nat)

  /** Width the assembly part is padded to before the register suffix. */
  const AssemblyWidth: nat := 47

  /** Shift and rotate instructions whose operand is the accumulator. */
  predicate IsAccumulatorOp(code: u8) {
    code == 0x0a || code == 0x4a || code == 0x2a || code == 0x6a
  }

  /** Modes that do not address memory. */
  predicate ReadsNoMemory(mode: AddressingMode) {
    mode == Immediate || mode == NoneAddressing
  }

  /** The combinations of length and mode that the tracer can render. */
  predicate Renderable(len: nat, mode: AddressingMode) {
    || len == 1
    || (len == 2 && mode in {Immediate, ZeroPage, ZeroPageX, ZeroPageY, IndirectX, IndirectY, NoneAddressing})
    || (len == 3 && mode in {NoneAddressing, Absolute, AbsoluteX, AbsoluteY})
  }

  /** The metadata every real table entry has: its own opcode and a short, non-blank mnemonic. */
  predicate WellFormed(opcodes: OpTable) {
    forall c | c in opcodes ::
      && opcodes[c].code == c
      && 1 <= |opcodes[c].mnemonic| <= 4
      && !IsWhitespace(opcodes[c].mnemonic[|opcodes[c].mnemonic| - 1])
  }

  /** The effective address and the byte stored there, or (0, 0) when the mode reads no memory. */
  function MemAccess(mode: AddressingMode, cpu: Cpu, peek: Peek, resolve: Resolver): (u16, u8) {
    if ReadsNoMemory(mode) then (0, 0)
    else
      var addr := resolve(mode, Wrap16(cpu.programCounter + 1));
      (addr, peek(addr))
  }

  /** The little-endian word stored in the two operand bytes. */
  function OperandWord(pc: u16, peek: Peek): u16 {
    peek(Wrap16(pc + 2)) * 0x100 + peek(Wrap16(pc + 1))
  }

  /** Target of a relative branch: the address after the instruction plus the signed offset. */
  function BranchTarget(pc: u16, offset: u8): u16 {
    Wrap16(pc + 2 + (if offset < 0x80 then offset else offset - 0x100))
  }

  /** One-byte instructions: the accumulator marker for shifts and rotates of A, nothing otherwise. */
  function OneByteText(code: u8): string {
    if IsAccumulatorOp(code) then "A " else ""
  }

  /** A memory location's text followed by ` = ` and the byte stored there. */
  function WithStored(location: string, stored: u8): string {
    location + " = " + Hex(stored, 2)
  }

  /** Two-byte instructions, whose operand byte is `address`. */
  function TwoByteText(op: OpCode, cpu: Cpu, address: u8, access: (u16, u8)): Result<string, TraceError> {
    var memAddr, stored := access.0, access.1;
    match op.mode
    case Immediate => Ok("#$" + Hex(address, 2))
    case ZeroPage => Ok(WithStored("$" + Hex(memAddr, 2), stored))
    case ZeroPageX => Ok(WithStored("$" + Hex(address, 2) + ",X @ " + Hex(memAddr, 2), stored))
    case ZeroPageY => Ok(WithStored("$" + Hex(address, 2) + ",Y @ " + Hex(memAddr, 2), stored))
    case IndirectX =>
      Ok(WithStored("($" + Hex(address, 2) + ",X) @ " + Hex((address + cpu.registerX) % 0x100, 2)
                    + " = " + Hex(memAddr, 4), stored))
    case IndirectY =>
      Ok(WithStored("($" + Hex(address, 2) + "),Y = " + Hex(Wrap16(memAddr - cpu.registerY), 4)
                    + " @ " + Hex(memAddr, 4), stored))
    case NoneAddressing => Ok("$" + Hex(BranchTarget(cpu.programCounter, address), 4))
    case _ => Err(UnexpectedMode(op.code, op.mode, op.len))
  }

  /** Three-byte instructions, whose operand bytes form the word `address`. */
  function ThreeByteText(op: OpCode, address: u16, access: (u16, u8)): Result<string, TraceError> {
    var memAddr, stored := access.0, access.1;
    match op.mode
    case NoneAddressing =>
      Ok(if op.code == 0x6c then "($" + Hex(address, 4) + ")" else "$" + Hex(address, 4))
    case Absolute => Ok(WithStored("$" + Hex(memAddr, 4), stored))
    case AbsoluteX => Ok(WithStored("$" + Hex(address, 4) + ",X @ " + Hex(memAddr, 4), stored))
    case AbsoluteY => Ok(WithStored("$" + Hex(address, 4) + ",Y @ " + Hex(memAddr, 4), stored))
    case _ => Err(UnexpectedMode(op.code, op.mode, op.len))
  }

  /** The operand text for an instruction, given the effective address and stored value. */
  function OperandText(op: OpCode, cpu: Cpu, peek: Peek, access: (u16, u8)): Result<string, TraceError> {
    var pc: int := cpu.programCounter;
    if op.len == 1 then Ok(OneByteText(op.code))
    else if op.len == 2 then TwoByteText(op, cpu, peek(Wrap16(pc + 1)), access)
    else if op.len == 3 then ThreeByteText(op, OperandWord(cpu.programCounter, peek), access)
    else Err(UnexpectedLength(op.code, op.len))
  }

  /** The `len` bytes of the instruction at `pc`, opcode first. */
  function InstructionBytes(pc: u16, peek: Peek, len: nat): seq<u8> {
    seq<u8>(len, i => peek(Wrap16(pc + i)))
  }

  /** Bytes as two-digit hex, joined by single spaces. */
  function HexDump(bytes: seq<u8>): string
    decreases |bytes|
  {
    if |bytes| == 0 then ""
    else if |bytes| == 1 then Hex(bytes[0], 2)
    else Hex(bytes[0], 2) + " " + HexDump(bytes[1..])
  }

  /** Program counter, padded hex dump and right-aligned mnemonic. */
  function Head(cpu: Cpu, peek: Peek, op: OpCode): string {
    Hex(cpu.programCounter, 4) + "  "
      + PadRight(HexDump(InstructionBytes(cpu.programCounter, peek, op.len)), 8) + " "
      + PadLeft(op.mnemonic, 4)
  }

  /** The assembly part of the line, trimmed. */
  function Assembly(cpu: Cpu, peek: Peek, opcodes: OpTable, resolve: Resolver): Result<string, TraceError> {
    var code := peek(cpu.programCounter);
    if code !in opcodes then Err(UnknownOpcode(code))
    else
      var op := opcodes[code];
      match OperandText(op, cpu, peek, MemAccess(op.mode, cpu, peek, resolve))
      case Err(e) => Err(e)
      case Ok(operand) => Ok(Trim(Head(cpu, peek, op) + " " + operand))
  }

  /** A register field: tag followed by two hex digits. */
  function Field(tag: string, v: u8): string {
    tag + Hex(v, 2)
  }

  function RegisterSuffix(cpu: Cpu): string {
    Field(" A:", cpu.registerA) + Field(" X:", cpu.registerX) + Field(" Y:", cpu.registerY)
      + Field(" P:", cpu.status) + Field(" SP:", cpu.stackPointer)
  }

  /** One trace line for the instruction at the program counter. */
  function Trace(cpu: Cpu, peek: Peek, opcodes: OpTable, resolve: Resolver): Result<string, TraceError> {
    match Assembly(cpu, peek, opcodes, resolve)
    case Err(e) => Err(e)
    case Ok(asm) => Ok(PadRight(asm, AssemblyWidth) + RegisterSuffix(cpu))
  }

  /** Reads a field back: the tag, then hex digits. */
  function ParseField(s: string, tag: string): Option<nat> {
    if |tag| <= |s| && s[..|tag|] == tag && IsHex(s[|tag|..]) then Some(Value(s[|tag|..])) else None
  }

  /** Reads the register values back out of a register suffix. */
  function ParseSuffix(s: string): Option<(nat, nat, nat, nat, nat)> {
    if |s| != 26 then None
    else
      match (ParseField(s[..5], " A:"), ParseField(s[5..10], " X:"), ParseField(s[10..15], " Y:"),
             ParseField(s[15..20], " P:"), ParseField(s[20..], " SP:"))
      case (Some(a), Some(x), Some(y), Some(p), Some(sp)) => Some((a, x, y, p, sp))
      case _ => None
  }

  // ----- Layout of the line -----

  /** Prepending one dump entry shifts every later entry by three columns. */
  lemma DumpStep(h: string, r: string)
    requires |h| == 2 && |r| % 3 == 2
    ensures var d := h + " " + r;
      && d[..2] == h && d[2] == ' '
      && (forall i | 1 <= i <= (|r| + 1) / 3 :: d[3 * i..3 * i + 2] == r[3 * (i - 1)..3 * (i - 1) + 2])
      && (forall i | 1 <= i < (|r| + 1) / 3 :: d[3 * i + 2] == r[3 * (i - 1) + 2])
  {
    var d := h + " " + r;
    forall i | 1 <= i <= (|r| + 1) / 3 ensures d[3 * i..3 * i + 2] == r[3 * (i - 1)..3 * (i - 1) + 2] {
      assert d[3 * i..3 * i + 2] == d[3..][3 * (i - 1)..3 * (i - 1) + 2];
    }
  }

  /** Each byte occupies two columns, bytes are separated by one space. */
  lemma {:induction false} HexDumpLayout(bytes: seq<u8>)
    requires |bytes| >= 1
    ensures |HexDump(bytes)| == 3 * |bytes| - 1
    ensures forall i | 0 <= i < |bytes| :: HexDump(bytes)[3 * i..3 * i + 2] == Hex(bytes[i], 2)
    ensures forall i | 0 <= i < |bytes| - 1 :: HexDump(bytes)[3 * i + 2] == ' '
    decreases |bytes|
  {
    HexFieldLengths(bytes[0]);
    if |bytes| > 1 {
      var rest := bytes[1..];
      HexDumpLayout(rest);
      var d, r := HexDump(bytes), HexDump(rest);
      assert d == Hex(bytes[0], 2) + " " + r;
      DumpStep(Hex(bytes[0], 2), r);
      forall i | 1 <= i < |bytes| ensures rest[i - 1] == bytes[i] { }
      forall i | 0 <= i < |bytes| - 1 ensures d[3 * i + 2] == ' ' {
        if i > 0 {
          assert d[3 * i + 2] == r[3 * (i - 1) + 2];
        }
      }
    }
  }

  /** The first 19 columns: PC, two spaces, the 8-column hex dump, a space, the 4-column mnemonic. */
  lemma HeadLayout(cpu: Cpu, peek: Peek, op: OpCode)
    requires 1 <= op.len <= 3 && |op.mnemonic| <= 4
    ensures var h := Head(cpu, peek, op);
      && |h| == 19
      && h[..4] == Hex(cpu.programCounter, 4)
      && h[4..6] == "  "
      && h[6..14] == PadRight(HexDump(InstructionBytes(cpu.programCounter, peek, op.len)), 8)
      && h[14] == ' '
      && h[15..] == PadLeft(op.mnemonic, 4)
  {
    HexFieldLengths(cpu.programCounter);
    var dump := HexDump(InstructionBytes(cpu.programCounter, peek, op.len));
    HexDumpLayout(InstructionBytes(cpu.programCounter, peek, op.len));
    SlicesOfHead(Hex(cpu.programCounter, 4), PadRight(dump, 8), PadLeft(op.mnemonic, 4));
  }

  lemma SlicesOfHead(pc: string, dump: string, mnemonic: string)
    requires |pc| == 4 && |dump| == 8 && |mnemonic| == 4
    ensures var h := pc + "  " + dump + " " + mnemonic;
      |h| == 19 && h[..4] == pc && h[4..6] == "  " && h[6..14] == dump && h[14] == ' ' && h[15..] == mnemonic
  {
  }

  /** The success value of the operand text, `""` when there is none. */
  function OperandOf(op: OpCode, cpu: Cpu, peek: Peek, resolve: Resolver): string {
    match OperandText(op, cpu, peek, MemAccess(op.mode, cpu, peek, resolve))
    case Ok(t) => t
    case Err(_) => ""
  }

  lemma TwoByteTextLength(op: OpCode, cpu: Cpu, address: u8, access: (u16, u8))
    requires TwoByteText(op, cpu, address, access).Ok?
    ensures |TwoByteText(op, cpu, address, access).value| <= 26
  {
    HexFieldLengths(access.0);
    HexFieldLengths(access.1);
    HexFieldLengths(address);
    var other: int :=
      match op.mode
      case IndirectX => (address + cpu.registerX) % 0x100
      case IndirectY => Wrap16(access.0 - cpu.registerY)
      case NoneAddressing => BranchTarget(cpu.programCounter, address)
      case _ => 0;
    HexFieldLengths(other);
  }

  lemma ThreeByteTextLength(op: OpCode, address: u16, access: (u16, u8))
    requires ThreeByteText(op, address, access).Ok?
    ensures |ThreeByteText(op, address, access).value| <= 26
  {
    HexFieldLengths(access.0);
    HexFieldLengths(access.1);
    HexFieldLengths(address);
  }

  /** No operand text is wider than the Indirect,Y form (26 characters). */
  lemma OperandTextLength(op: OpCode, cpu: Cpu, peek: Peek, access: (u16, u8))
    requires OperandText(op, cpu, peek, access).Ok?
    ensures |OperandText(op, cpu, peek, access).value| <= 26
  {
    var pc: int := cpu.programCounter;
    if op.len == 2 {
      TwoByteTextLength(op, cpu, peek(Wrap16(pc + 1)), access);
    } else if op.len == 3 {
      ThreeByteTextLength(op, OperandWord(cpu.programCounter, peek), access);
    }
  }

  /** The assembly text before trimming, as `Assembly` builds it. */
  lemma AssemblyUnfolds(cpu: Cpu, peek: Peek, opcodes: OpTable, resolve: Resolver)
    requires Assembly(cpu, peek, opcodes, resolve).Ok?
    ensures peek(cpu.programCounter) in opcodes
    ensures var op := opcodes[peek(cpu.programCounter)];
      && OperandText(op, cpu, peek, MemAccess(op.mode, cpu, peek, resolve)).Ok?
      && 1 <= op.len <= 3
      && Assembly(cpu, peek, opcodes, resolve).value
         == Trim(Head(cpu, peek, op) + " " + OperandOf(op, cpu, peek, resolve))
  {
  }

  /** The head starts with a hex digit and ends with the last letter of the mnemonic. */
  lemma HeadEnds(cpu: Cpu, peek: Peek, op: OpCode)
    requires 1 <= op.len <= 3 && 1 <= |op.mnemonic| <= 4 && !IsWhitespace(op.mnemonic[|op.mnemonic| - 1])
    ensures var h := Head(cpu, peek, op); |h| == 19 && !IsWhitespace(h[0]) && !IsWhitespace(h[18])
  {
    HeadLayout(cpu, peek, op);
    EndsOfHead(Head(cpu, peek, op), Hex(cpu.programCounter, 4), op.mnemonic);
  }

  lemma EndsOfHead(h: string, pcText: string, mnemonic: string)
    requires |h| == 19 && h[..4] == pcText && IsHex(pcText)
    requires 1 <= |mnemonic| <= 4 && h[15..] == PadLeft(mnemonic, 4) && !IsWhitespace(mnemonic[|mnemonic| - 1])
    ensures !IsWhitespace(h[0]) && !IsWhitespace(h[18])
  {
    assert h[0] == pcText[0];
    DigitNotWhitespace(pcText[0]);
    var m := PadLeft(mnemonic, 4);
    assert h[18] == m[3] == m[4 - |mnemonic|..][|mnemonic| - 1];
  }

  lemma TrimAfterHead(cpu: Cpu, peek: Peek, op: OpCode, t: string)
    requires 1 <= op.len <= 3 && 1 <= |op.mnemonic| <= 4 && !IsWhitespace(op.mnemonic[|op.mnemonic| - 1])
    ensures Trim(Head(cpu, peek, op) + " " + t) == Head(cpu, peek, op) + TrimEnd(" " + t)
  {
    HeadEnds(cpu, peek, op);
    var h := Head(cpu, peek, op);
    AppendAssoc(h, " ", t);
    TrimAfterWord(h, " " + t);
  }

  /** Trimming removes exactly the trailing blanks after the operand; the head stays whole. */
  lemma AssemblyShape(cpu: Cpu, peek: Peek, opcodes: OpTable, resolve: Resolver)
    requires WellFormed(opcodes)
    requires Assembly(cpu, peek, opcodes, resolve).Ok?
    ensures peek(cpu.programCounter) in opcodes
    ensures var op := opcodes[peek(cpu.programCounter)];
      && 1 <= op.len <= 3
      && OperandText(op, cpu, peek, MemAccess(op.mode, cpu, peek, resolve)).Ok?
      && Assembly(cpu, peek, opcodes, resolve).value
         == Head(cpu, peek, op) + TrimEnd(" " + OperandOf(op, cpu, peek, resolve))
  {
    AssemblyUnfolds(cpu, peek, opcodes, resolve);
    var op := opcodes[peek(cpu.programCounter)];
    TrimAfterHead(cpu, peek, op, OperandOf(op, cpu, peek, resolve));
  }

  /** Padding to the assembly width and appending the suffix keeps both parts in place. */
  lemma PaddedLine(asm: string, h: string, suffix: string)
    requires |h| <= |asm| <= AssemblyWidth && asm[..|h|] == h
    ensures var line := PadRight(asm, AssemblyWidth) + suffix;
      && |line| == AssemblyWidth + |suffix|
      && line[..|h|] == h
      && line[..AssemblyWidth] == PadRight(asm, AssemblyWidth)
      && line[AssemblyWidth..] == suffix
  {
    var line := PadRight(asm, AssemblyWidth) + suffix;
    assert line[..|h|] == PadRight(asm, AssemblyWidth)[..|asm|][..|h|];
  }

  lemma TraceUnfolds(cpu: Cpu, peek: Peek, opcodes: OpTable, resolve: Resolver)
    requires Trace(cpu, peek, opcodes, resolve).Ok?
    ensures Assembly(cpu, peek, opcodes, resolve).Ok?
    ensures Trace(cpu, peek, opcodes, resolve).value
         == PadRight(Assembly(cpu, peek, opcodes, resolve).value, AssemblyWidth) + RegisterSuffix(cpu)
  {
  }

  /** The assembly part is shorter than its column, so the suffix never shifts. */
  lemma AssemblyFits(cpu: Cpu, peek: Peek, opcodes: OpTable, resolve: Resolver)
    requires WellFormed(opcodes)
    requires Assembly(cpu, peek, opcodes, resolve).Ok?
    ensures var asm := Assembly(cpu, peek, opcodes, resolve).value;
      && 19 <= |asm| < AssemblyWidth
      && asm[..19] == Head(cpu, peek, opcodes[peek(cpu.programCounter)])
  {
    AssemblyShape(cpu, peek, opcodes, resolve);
    var op := opcodes[peek(cpu.programCounter)];
    var h := Head(cpu, peek, op);
    HeadEnds(cpu, peek, op);
    OperandTextLength(op, cpu, peek, MemAccess(op.mode, cpu, peek, resolve));
    TrimEndFacts(" " + OperandOf(op, cpu, peek, resolve));
    PrefixOfAppend(h, TrimEnd(" " + OperandOf(op, cpu, peek, resolve)));
  }

  /** Every well-formed line is 73 columns wide, with the register suffix from column 47 on. */
  lemma LineLayout(cpu: Cpu, peek: Peek, opcodes: OpTable, resolve: Resolver)
    requires WellFormed(opcodes)
    requires Trace(cpu, peek, opcodes, resolve).Ok?
    ensures Assembly(cpu, peek, opcodes, resolve).Ok?
    ensures var line := Trace(cpu, peek, opcodes, resolve).value;
      && |line| == 73
      && line[..19] == Head(cpu, peek, opcodes[peek(cpu.programCounter)])
      && line[..AssemblyWidth] == PadRight(Assembly(cpu, peek, opcodes, resolve).value, AssemblyWidth)
      && line[AssemblyWidth..] == RegisterSuffix(cpu)
  {
    TraceUnfolds(cpu, peek, opcodes, resolve);
    AssemblyFits(cpu, peek, opcodes, resolve);
    SuffixRoundTrip(cpu);
    PaddedLine(Assembly(cpu, peek, opcodes, resolve).value,
               Head(cpu, peek, opcodes[peek(cpu.programCounter)]), RegisterSuffix(cpu));
  }

  lemma FieldRoundTrip(tag: string, v: u8)
    ensures |Field(tag, v)| == |tag| + 2
    ensures ParseField(Field(tag, v), tag) == Some(v)
  {
    HexFieldLengths(v);
    HexRoundTrip(v, 2);
    assert Field(tag, v)[|tag|..] == Hex(v, 2);
  }

  lemma SlicesOfFive(f1: string, f2: string, f3: string, f4: string, f5: string)
    requires |f1| == 5 && |f2| == 5 && |f3| == 5 && |f4| == 5 && |f5| == 6
    ensures var s := f1 + f2 + f3 + f4 + f5;
      |s| == 26 && s[..5] == f1 && s[5..10] == f2 && s[10..15] == f3 && s[15..20] == f4 && s[20..] == f5
  {
  }

  /** The register suffix gives back exactly the snapshot's registers. */
  lemma SuffixRoundTrip(cpu: Cpu)
    ensures |RegisterSuffix(cpu)| == 26
    ensures ParseSuffix(RegisterSuffix(cpu))
         == Some((cpu.registerA, cpu.registerX, cpu.registerY, cpu.status, cpu.stackPointer))
  {
    FieldRoundTrip(" A:", cpu.registerA);
    FieldRoundTrip(" X:", cpu.registerX);
    FieldRoundTrip(" Y:", cpu.registerY);
    FieldRoundTrip(" P:", cpu.status);
    FieldRoundTrip(" SP:", cpu.stackPointer);
    SlicesOfFive(Field(" A:", cpu.registerA), Field(" X:", cpu.registerX), Field(" Y:", cpu.registerY),
                 Field(" P:", cpu.status), Field(" SP:", cpu.stackPointer));
  }

  // ----- Properties of the trace line -----

  /**
    The register suffix always starts at column 47, whatever the instruction:
    the assembly part is padded to that width, and reading the suffix back
    yields the snapshot's registers unchanged.
   */
  lemma RegistersReported(cpu: Cpu, peek: Peek, opcodes: OpTable, resolve: Resolver)
    requires WellFormed(opcodes)
    requires Trace(cpu, peek, opcodes, resolve).Ok?
    ensures var line := Trace(cpu, peek, opcodes, resolve).value;
      && |line| == 73
      && |Assembly(cpu, peek, opcodes, resolve).value| < AssemblyWidth
      && line[..AssemblyWidth] == PadRight(Assembly(cpu, peek, opcodes, resolve).value, AssemblyWidth)
      && ParseSuffix(line[AssemblyWidth..])
         == Some((cpu.registerA, cpu.registerX, cpu.registerY, cpu.status, cpu.stackPointer))
  {
    LineLayout(cpu, peek, opcodes, resolve);
    AssemblyFits(cpu, peek, opcodes, resolve);
    SuffixRoundTrip(cpu);
  }

  lemma WithStoredEnds(location: string, stored: u8)
    ensures EndsWith(WithStored(location, stored), " = " + Hex(stored, 2))
  {
    EndsWithTail(location, " = ", Hex(stored, 2));
  }

  /** Memory modes of two-byte instructions end with ` = ` and the stored value. */
  lemma TwoByteTextShowsValue(op: OpCode, cpu: Cpu, address: u8, access: (u16, u8))
    requires TwoByteText(op, cpu, address, access).Ok? && !ReadsNoMemory(op.mode)
    ensures EndsWith(TwoByteText(op, cpu, address, access).value, " = " + Hex(access.1, 2))
  {
    var location :=
      match op.mode
      case ZeroPage => "$" + Hex(access.0, 2)
      case ZeroPageX => "$" + Hex(address, 2) + ",X @ " + Hex(access.0, 2)
      case ZeroPageY => "$" + Hex(address, 2) + ",Y @ " + Hex(access.0, 2)
      case IndirectX =>
        "($" + Hex(address, 2) + ",X) @ " + Hex((address + cpu.registerX) % 0x100, 2) + " = " + Hex(access.0, 4)
      case IndirectY =>
        "($" + Hex(address, 2) + "),Y = " + Hex(Wrap16(access.0 - cpu.registerY), 4) + " @ " + Hex(access.0, 4)
      case _ => "";
    assert TwoByteText(op, cpu, address, access).value == WithStored(location, access.1);
    WithStoredEnds(location, access.1);
  }

  /** Memory modes of three-byte instructions end with ` = ` and the stored value. */
  lemma ThreeByteTextShowsValue(op: OpCode, address: u16, access: (u16, u8))
    requires ThreeByteText(op, address, access).Ok? && !ReadsNoMemory(op.mode)
    ensures EndsWith(ThreeByteText(op, address, access).value, " = " + Hex(access.1, 2))
  {
    var location :=
      match op.mode
      case Absolute => "$" + Hex(access.0, 4)
      case AbsoluteX => "$" + Hex(address, 4) + ",X @ " + Hex(access.0, 4)
      case AbsoluteY => "$" + Hex(address, 4) + ",Y @ " + Hex(access.0, 4)
      case _ => "";
    assert ThreeByteText(op, address, access).value == WithStored(location, access.1);
    WithStoredEnds(location, access.1);
  }

  /** Trimming never reaches into an ending whose last character is not blank. */
  lemma KeepsEnding(h: string, t: string, e: string)
    requires EndsWith(t, e) && |e| >= 1 && !IsWhitespace(e[|e| - 1])
    ensures EndsWith(h + TrimEnd(" " + t), e)
  {
    var s := " " + t;
    EndsWithAfter(" ", t, e);
    assert s[|s| - 1] == e[|e| - 1];
    TrimEndUnique(s, |s|);
    assert s[..|s|] == s;
    EndsWithAfter(h, s, e);
  }

  lemma LastDigits(s: string, d: string)
    requires |d| == 2 && EndsWith(s, " = " + d)
    ensures s[|s| - 2..] == d
  {
    assert s[|s| - 2..] == (" = " + d)[3..];
  }

  /**
    For every mode that addresses memory, the line shows (as its last field
    before the padding) the byte stored at the effective address that the
    resolver computes from the location after the opcode.
   */
  lemma StoredValueShown(cpu: Cpu, peek: Peek, opcodes: OpTable, resolve: Resolver, asm: string)
    requires WellFormed(opcodes)
    requires Assembly(cpu, peek, opcodes, resolve) == Ok(asm)
    requires peek(cpu.programCounter) in opcodes
    requires opcodes[peek(cpu.programCounter)].len >= 2 && !ReadsNoMemory(opcodes[peek(cpu.programCounter)].mode)
    ensures var v := peek(resolve(opcodes[peek(cpu.programCounter)].mode, Wrap16(cpu.programCounter + 1)));
      && EndsWith(asm, " = " + Hex(v, 2))
      && IsHex(asm[|asm| - 2..]) && Value(asm[|asm| - 2..]) == v
  {
    var op := opcodes[peek(cpu.programCounter)];
    AssemblyShape(cpu, peek, opcodes, resolve);
    OperandShowsValue(op, cpu, peek, resolve);
    var v := MemAccess(op.mode, cpu, peek, resolve).1;
    assert v == peek(resolve(op.mode, Wrap16(cpu.programCounter + 1)));
    ValueAtEnd(asm, Head(cpu, peek, op), OperandOf(op, cpu, peek, resolve), v);
  }

  /** An operand ending in ` = ` and a byte's two digits keeps them at the end of the assembly part. */
  lemma ValueAtEnd(asm: string, h: string, t: string, v: u8)
    requires asm == h + TrimEnd(" " + t) && EndsWith(t, " = " + Hex(v, 2))
    ensures EndsWith(asm, " = " + Hex(v, 2))
    ensures IsHex(asm[|asm| - 2..]) && Value(asm[|asm| - 2..]) == v
  {
    ByteDigits(" = ", v);
    KeepsEnding(h, t, " = " + Hex(v, 2));
    LastDigits(asm, Hex(v, 2));
  }

  /** A byte's two digits read back as the byte, and text ending with them does not end in a blank. */
  lemma ByteDigits(prefix: string, v: u8)
    ensures var d := Hex(v, 2);
      && |d| == 2 && IsHex(d) && Value(d) == v
      && !IsWhitespace((prefix + d)[|prefix + d| - 1])
  {
    var d := Hex(v, 2);
    HexFieldLengths(v);
    HexRoundTrip(v, 2);
    assert (prefix + d)[|prefix + d| - 1] == d[1];
    DigitNotWhitespace(d[1]);
  }

  /** Operands of memory modes end with ` = ` and the byte at the effective address. */
  lemma OperandShowsValue(op: OpCode, cpu: Cpu, peek: Peek, resolve: Resolver)
    requires OperandText(op, cpu, peek, MemAccess(op.mode, cpu, peek, resolve)).Ok?
    requires op.len >= 2 && !ReadsNoMemory(op.mode)
    ensures EndsWith(OperandOf(op, cpu, peek, resolve), " = " + Hex(MemAccess(op.mode, cpu, peek, resolve).1, 2))
  {
    var pc: int := cpu.programCounter;
    var access := MemAccess(op.mode, cpu, peek, resolve);
    if op.len == 2 {
      TwoByteTextShowsValue(op, cpu, peek(Wrap16(pc + 1)), access);
    } else {
      ThreeByteTextShowsValue(op, OperandWord(cpu.programCounter, peek), access);
    }
  }

  /** An immediate operand is the byte after the opcode, shown as `#$` and two digits at the end of the assembly part. */
  lemma ImmediateOperandShown(cpu: Cpu, peek: Peek, opcodes: OpTable, resolve: Resolver, asm: string)
    requires WellFormed(opcodes)
    requires Assembly(cpu, peek, opcodes, resolve) == Ok(asm)
    requires peek(cpu.programCounter) in opcodes
    requires opcodes[peek(cpu.programCounter)].len == 2 && opcodes[peek(cpu.programCounter)].mode == Immediate
    ensures EndsWith(asm, "#$" + Hex(peek(Wrap16(cpu.programCounter + 1)), 2))
  {
    var op := opcodes[peek(cpu.programCounter)];
    AssemblyShape(cpu, peek, opcodes, resolve);
    var operand := "#$" + Hex(peek(Wrap16(cpu.programCounter + 1)), 2);
    assert OperandOf(op, cpu, peek, resolve) == operand;
    ByteDigits("#$", peek(Wrap16(cpu.programCounter + 1)));
    EndsWithItself(operand);
    KeepsEnding(Head(cpu, peek, op), operand, operand);
  }

  /** The operand text of a multi-byte instruction never ends in a blank. */
  lemma OperandEndsSolid(op: OpCode, cpu: Cpu, peek: Peek, resolve: Resolver)
    requires OperandText(op, cpu, peek, MemAccess(op.mode, cpu, peek, resolve)).Ok?
    requires op.len >= 2
    ensures var t := OperandOf(op, cpu, peek, resolve); t != [] && !IsWhitespace(t[|t| - 1])
  {
    var pc: int := cpu.programCounter;
    var t := OperandOf(op, cpu, peek, resolve);
    if !ReadsNoMemory(op.mode) {
      var v := MemAccess(op.mode, cpu, peek, resolve).1;
      OperandShowsValue(op, cpu, peek, resolve);
      ByteDigits(" = ", v);
      assert t[|t| - 1] == (" = " + Hex(v, 2))[4];
    } else {
      var n: int :=
        if op.len == 3 then OperandWord(cpu.programCounter, peek)
        else if op.mode == Immediate then peek(Wrap16(pc + 1))
        else BranchTarget(cpu.programCounter, peek(Wrap16(pc + 1)));
      var d := Hex(n, if op.len == 2 && op.mode == Immediate then 2 else 4);
      var close := if op.len == 3 && op.code == 0x6c then ")" else "";
      assert t == t[..|t| - |d| - |close|] + d + close;
      DigitNotWhitespace(d[|d| - 1]);
    }
  }

  /** For a multi-byte instruction, trimming removes nothing: the operand follows the head and a space. */
  lemma OperandAtColumn20(cpu: Cpu, peek: Peek, opcodes: OpTable, resolve: Resolver, asm: string)
    requires WellFormed(opcodes)
    requires Assembly(cpu, peek, opcodes, resolve) == Ok(asm)
    requires peek(cpu.programCounter) in opcodes && opcodes[peek(cpu.programCounter)].len >= 2
    ensures var op := opcodes[peek(cpu.programCounter)];
      && |asm| >= 20
      && asm[..19] == Head(cpu, peek, op)
      && asm[19] == ' '
      && asm[20..] == OperandOf(op, cpu, peek, resolve)
  {
    var op := opcodes[peek(cpu.programCounter)];
    AssemblyShape(cpu, peek, opcodes, resolve);
    HeadEnds(cpu, peek, op);
    OperandEndsSolid(op, cpu, peek, resolve);
    UntrimmedTail(Head(cpu, peek, op), OperandOf(op, cpu, peek, resolve));
  }

  /** A head followed by a blank-free-ending operand: trimming removes nothing. */
  lemma UntrimmedTail(h: string, t: string)
    requires |h| == 19 && t != [] && !IsWhitespace(t[|t| - 1])
    ensures var asm := h + TrimEnd(" " + t);
      |asm| >= 20 && asm[..19] == h && asm[19] == ' ' && asm[20..] == t
  {
    var s := " " + t;
    assert s[|s| - 1] == t[|t| - 1];
    TrimEndUnique(s, |s|);
    assert s[..|s|] == s;
    assert (h + s)[20..] == t;
  }

  /**
    Two-byte instructions take their operand byte from PC+1: the indexed
    zero-page and indirect forms show it first, a branch shows the target it
    gives relative to the next instruction.
   */
  lemma TwoByteOperandShown(cpu: Cpu, peek: Peek, opcodes: OpTable, resolve: Resolver, asm: string)
    requires WellFormed(opcodes)
    requires Assembly(cpu, peek, opcodes, resolve) == Ok(asm)
    requires peek(cpu.programCounter) in opcodes && opcodes[peek(cpu.programCounter)].len == 2
    ensures var mode, b := opcodes[peek(cpu.programCounter)].mode, peek(Wrap16(cpu.programCounter + 1));
      (mode == ZeroPageX || mode == ZeroPageY) ==>
        && |asm| >= 23 && asm[20..23] == "$" + Hex(b, 2)
        && IsHex(asm[21..23]) && Value(asm[21..23]) == b
    ensures var mode, b := opcodes[peek(cpu.programCounter)].mode, peek(Wrap16(cpu.programCounter + 1));
      (mode == IndirectX || mode == IndirectY) ==>
        && |asm| >= 24 && asm[20..24] == "($" + Hex(b, 2)
        && IsHex(asm[22..24]) && Value(asm[22..24]) == b
    ensures var mode, b := opcodes[peek(cpu.programCounter)].mode, peek(Wrap16(cpu.programCounter + 1));
      mode == NoneAddressing ==>
        |asm| >= 20 && asm[20..] == "$" + Hex(BranchTarget(cpu.programCounter, b), 4)
  {
    var op := opcodes[peek(cpu.programCounter)];
    var b := peek(Wrap16(cpu.programCounter + 1));
    var access := MemAccess(op.mode, cpu, peek, resolve);
    OperandAtColumn20(cpu, peek, opcodes, resolve, asm);
    TwoByteOperandOf(op, cpu, peek, resolve);
    var t := OperandOf(op, cpu, peek, resolve);
    TwoByteLead(op, cpu, b, access);
    TwoByteOpening(asm, t, op.mode, b, BranchTarget(cpu.programCounter, b));
  }

  /** The openings of the two-byte operand forms, found at column 20 of the assembly part. */
  lemma TwoByteOpening(asm: string, t: string, mode: AddressingMode, b: u8, target: u16)
    requires |asm| >= 20 && asm[20..] == t
    requires (mode == ZeroPageX || mode == ZeroPageY) ==> "$" + Hex(b, 2) <= t
    requires (mode == IndirectX || mode == IndirectY) ==> "($" + Hex(b, 2) <= t
    requires mode == NoneAddressing ==> t == "$" + Hex(target, 4)
    ensures (mode == ZeroPageX || mode == ZeroPageY) ==>
      && |asm| >= 23 && asm[20..23] == "$" + Hex(b, 2)
      && IsHex(asm[21..23]) && Value(asm[21..23]) == b
    ensures (mode == IndirectX || mode == IndirectY) ==>
      && |asm| >= 24 && asm[20..24] == "($" + Hex(b, 2)
      && IsHex(asm[22..24]) && Value(asm[22..24]) == b
    ensures mode == NoneAddressing ==> asm[20..] == "$" + Hex(target, 4)
  {
    HexFieldLengths(b);
    if mode == ZeroPageX || mode == ZeroPageY {
      LeadAt(asm, t, "$", Hex(b, 2), 21, 23);
      ReadsBack(asm[21..23], b);
    } else if mode == IndirectX || mode == IndirectY {
      LeadAt(asm, t, "($", Hex(b, 2), 22, 24);
      ReadsBack(asm[22..24], b);
    }
  }

  /** The operand text of a two-byte instruction is built from the byte at PC+1. */
  lemma TwoByteOperandOf(op: OpCode, cpu: Cpu, peek: Peek, resolve: Resolver)
    requires op.len == 2 && OperandText(op, cpu, peek, MemAccess(op.mode, cpu, peek, resolve)).Ok?
    ensures TwoByteText(op, cpu, peek(Wrap16(cpu.programCounter + 1)), MemAccess(op.mode, cpu, peek, resolve)).Ok?
    ensures OperandOf(op, cpu, peek, resolve)
         == TwoByteText(op, cpu, peek(Wrap16(cpu.programCounter + 1)), MemAccess(op.mode, cpu, peek, resolve)).value
  {
  }

  /** How the two-byte operand texts open. */
  lemma TwoByteLead(op: OpCode, cpu: Cpu, address: u8, access: (u16, u8))
    ensures (op.mode == ZeroPageX || op.mode == ZeroPageY) ==>
      TwoByteText(op, cpu, address, access).Ok? && "$" + Hex(address, 2) <= TwoByteText(op, cpu, address, access).value
    ensures (op.mode == IndirectX || op.mode == IndirectY) ==>
      TwoByteText(op, cpu, address, access).Ok? && "($" + Hex(address, 2) <= TwoByteText(op, cpu, address, access).value
    ensures op.mode == NoneAddressing ==>
      TwoByteText(op, cpu, address, access) == Ok("$" + Hex(BranchTarget(cpu.programCounter, address), 4))
  {
  }

  lemma ReadsBack(s: string, b: u8)
    requires s == Hex(b, 2)
    ensures IsHex(s) && Value(s) == b
  {
    HexRoundTrip(b, 2);
  }

  /** A text found at column 20 of `asm`, and the digits after its opening mark. */
  lemma LeadAt(asm: string, t: string, mark: string, d: string, lo: nat, hi: nat)
    requires |asm| >= 20 && asm[20..] == t && mark + d <= t
    requires lo == 20 + |mark| && hi == lo + |d|
    ensures |asm| >= hi
    ensures asm[20..hi] == mark + d
    ensures asm[lo..hi] == d
  {
    assert asm[20..20 + |mark| + |d|] == t[..|mark| + |d|];
    assert asm[20 + |mark|..20 + |mark| + |d|] == (mark + d)[|mark|..];
  }

  /** Immediate and implied instructions resolve no address: the resolver cannot affect their line. */
  lemma ImmediateAndImpliedReadNothing(cpu: Cpu, peek: Peek, opcodes: OpTable, resolve: Resolver, other: Resolver)
    requires peek(cpu.programCounter) in opcodes && ReadsNoMemory(opcodes[peek(cpu.programCounter)].mode)
    ensures MemAccess(opcodes[peek(cpu.programCounter)].mode, cpu, peek, resolve) == (0, 0)
    ensures Trace(cpu, peek, opcodes, resolve) == Trace(cpu, peek, opcodes, other)
  {
  }

  /** When the tracer fails, and with which error. */
  lemma TraceOutcome(cpu: Cpu, peek: Peek, opcodes: OpTable, resolve: Resolver)
    ensures var code := peek(cpu.programCounter);
      && (code !in opcodes <==> Trace(cpu, peek, opcodes, resolve) == Err(UnknownOpcode(code)))
      && (Trace(cpu, peek, opcodes, resolve).Ok?
          <==> code in opcodes && Renderable(opcodes[code].len, opcodes[code].mode))
  {
  }

  /** The column chain from the line down to one byte of the hex dump. */
  lemma DumpColumn(line: string, h: string, field: string, dump: string, i: nat)
    requires |h| == 19 && |line| >= 19 && line[..19] == h && h[6..14] == field
    requires |dump| <= 8 && field[..|dump|] == dump && 3 * i + 2 <= |dump|
    ensures line[6 + 3 * i..8 + 3 * i] == dump[3 * i..3 * i + 2]
  {
    SliceOfPrefix(line, h, 6 + 3 * i, 8 + 3 * i);
    SliceOfSlice(h, 6, 14, 3 * i, 3 * i + 2);
    SliceOfPrefix(field, dump, 3 * i, 3 * i + 2);
  }

  /** The first instruction byte is the opcode itself. */
  lemma FirstByte(pc: u16, peek: Peek, len: nat)
    requires len >= 1
    ensures InstructionBytes(pc, peek, len)[0] == peek(pc)
  {
    assert Wrap16(pc + 0) == pc;
  }

  /** The columns of a line that starts with the head of `op`. */
  lemma HeadColumns(cpu: Cpu, peek: Peek, op: OpCode, line: string)
    requires 1 <= op.len <= 3 && |op.mnemonic| <= 4
    requires |line| >= 19 && line[..19] == Head(cpu, peek, op)
    ensures |InstructionBytes(cpu.programCounter, peek, op.len)| == op.len
    ensures forall i | 0 <= i < op.len ::
      line[6 + 3 * i..8 + 3 * i] == Hex(InstructionBytes(cpu.programCounter, peek, op.len)[i], 2)
    ensures InstructionBytes(cpu.programCounter, peek, op.len)[0] == peek(cpu.programCounter)
    ensures line[6..8] == Hex(InstructionBytes(cpu.programCounter, peek, op.len)[0], 2)
    ensures Value(line[6..8]) == peek(cpu.programCounter)
    ensures line[4..6] == "  "
    ensures line[..4] == Hex(cpu.programCounter, 4) && Value(line[..4]) == cpu.programCounter
  {
    var pc := cpu.programCounter;
    var h := Head(cpu, peek, op);
    HeadLayout(cpu, peek, op);
    var bytes := InstructionBytes(pc, peek, op.len);
    var dump := HexDump(bytes);
    HexDumpLayout(bytes);
    var field := PadRight(dump, 8);
    SliceOfPrefix(line, h, 0, 4);
    SliceOfPrefix(line, h, 4, 6);
    forall i | 0 <= i < op.len ensures line[6 + 3 * i..8 + 3 * i] == Hex(bytes[i], 2) {
      DumpColumn(line, h, field, dump, i);
    }
    DumpColumn(line, h, field, dump, 0);
    FirstByte(pc, peek, op.len);
    HexRoundTrip(pc, 4);
    HexRoundTrip(peek(pc), 2);
  }

  /**
    The line starts with the program counter, then after two spaces the
    instruction's bytes, opcode first, one two-digit field per byte read from
    consecutive addresses.
   */
  lemma InstructionColumns(cpu: Cpu, peek: Peek, opcodes: OpTable, resolve: Resolver, line: string)
    requires WellFormed(opcodes)
    requires Trace(cpu, peek, opcodes, resolve) == Ok(line)
    ensures peek(cpu.programCounter) in opcodes && |line| == 73
    ensures 1 <= opcodes[peek(cpu.programCounter)].len <= 3
    ensures forall i | 0 <= i < opcodes[peek(cpu.programCounter)].len ::
      line[6 + 3 * i..8 + 3 * i]
      == Hex(InstructionBytes(cpu.programCounter, peek, opcodes[peek(cpu.programCounter)].len)[i], 2)
    ensures InstructionBytes(cpu.programCounter, peek, opcodes[peek(cpu.programCounter)].len)[0]
      == peek(cpu.programCounter)
    ensures Value(line[6..8]) == peek(cpu.programCounter)
    ensures line[4..6] == "  "
    ensures line[..4] == Hex(cpu.programCounter, 4) && Value(line[..4]) == cpu.programCounter
  {
    LineLayout(cpu, peek, opcodes, resolve);
    AssemblyUnfolds(cpu, peek, opcodes, resolve);
    var op := opcodes[peek(cpu.programCounter)];
    assert 1 <= op.len <= 3 && |op.mnemonic| <= 4;
    assert |line| >= 19 && line[..19] == Head(cpu, peek, op);
    HeadColumns(cpu, peek, op, line);
  }

  /** The dump fields after the opcode read back as the operand bytes at PC+1 and PC+2. */
  lemma OperandBytesShown(cpu: Cpu, peek: Peek, opcodes: OpTable, resolve: Resolver, line: string)
    requires WellFormed(opcodes)
    requires Trace(cpu, peek, opcodes, resolve) == Ok(line)
    ensures peek(cpu.programCounter) in opcodes
    ensures opcodes[peek(cpu.programCounter)].len >= 2 ==>
      |line| >= 11 && IsHex(line[9..11]) && Value(line[9..11]) == peek(Wrap16(cpu.programCounter + 1))
    ensures opcodes[peek(cpu.programCounter)].len == 3 ==>
      |line| >= 14 && IsHex(line[12..14]) && Value(line[12..14]) == peek(Wrap16(cpu.programCounter + 2))
  {
    InstructionColumns(cpu, peek, opcodes, resolve, line);
    OperandColumns(line, cpu.programCounter, peek, opcodes[peek(cpu.programCounter)].len);
  }

  /** The dump fields after the opcode read back as the bytes at PC+1 and PC+2. */
  lemma OperandColumns(line: string, pc: u16, peek: Peek, len: nat)
    requires 1 <= len <= 3 && |line| >= 19
    requires forall i | 0 <= i < len :: line[6 + 3 * i..8 + 3 * i] == Hex(InstructionBytes(pc, peek, len)[i], 2)
    ensures len >= 2 ==> IsHex(line[9..11]) && Value(line[9..11]) == peek(Wrap16(pc + 1))
    ensures len == 3 ==> IsHex(line[12..14]) && Value(line[12..14]) == peek(Wrap16(pc + 2))
  {
    var bytes := InstructionBytes(pc, peek, len);
    if len >= 2 {
      FieldReadsBack(line, bytes, 1, peek(Wrap16(pc + 1)), 9);
    }
    if len == 3 {
      FieldReadsBack(line, bytes, 2, peek(Wrap16(pc + 2)), 12);
    }
  }

  /** Dump field `i`, at column `lo`, reads back as instruction byte `i`. */
  lemma FieldReadsBack(line: string, bytes: seq<u8>, i: nat, v: u8, lo: nat)
    requires i < |bytes| && bytes[i] == v && lo == 6 + 3 * i
    requires |line| >= lo + 2 && line[lo..lo + 2] == Hex(bytes[i], 2)
    ensures IsHex(line[lo..lo + 2]) && Value(line[lo..lo + 2]) == v
  {
    HexRoundTrip(v, 2);
  }

  lemma OneByteTail(code: u8)
    ensures TrimEnd(" " + OneByteText(code)) == if IsAccumulatorOp(code) then " A" else ""
  {
    if IsAccumulatorOp(code) {
      assert " " + OneByteText(code) == " A ";
      TrimEndUnique(" A ", 2);
    } else {
      assert " " + OneByteText(code) == " ";
      TrimEndUnique(" ", 0);
    }
  }

  /**
    One-byte instructions: the four accumulator shifts and rotates show the
    operand `A`, every other one-byte instruction shows no operand.
   */
  lemma OneByteRendering(cpu: Cpu, peek: Peek, opcodes: OpTable, resolve: Resolver)
    requires WellFormed(opcodes)
    requires peek(cpu.programCounter) in opcodes && opcodes[peek(cpu.programCounter)].len == 1
    ensures IsAccumulatorOp(peek(cpu.programCounter)) ==>
      Assembly(cpu, peek, opcodes, resolve) == Ok(Head(cpu, peek, opcodes[peek(cpu.programCounter)]) + " A")
    ensures !IsAccumulatorOp(peek(cpu.programCounter)) ==>
      Assembly(cpu, peek, opcodes, resolve) == Ok(Head(cpu, peek, opcodes[peek(cpu.programCounter)]))
  {
    var op := opcodes[peek(cpu.programCounter)];
    assert Assembly(cpu, peek, opcodes, resolve).Ok?;
    AssemblyShape(cpu, peek, opcodes, resolve);
    assert OperandOf(op, cpu, peek, resolve) == OneByteText(op.code);
    OneByteTail(op.code);
    var h := Head(cpu, peek, op);
    assert h + "" == h;
  }

  // ----- The two reference lines -----

  lemma SingleByte(pc: u16, peek: Peek)
    ensures InstructionBytes(pc, peek, 1) == [peek(pc)]
  {
    FirstByte(pc, peek, 1);
  }

  lemma TwoBytes(pc: u16, peek: Peek)
    requires pc < 0xFFFF
    ensures InstructionBytes(pc, peek, 2) == [peek(pc), peek(pc + 1)]
  {
    FirstByte(pc, peek, 2);
    assert Wrap16(pc + 1) == pc + 1;
  }

  /** The head, assembled from already computed pieces. */
  lemma HeadIs(cpu: Cpu, peek: Peek, op: OpCode, pcText: string, dumpText: string, mnemonicText: string)
    requires Hex(cpu.programCounter, 4) == pcText
    requires PadRight(HexDump(InstructionBytes(cpu.programCounter, peek, op.len)), 8) == dumpText
    requires PadLeft(op.mnemonic, 4) == mnemonicText
    ensures Head(cpu, peek, op) == pcText + "  " + dumpText + " " + mnemonicText
  {
  }

  lemma DeyHead(peek: Peek, op: OpCode)
    requires peek(0x0067) == 0x88 && op == OpCode(0x88, "DEY", 1, NoneAddressing)
    ensures Head(Cpu(1, 0, 3, 0x26, 0xFD, 0x0067), peek, op) == "0067  88        DEY"
  {
    SingleByte(0x0067, peek);
    assert PadRight(HexDump([0x88]), 8) == "88      " by { assert Hex(0x88, 2) == "88"; }
    assert Hex(0x0067, 4) == "0067";
    assert PadLeft("DEY", 4) == " DEY";
    HeadIs(Cpu(1, 0, 3, 0x26, 0xFD, 0x0067), peek, op, "0067", "88      ", " DEY");
    DeyHeadText();
  }

  lemma DeyHeadText()
    ensures "0067" + "  " + "88      " + " " + " DEY" == "0067  88        DEY"
  {
  }

  lemma DeyRegisters()
    ensures RegisterSuffix(Cpu(1, 0, 3, 0x26, 0xFD, 0x0067)) == " A:01 X:00 Y:03 P:26 SP:FD"
  {
    var a, x, y, p, sp := Field(" A:", 1), Field(" X:", 0), Field(" Y:", 3), Field(" P:", 0x26), Field(" SP:", 0xFD);
    assert a == " A:01";
    assert x == " X:00";
    assert y == " Y:03";
    assert p == " P:26";
    assert sp == " SP:FD";
    assert a + x == " A:01 X:00";
    assert a + x + y == " A:01 X:00 Y:03";
    assert a + x + y + p == " A:01 X:00 Y:03 P:26";
  }

  lemma DeyPadding()
    ensures PadRight("0067  88        DEY", AssemblyWidth) == "0067  88        DEY" + "                            "
  {
  }

  lemma DeyPaddingText()
    ensures "0067  88        DEY" + "                            " == "0067  88        DEY                            "
  {
  }

  lemma DeyLineText()
    ensures "0067  88        DEY                            " + " A:01 X:00 Y:03 P:26 SP:FD"
         == "0067  88        DEY                             A:01 X:00 Y:03 P:26 SP:FD"
  {
  }

  /** The reference line for `DEY` at 0x0067, after `LDX #$01` and `DEX`, with A = 1 and Y = 3. */
  lemma ScenarioDey(peek: Peek, opcodes: OpTable, resolve: Resolver)
    requires WellFormed(opcodes)
    requires peek(0x0067) == 0x88 && 0x88 in opcodes && opcodes[0x88] == OpCode(0x88, "DEY", 1, NoneAddressing)
    ensures Trace(Cpu(1, 0, 3, 0x26, 0xFD, 0x0067), peek, opcodes, resolve)
         == Ok("0067  88        DEY                             A:01 X:00 Y:03 P:26 SP:FD")
  {
    var cpu := Cpu(1, 0, 3, 0x26, 0xFD, 0x0067);
    var op := opcodes[0x88];
    OneByteRendering(cpu, peek, opcodes, resolve);
    assert !IsAccumulatorOp(peek(cpu.programCounter));
    DeyHead(peek, op);
    assert Assembly(cpu, peek, opcodes, resolve) == Ok("0067  88        DEY");
    DeyRegisters();
    TraceUnfolds(cpu, peek, opcodes, resolve);
    DeyPadding();
    DeyPaddingText();
    DeyLineText();
  }

  lemma OraHead(peek: Peek, op: OpCode)
    requires peek(0x0064) == 0x11 && peek(0x0065) == 0x33 && op == OpCode(0x11, "ORA", 2, IndirectY)
    ensures Head(Cpu(0, 0, 0, 0x24, 0xFD, 0x0064), peek, op) == "0064  11 33     ORA"
  {
    TwoBytes(0x0064, peek);
    assert HexDump([0x11, 0x33]) == "11 33" by {
      assert [0x11, 0x33][1..] == [0x33];
      assert Hex(0x11, 2) == "11";
      assert Hex(0x33, 2) == "33";
    }
    assert PadRight("11 33", 8) == "11 33   ";
    assert Hex(0x0064, 4) == "0064";
    assert PadLeft("ORA", 4) == " ORA";
    HeadIs(Cpu(0, 0, 0, 0x24, 0xFD, 0x0064), peek, op, "0064", "11 33   ", " ORA");
    OraHeadText();
  }

  lemma OraHeadText()
    ensures "0064" + "  " + "11 33   " + " " + " ORA" == "0064  11 33     ORA"
  {
  }

  lemma OraOperand(op: OpCode, cpu: Cpu)
    requires op.mode == IndirectY && cpu.registerY == 0
    ensures TwoByteText(op, cpu, 0x33, (0x0400, 0xAA)) == Ok("($33),Y = 0400 @ 0400 = AA")
  {
    assert Wrap16(0x0400 - 0) == 0x0400;
    assert Hex(0x33, 2) == "33";
    assert Hex(0x0400, 4) == "0400";
    assert Hex(0xAA, 2) == "AA";
    OraOperandText();
  }

  lemma OraOperandText()
    ensures "($" + "33" + "),Y = " + "0400" + " @ " + "0400" + " = " + "AA" == "($33),Y = 0400 @ 0400 = AA"
  {
  }

  lemma OraRegisters()
    ensures RegisterSuffix(Cpu(0, 0, 0, 0x24, 0xFD, 0x0064)) == " A:00 X:00 Y:00 P:24 SP:FD"
  {
    var a, x, y, p, sp := Field(" A:", 0), Field(" X:", 0), Field(" Y:", 0), Field(" P:", 0x24), Field(" SP:", 0xFD);
    assert a == " A:00";
    assert x == " X:00";
    assert y == " Y:00";
    assert p == " P:24";
    assert sp == " SP:FD";
    assert a + x == " A:00 X:00";
    assert a + x + y == " A:00 X:00 Y:00";
    assert a + x + y + p == " A:00 X:00 Y:00 P:24";
  }

  lemma OraTail()
    ensures TrimEnd(" " + "($33),Y = 0400 @ 0400 = AA") == " ($33),Y = 0400 @ 0400 = AA"
  {
    assert " " + "($33),Y = 0400 @ 0400 = AA" == " ($33),Y = 0400 @ 0400 = AA";
  }

  lemma OraAssemblyText()
    ensures "0064  11 33     ORA" + " ($33),Y = 0400 @ 0400 = AA" == "0064  11 33     ORA ($33),Y = 0400 @ 0400 = AA"
  {
  }

  lemma OraPadding()
    ensures PadRight("0064  11 33     ORA ($33),Y = 0400 @ 0400 = AA", AssemblyWidth)
         == "0064  11 33     ORA ($33),Y = 0400 @ 0400 = AA "
  {
  }

  lemma OraLineText()
    ensures "0064  11 33     ORA ($33),Y = 0400 @ 0400 = AA " + " A:00 X:00 Y:00 P:24 SP:FD"
         == "0064  11 33     ORA ($33),Y = 0400 @ 0400 = AA  A:00 X:00 Y:00 P:24 SP:FD"
  {
  }

  /**
    The reference line for `ORA ($33),Y` at 0x0064 with Y = 0, where the
    effective address the resolver gives is 0x0400 and memory there holds 0xAA.
   */
  lemma ScenarioOraIndirectY(peek: Peek, opcodes: OpTable, resolve: Resolver)
    requires WellFormed(opcodes)
    requires peek(0x0064) == 0x11 && peek(0x0065) == 0x33 && peek(0x0400) == 0xAA
    requires 0x11 in opcodes && opcodes[0x11] == OpCode(0x11, "ORA", 2, IndirectY)
    requires resolve(IndirectY, 0x0065) == 0x0400
    ensures Trace(Cpu(0, 0, 0, 0x24, 0xFD, 0x0064), peek, opcodes, resolve)
         == Ok("0064  11 33     ORA ($33),Y = 0400 @ 0400 = AA  A:00 X:00 Y:00 P:24 SP:FD")
  {
    var cpu := Cpu(0, 0, 0, 0x24, 0xFD, 0x0064);
    var op := opcodes[0x11];
    assert Wrap16(0x0064 + 1) == 0x0065;
    assert MemAccess(op.mode, cpu, peek, resolve) == (0x0400, 0xAA);
    OraOperand(op, cpu);
    assert OperandOf(op, cpu, peek, resolve) == "($33),Y = 0400 @ 0400 = AA";
    assert Assembly(cpu, peek, opcodes, resolve).Ok?;
    AssemblyShape(cpu, peek, opcodes, resolve);
    OraHead(peek, op);
    OraTail();
    OraAssemblyText();
    assert Assembly(cpu, peek, opcodes, resolve) == Ok("0064  11 33     ORA ($33),Y = 0400 @ 0400 = AA");
    OraRegisters();
    TraceUnfolds(cpu, peek, opcodes, resolve);
    OraPadding();
    OraLineText();
  }
}
