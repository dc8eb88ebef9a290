# NES tracer and PPU state, modelled in Dafny

This project models two small parts of an NES emulator:

- **The CPU execution tracer** (`trace` in `src/trace.rs`). It is a pure function from a register snapshot and a side-effect-free view of memory to one fixed-column log line. The line holds:
  - the program counter;
  - the instruction bytes, opcode first;
  - the right-aligned mnemonic;
  - an operand text that depends on the addressing mode;
  - after padding to column 47, the register suffix ` A:.. X:.. Y:.. P:.. SP:..`.
- **The PPU state object** (`NesPPU` in `src/ppu/mod.rs`). It holds three fixed-size memories (VRAM, OAM, palette), the cartridge's pattern data, the mirroring mode and the two-phase address latch. Its constructor zeroes the memories. Its address-port write feeds only the latch.

Files:

- `wrappers.dfy`: `Option` and `Result`.
- `bytes.dfy`: the `u8` and `u16` ranges and 16-bit wrap-around (`Wrap16`).
- `text.dfy`: the parts of Rust's `format!` and `str::trim` that the tracer uses, written out and proved:
  - upper-case hex with a minimum width, which is never truncated;
  - left and right padding;
  - trimming with Rust's whitespace set, and reading hex digits back.
- `trace.dfy`: the tracer (`Trace.Trace`) and its properties.
- `ppu.dfy`: the class `Ppu.NesPpu` with array fields and the latch `Ppu.AddrRegister`.

The tracer takes three things from outside, as parameters:

- the opcode table, a `map` from opcode byte to (code, mnemonic, length, mode);
- the memory peek, a total function `u16 -> u8`;
- the CPU's effective-address resolver, a function from (mode, operand location) to address.

The result is a `Result`. The `unwrap` on the opcode lookup becomes `Err(UnknownOpcode(code))`. An entry whose length and mode cannot be rendered also gives an error value.

The draft in `src/trace.rs` stops after the start of the two-byte arm. The model completes it with the operand formats of the reference trace log. The two asserted lines in the file's tests (src/trace.rs:60 and src/trace.rs:87) fix only two of these formats: a one-byte instruction without operand, and the Indirect,Y form. No assertion backs the Immediate, ZeroPage, ZeroPage,X/Y, Absolute, Absolute,X/Y, Indirect,X, branch or `JMP` formats. The way the tracer draws on memory is exactly the one the draft sets up:

- Immediate and implied modes give the pair (0, 0).
- Every other mode resolves the address from the location after the opcode and peeks there.
- The accumulator shifts and rotates show `A `.
- A two-byte instruction reads its operand byte at PC+1.

`NesPPU::new` in the source does not set `addr`. The model's constructor sets it to a fresh latch: address 0, expecting the high byte.

## Model

| member | source | states |
|---|---|---|
| `Trace.Trace` | src/trace.rs:7-32 | The whole line: the assembly part padded to 47 columns, then the register suffix. Its properties are stated by `Trace.TraceOutcome`, `Trace.LineLayout`, `Trace.RegistersReported`, `Trace.InstructionColumns`, `Trace.OperandBytesShown` and the two scenario lemmas. |
| `Trace.Assembly` | src/trace.rs:8-31 | An unknown opcode gives `Err(UnknownOpcode)`. Otherwise the result is the opcode's head and operand text, trimmed. Its properties are stated by `Trace.AssemblyShape`, `Trace.AssemblyFits`, `Trace.OperandAtColumn20` and `Trace.StoredValueShown`. |
| `Trace.MemAccess` | src/trace.rs:15-21 | Immediate and implied modes give (0, 0). Every other mode gives the resolver's address for location PC+1 and the byte stored there. Its properties are stated by `Trace.ImmediateAndImpliedReadNothing` and `Trace.StoredValueShown`. |
| `Trace.InstructionBytes` | src/trace.rs:11-13 | The instruction's bytes, opcode first, byte i read at PC+i with 16-bit wrap-around. Its properties are stated by `Trace.FirstByte`, `Trace.InstructionColumns` and `Trace.OperandBytesShown`. |
| `Trace.HexDump` | src/trace.rs:12-13 | The bytes as two-digit hex, separated by spaces. Its layout is stated by `Trace.HexDumpLayout`. |
| `Trace.Head` | src/trace.rs:9-13 | The PC, the hex dump padded to 8 columns and the mnemonic right-aligned in 4. Its 19-column layout is stated by `Trace.HeadLayout` and `Trace.HeadColumns`. |
| `Trace.OperandText` | src/trace.rs:23-31 | Picks the one-, two- or three-byte form by the instruction length. Any other length gives `Err(UnexpectedLength)`. Properties: `Trace.OperandTextLength`, `Trace.OperandEndsSolid`, `Trace.OperandShowsValue`. |
| `Trace.TwoByteText` | src/trace.rs:28-30 | The two-byte operand forms, built from the byte at PC+1. A mode with no two-byte form gives `Err(UnexpectedMode)`. Properties: `Trace.TwoByteLead`, `Trace.TwoByteTextShowsValue`, `Trace.TwoByteTextLength`. |
| `Trace.ThreeByteText` | src/trace.rs:23-31 | The three-byte operand forms, built from the little-endian word at PC+1. A mode with no three-byte form gives `Err(UnexpectedMode)`. Properties: `Trace.ThreeByteTextShowsValue`, `Trace.ThreeByteTextLength`. |
| `Trace.RegisterSuffix` | src/trace.rs:59-62 | The fields ` A:`, ` X:`, ` Y:`, ` P:` and ` SP:`, each followed by two hex digits. The inverse parse is stated by `Trace.SuffixRoundTrip`. |
| `Trace.TwoByteOperandShown` | src/trace.rs:28-29 | For a two-byte instruction, the byte at PC+1 opens the ZeroPage,X/Y form (`$` and two digits) and the Indirect,X/Y form (`($` and two digits), at column 20, and those digits read back as that byte. A branch shows `$` and the target PC + 2 + the signed byte, in 4 digits. |
| `Trace.OperandBytesShown` | src/trace.rs:12-13 | On every line, dump field 1 (columns 9-10) reads back as the byte at PC+1 when the instruction has two or more bytes. Field 2 (columns 12-13) reads back as the byte at PC+2 for three-byte instructions. |
| `Trace.OperandAtColumn20` | src/trace.rs:23-31 | For a multi-byte instruction, trimming removes nothing. The assembly part is the 19-column head, a space, and the whole operand text from column 20 on. |
| `Trace.ScenarioDey` | src/trace.rs:59-62 | For DEY at 0x0067 with A=1, X=0, Y=3, P=0x26, SP=0xFD, the tracer returns exactly the asserted line. |
| `Trace.ScenarioOraIndirectY` | src/trace.rs:86-89 | For `ORA ($33),Y` at 0x0064 with Y=0, the resolver giving 0x0400 for the Indirect,Y operand at 0x0065, and 0xAA at 0x0400, the tracer returns exactly the asserted line. |
| `Trace.InstructionColumns` | src/trace.rs:9-13 | Every line is 73 columns wide and starts with the PC in 4 hex digits, which read back as the PC; two spaces follow. Then comes one 2-digit field per instruction byte (byte i is read at PC+i), and the first field reads back as the opcode byte at the PC. |
| `Trace.HexDumpLayout` | src/trace.rs:12-13 | The dump of n bytes has 3n-1 characters. Byte i is at columns 3i to 3i+1 as two hex digits, with single spaces between bytes. |
| `Trace.ImmediateAndImpliedReadNothing` | src/trace.rs:15-16 | For Immediate and implied modes, the (address, value) pair is (0, 0), and the line does not depend on the resolver at all. |
| `Trace.StoredValueShown` | src/trace.rs:17-20 | For every mode that addresses memory, the assembly part ends with ` = ` and two digits. They read back as the byte at the address the resolver gives for that mode and location PC+1. |
| `Trace.OperandShowsValue` | src/trace.rs:17-20 | The operand text of every memory mode ends with ` = ` and the byte stored at the effective address. |
| `Trace.OneByteRendering` | src/trace.rs:24-27 | A one-byte instruction renders as the head followed by ` A` for opcodes 0x0a, 0x4a, 0x2a and 0x6a. Any other one-byte instruction renders as the head alone, with no operand. |
| `Trace.ImmediateOperandShown` | src/trace.rs:28-29 | A two-byte Immediate instruction shows `#$` followed by the byte read at PC+1, at the end of the assembly part. |
| `Trace.TraceOutcome` | src/trace.rs:9-10 | The tracer fails with `UnknownOpcode` exactly when the opcode byte has no table entry. It succeeds exactly when the entry's length and mode can be rendered. |
| `Trace.AssemblyShape` | src/trace.rs:23-31 | Trimming keeps the 19-column head (PC, dump, mnemonic) whole and removes only trailing blanks from the operand. |
| `Trace.AssemblyFits` | src/trace.rs:86-89 | The assembly part always has at least 19 and at most 46 columns, so padding to column 47 never truncates it. |
| `Trace.LineLayout` | src/trace.rs:59-62 | A line is the assembly part padded to 47 columns followed by the 26-column register suffix, 73 columns in all. |
| `Trace.RegistersReported` | src/trace.rs:7-32 | Whatever the instruction, the first 47 columns are the padded assembly part. From column 47 on, reading the suffix back yields the snapshot's A, X, Y, P and SP unchanged (the snapshot is only read). |
| `Trace.SuffixRoundTrip` | src/trace.rs:59-62 | The register suffix is 26 columns wide, and parsing it gives back exactly the five register values. |
| `Trace.OperandTextLength` | src/trace.rs:23-31 | No operand text is wider than 26 characters, the width of the Indirect,Y form. |
| `Ppu.NesPpu.constructor` | src/ppu/mod.rs:11-19 | The constructor creates a VRAM of 2048 bytes, an OAM of 256 bytes and a palette of 32 bytes, all new arrays with every byte 0. It stores the given pattern data and mirroring, both fixed for the object's life, and resets the latch. The invariant `Valid` holds: fixed sizes, and a latch address within 0x3FFF. |
| `Ppu.NesPpu.WriteToPpuAddr` | src/ppu/mod.rs:21-23 | The new latch is the old latch updated with exactly the written byte. VRAM, OAM and palette are unchanged; the pattern data and mirroring are constant fields. `Valid` is kept, so the latch stays within 0x3FFF. |
| `Ppu.AddrRegister.Update` | src/ppu/mod.rs:22 | One write flips the high/low phase. It stores the byte in the half the phase selects and keeps the address within 0x3FFF. |

## Left out

- The opcode table, the CPU's `mem_read` and `get_absolute_address` are parameters. `src/cpu.rs` and `src/opcodes.rs` are not part of this model. `WellFormed` states only what every real table entry satisfies: its own code as key, and a 1-4 letter mnemonic that does not end in a blank.
- The operand formats of the unfinished arms come from the reference trace format. The draft has no code for them.
  - Absolute,X and Absolute,Y show the operand word, which is the effective address minus the index under the real CPU resolver.
  - Indirect,Y shows the effective address minus Y, wrapped to 16 bits.
  - A two-byte implied instruction (a branch) shows its target, wrapped to 16 bits.
  - An indirect `JMP` (0x6c) shows `($AAAA)`.
- A conformance log would want a placeholder line for an unknown opcode, but the code only unwraps. The model returns `Err(UnknownOpcode)` and invents no format.
- `begin + 1` at PC 0xFFFF would panic in a Rust debug build. The model wraps it to 0x0000, as a release build does.
- `Trace.AssemblyShape`: it requires the well-formed table described above, which the static opcode table always is. The same holds for `Trace.AssemblyFits`, `Trace.LineLayout`, `Trace.RegistersReported`, `Trace.StoredValueShown`, `Trace.ImmediateOperandShown`, `Trace.TwoByteOperandShown`, `Trace.OperandAtColumn20`, `Trace.InstructionColumns`, `Trace.OperandBytesShown`, `Trace.OneByteRendering`, `Trace.ScenarioDey` and `Trace.ScenarioOraIndirectY`.
- Strings are sequences of characters. There is no UTF-8 encoding and no case mapping. The tracer only produces ASCII.
- `Ppu.AddrRegister.Update` masks after every write, not only after the second byte of a pair. The address after a full high-low pair is the same. `AddrRegister` is defined outside `src/ppu/mod.rs`, so it is modelled only as far as `write_to_ppu_addr` needs it: a two-phase latch masked to 0x3FFF.
- OAM behaviour, rendering, nametable mirroring, buffered reads, CHR-ROM loading, the bus, `run_with_callback` and instruction execution are left out. None of them is part of `src/ppu/mod.rs` or `trace`. The register values of the two scenarios are taken as given, not computed by running the test programs.
