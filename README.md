# A Game Boy CPU, memory bus and picture unit in Dafny

This project models the core of a small Game Boy emulator written in Go:

- the `Register` file and its instruction methods (cpu.go);
- the `Memory` bus with its seven backing arrays (memory.go);
- the `Gpu` mode machine, background scanline, palette and LCD-control decode (gpu.go).

Each Go method that updates its receiver in place (a `*Register`, `*Memory` or `*Gpu` receiver) is a Dafny
method of a class with the same fields. Examples are `Cpu.Register`,
`MemoryUnit.Memory` and `Graphics.Gpu`. Each such method is proved
against a value-level function that says what the operation computes:

- `Instructions` for the register file;
- `AddressSpace` for the memory bus;
- `Video` for the picture unit.

The properties of each operation are proved about those functions.
Examples are exact arithmetic mod 2^8 and 2^16, which flag bits change,
round trips and invariants. Quirks of the Go code are kept and stated
outright, for example:

- `subn` never sets N;
- `swapn` always sets Z;
- `incn` stores 1 whatever the register held;
- `writeByte`'s region bounds differ from `readByte`'s.

Four places where the code evidently does not do what it means are
listed under Findings. Each one has both a member that exhibits the
defect and a corrected version with its intended property proved.

Modules:

- `Bits`: bytes and words as bounded integers. It has Go's `hasBit`, the complement `^x`, and `&`, `|` and `^` (exclusive or) on bytes, and words as two bytes.
- `AddressSpace`: a `Memory` value; `readByte`, `writeByte`, `readWord` and `writeWord`; the memory map as a table.
- `MemoryUnit`: the `Memory` struct as seven arrays updated in place.
- `Instructions`: the register file as a value and one function per cpu.go method.
- `Cpu`: class `Register` with one method per cpu.go method.
- `Video`: the timing machine, background addressing, palette and LCD control as values.
- `Graphics`: class `Gpu` with the frame buffer.

A `Memory` passed by value in Go is a copy that the callee may change and
then drops. The model passes an `AddressSpace.Mem` value. Where the Go code
writes to such a copy, the write reaches only a local value, or the copy
that the method returns.

## Model

| member | source | states |
|---|---|---|
| Instructions.SetFlag | cpu.go:22-28 | bit `position` of the flag byte becomes `value`, every other bit keeps its value, and a position of 8 or more changes nothing |
| Instructions.SetFlagIdempotent | cpu.go:22-28 | setting a flag twice to the same value is the same as setting it once |
| Bits.HasBit | cpu.go:30-33 | `hasBit` holds only below bit 16, where the uint16 mask is non-zero, and only for a non-zero n |
| Bits.HasBitIsDigit | cpu.go:30-33 | `hasBit(n, pos)` holds exactly when binary digit `pos` of n is 1 |
| Cpu.Register.constructor | cpu.go:5-16 | the zero value of the struct: every register, the flags, SP and PC are 0 |
| Cpu.Register.SetRegisterFlag | cpu.go:22-28 | the flag byte becomes `SetFlag` of the old one; nothing else changes |
| Cpu.Register.Write | cpu.go:57-66 | assignment through the `reg_map` entry a register name selects changes that register and nothing else |
| Instructions.LdNnn | cpu.go:39-54 | B, C, D, E, H or L becomes the value and no other register changes; "A" matches no case and changes nothing |
| Cpu.Register.LdNnn | cpu.go:39-54 | the new register file is `Instructions.LdNnn` of the old one |
| Instructions.LdR1R2 | cpu.go:56-67 | the destination gets the source's value and no other register changes |
| Cpu.Register.LdR1R2 | cpu.go:56-67 | the new register file is `Instructions.LdR1R2` of the old one |
| Instructions.LdAn | cpu.go:69-71 | A becomes the value and nothing else changes |
| Cpu.Register.LdAn | cpu.go:69-71 | the new register file is `Instructions.LdAn` of the old one |
| Instructions.LdAC | cpu.go:73-75 | A becomes io[C] of the memory and nothing else changes |
| Cpu.Register.LdAC | cpu.go:73-75 | the new register file is `Instructions.LdAC` of the old one |
| Instructions.IoIndexMatchesReadByte | cpu.go:73-75 | for an index below 0x80, ldAC and ldhAn read what `readByte(0xFF00 + index)` reads |
| Cpu.Register.LdCA | cpu.go:77-79 | the callee's copy gets io[C] = A and every other io cell and region unchanged; the registers are untouched |
| Instructions.LddAHL | cpu.go:81-87 | A becomes `readByte(HL)` and HL becomes HL - 1 with 0 wrapping to 0xFFFF; nothing else changes |
| Cpu.Register.LddAHL | cpu.go:81-87 | the new register file is `Instructions.LddAHL` of the old one |
| Instructions.LddAHLExample | instructions_test.go:64-81 | H = 2, L = 1 with 10 stored at 513 gives A = 10, H = 2, L = 0 |
| Instructions.LddHLA | cpu.go:89-95 | HL becomes HL - 1 with uint16 wrap; nothing else in the register file changes |
| Cpu.Register.LddHLA | cpu.go:89-95 | the new register file is `Instructions.LddHLA` of the old one; the store goes only to the callee's copy |
| Instructions.LdiAHL | cpu.go:97-103 | A becomes `readByte(HL)` and HL becomes HL + 1 with 0xFFFF wrapping to 0; nothing else changes |
| Cpu.Register.LdiAHL | cpu.go:97-103 | the new register file is `Instructions.LdiAHL` of the old one |
| Instructions.LdiAHLExample | instructions_test.go:102-119 | H = 2, L = 1 with 10 stored at 513 gives A = 10, H = 2, L = 2 |
| Instructions.LdiHLA | cpu.go:105-111 | HL becomes HL + 1; nothing else in the register file changes |
| Cpu.Register.LdiHLA | cpu.go:105-111 | the new register file is `Instructions.LdiHLA` of the old one |
| Cpu.Register.LdhnA | cpu.go:113-115 | the callee's copy gets io[value] = A and every other cell unchanged; the registers are untouched |
| Instructions.LdhAn | cpu.go:117-119 | A becomes io[value] and nothing else changes |
| Cpu.Register.LdhAn | cpu.go:117-119 | the new register file is `Instructions.LdhAn` of the old one |
| Instructions.LdNnn16 | cpu.go:125-141 | BC, DE, HL or SP takes the value (high byte in the first register), every other pair, A, the flags and PC are kept, and "AF" changes nothing |
| Cpu.Register.LdNnn16 | cpu.go:125-141 | the new register file is `Instructions.LdNnn16` of the old one |
| Instructions.LoadOverwrites | cpu.go:125-141 | a second ldnnn16 into the same pair overwrites the first |
| Instructions.LoadOwnValue | cpu.go:125-141 | loading a pair with its own value changes nothing |
| Instructions.LdSPHL | cpu.go:143-146 | SP becomes HL and nothing else changes |
| Cpu.Register.LdSPHL | cpu.go:143-146 | the new register file is `Instructions.LdSPHL` of the old one |
| Instructions.LdHLSPn | cpu.go:148-170 | HL becomes SP + value mod 2^16; Z and N are cleared; H is the carry out of bit 3; C is set when the wrapped sum exceeds 0xFF; bits 0-3 and every other register are kept |
| Cpu.Register.LdHLSPn | cpu.go:148-170 | the new register file is `Instructions.LdHLSPn` of the old one |
| Cpu.Register.LdnnSP | cpu.go:172-174 | the callee's copy holds SP as a word at `value` wherever both bytes read back, and every other address reads as before; the registers are untouched |
| Instructions.PushValue | cpu.go:177-192 | the pushed word has the pair's first register as high byte and its second as low byte; "AF" uses A and B; "SP" pushes 0 |
| Instructions.PushNn | cpu.go:176-195 | SP becomes SP - 2 mod 2^16 and nothing else in the register file changes |
| Cpu.Register.PushNn | cpu.go:176-195 | the new register file is `Instructions.PushNn` of the old one |
| Instructions.PopNn | cpu.go:197-215 | the pair's first register gets `readByte(SP)` and its second `readByte(SP + 1)`; SP rises by 2; every other register, the flags and PC are kept |
| Cpu.Register.PopNn | cpu.go:197-215 | the new register file is `Instructions.PopNn` of the old one |
| Instructions.PushThenPop | cpu.go:176-215 | push then pop restores SP and reloads the pair from the two bytes below the old SP |
| Instructions.PushThenPopMissesWrite | cpu.go:193-199 | even if the push's write were kept, the pop after it loads 0 into B and C for BC = 0x1234 pushed at SP = 0xD000 into blank memory |
| Instructions.PushIntended | cpu.go:176-195 | the corrected push: its registers are those of pushnn, and its memory changes only at the two bytes of the new stack top |
| Instructions.PopIntended | cpu.go:197-215 | the corrected pop: the first register gets the byte at SP + 1 and the second the byte at SP; SP rises by 2; nothing else changes |
| Instructions.PushThenPopIntended | cpu.go:176-215 | with the corrected push and pop, a pop right after a push restores the whole register file wherever the stack bytes read back |
| Instructions.AddAn | cpu.go:221-238 | A becomes A + value mod 256; C iff A + value > 0xFF; H iff the low nibbles sum past 0xF; N cleared; Z and bits 0-3 kept |
| Cpu.Register.AddAn | cpu.go:221-238 | the new register file is `Instructions.AddAn` of the old one |
| Instructions.AddcAn | cpu.go:240-245 | A becomes A + value + carry mod 256, and the flags are those of adding the byte-wrapped operand |
| Cpu.Register.AddcAn | cpu.go:240-245 | the new register file is `Instructions.AddcAn` of the old one |
| Instructions.AddcAnIsAddAn | cpu.go:240-245 | with C set addcAn is addAn of (value + 1) mod 256, and otherwise it is addAn of value |
| Instructions.SubN | cpu.go:247-272 | A becomes A - value mod 256; C iff value > A; Z set when A == value and otherwise kept; N always cleared; H by the addition nibble test; bits 0-3 kept |
| Instructions.SubFlags | cpu.go:249-271 | the flag byte subn computes: the same C, Z, N and H facts on the flag byte alone |
| Cpu.Register.SubN | cpu.go:247-272 | the new register file is `Instructions.SubN` of the old one |
| Instructions.SbcAn | cpu.go:274-279 | A becomes A - value - carry mod 256, and the flags are those of subtracting the byte-wrapped operand |
| Cpu.Register.SbcAn | cpu.go:274-279 | the new register file is `Instructions.SbcAn` of the old one |
| Instructions.SbcAnIsSubN | cpu.go:274-279 | with C set sbcAn is subn of (value + 1) mod 256, and otherwise it is subn of value |
| Instructions.AndN | cpu.go:281-294 | A becomes A & value; Z set on a zero result and otherwise kept; N and C cleared; H set |
| Cpu.Register.AndN | cpu.go:281-294 | the new register file is `Instructions.AndN` of the old one |
| Instructions.OrN | cpu.go:296-309 | A becomes A \| value; Z set on a zero result and otherwise kept; N, H and C cleared |
| Cpu.Register.OrN | cpu.go:296-309 | the new register file is `Instructions.OrN` of the old one |
| Instructions.XorN | cpu.go:311-324 | A becomes A ^ value; Z set on a zero result and otherwise kept; N, H and C cleared |
| Cpu.Register.XorN | cpu.go:311-324 | the new register file is `Instructions.XorN` of the old one |
| Instructions.CpN | cpu.go:326-330 | A is kept; C iff value > A; Z set when A == value and otherwise kept; N cleared |
| Cpu.Register.CpN | cpu.go:326-330 | the new register file is `Instructions.CpN` of the old one |
| Instructions.CpNIsSubNFlags | cpu.go:326-330 | cpn is subn with A put back |
| Instructions.IncN | cpu.go:332-365 | the named register becomes 1 whatever it held; C and N cleared; Z kept; H iff the register is not A and A's low nibble is 0xF |
| Cpu.Register.IncN | cpu.go:332-365 | the new register file is `Instructions.IncN` of the old one |
| Instructions.DecN | cpu.go:367-408 | the named register becomes 0xFF whatever it held; C set; N cleared; Z kept; H iff the register is A or A's low nibble is non-zero |
| Cpu.Register.DecN | cpu.go:367-408 | the new register file is `Instructions.DecN` of the old one |
| Instructions.IncDecIgnoreOperand | cpu.go:332-408 | incn and decn give the same state whatever value the register held |
| Instructions.Signed16 | cpu.go:415 | `int16(hl)`: the int16 that is congruent to the word mod 2^16, negative exactly from 0x8000 |
| Instructions.AddHLn | cpu.go:414-434 | H becomes 0; L is the low byte of HL + value; C iff the signed sum is negative; H flag by the nibble test on the sum; N cleared; Z kept |
| Cpu.Register.AddHLn | cpu.go:414-434 | the new register file is `Instructions.AddHLn` of the old one |
| Instructions.AddSPn | cpu.go:436-455 | SP becomes SP + value mod 2^16; C iff the int32 sum leaves 0..0xFFFF; H by the nibble test on the sum; Z and N cleared |
| Cpu.Register.AddSPn | cpu.go:436-455 | the new register file is `Instructions.AddSPn` of the old one |
| Instructions.Int32Carry | cpu.go:421-425 | `result & 0xFF0000 != 0` on the int32 sum holds exactly when the sum is below 0 or above 0xFFFF |
| Instructions.IncNn | cpu.go:457-474 | BC, HL or SP becomes its increment mod 2^16; for "DE", D becomes E + 1 mod 256 and E is kept; every other pair, A, the flags and PC are kept |
| Cpu.Register.IncNn | cpu.go:457-474 | the new register file is `Instructions.IncNn` of the old one |
| Instructions.IncNnLoads | cpu.go:457-474 | outside "DE" and "AF", incnn stores the incremented pair as ldnnn16 does |
| Instructions.DecNn | cpu.go:476-493 | BC, DE, HL or SP becomes its decrement mod 2^16 (0 wraps to 0xFFFF); every other pair, A, the flags and PC are kept |
| Cpu.Register.DecNn | cpu.go:476-493 | the new register file is `Instructions.DecNn` of the old one |
| Instructions.DecNnLoads | cpu.go:476-493 | decnn stores the decremented pair as ldnnn16 does |
| Instructions.DecThenIncRestores | cpu.go:457-493 | decnn then incnn restores the register file for BC, HL, SP and AF |
| Instructions.IncNnDECounterexample | cpu.go:463-466 | for DE = 0x0100, decnn then incnn gives DE = 0x00FF |
| Instructions.IncNnIntended | cpu.go:457-474 | the corrected incnn: every pair other than AF becomes its increment mod 2^16, and nothing else changes |
| Instructions.IncNnIntendedAgrees | cpu.go:457-474 | the corrected incnn agrees with incnn outside "DE" |
| Instructions.IncNnIntendedUndoesDec | cpu.go:457-493 | the corrected incnn undoes decnn for every pair |
| Instructions.DecUndoesIncNnIntended | cpu.go:457-493 | decnn undoes the corrected incnn for every pair |
| Instructions.SwapN | cpu.go:499-541 | the named register's nibbles are swapped and no other register changes; Z is always set; N, H and C are cleared |
| Cpu.Register.SwapN | cpu.go:499-541 | the new register file is `Instructions.SwapN` of the old one |
| Instructions.SwapNTwice | cpu.go:499-541 | swapping twice restores the register; the flags are those of one swap |
| Instructions.Daa | cpu.go:543-571 | H cleared; Z iff the new A is 0; N and C kept; with H and C clear, A is left unchanged after a subtraction, and so is a BCD byte after an addition |
| Cpu.Register.Daa | cpu.go:543-571 | the new register file is `Instructions.Daa` of the old one |
| Instructions.DaaAfterAddCounterexample | cpu.go:552-557 | adding 0x61 to 0x99 and adjusting gives 0x00 with C clear, where the decimal sum 160 calls for 0x60 with C set |
| Instructions.DaaIntended | cpu.go:543-571 | the corrected adjustment: Z iff A is 0, H cleared, N kept, bits 0-3 kept, no other register changes |
| Instructions.DaaIntendedAddsDecimal | cpu.go:543-571 | addAn of two BCD bytes followed by the corrected adjustment gives the BCD digits of the decimal sum mod 100, with C set iff the sum reaches 100 |
| Instructions.BcdSum | cpu.go:552-557 | the arithmetic of the corrected adjustment on a binary sum of two BCD bytes |
| Instructions.Cpl | cpu.go:573-579 | A becomes 255 - A, the bitwise complement; N and H set; Z and C kept |
| Bits.Not8FlipsBits | cpu.go:574 | `^x` on a byte flips every one of its eight bits |
| Cpu.Register.Cpl | cpu.go:573-579 | the new register file is `Instructions.Cpl` of the old one |
| Instructions.CplInvolution | cpu.go:573-579 | complementing twice restores A |
| Instructions.Ccf | cpu.go:581-591 | C toggled; N and H cleared; Z and bits 0-3 kept; no other register changes |
| Cpu.Register.Ccf | cpu.go:581-591 | the new register file is `Instructions.Ccf` of the old one |
| Instructions.CcfTwice | cpu.go:581-591 | ccf twice restores C and leaves the flags with only N and H cleared |
| Instructions.Scf | cpu.go:593-600 | C set; N and H cleared; Z and bits 0-3 kept |
| Cpu.Register.Scf | cpu.go:593-600 | the new register file is `Instructions.Scf` of the old one |
| Instructions.ScfIdempotent | cpu.go:593-600 | scf twice is scf once |
| Instructions.RotateFlags | cpu.go:607-617 | the Z, N and H updates shared by the rotates: Z iff A is 0, N and H cleared, bits 0-4 kept |
| Instructions.RlcAFlags | cpu.go:606-625 | Z iff A is 0; N and H cleared; C iff bit 7 of A is set; bits 0-3 kept |
| Instructions.RlAFlags | cpu.go:627-640 | Z iff A is 0; N and H cleared; C and bits 0-3 kept |
| Instructions.RrcAFlags | cpu.go:642-661 | Z iff A is 0; N and H cleared; C iff bit 0 of A is set; bits 0-3 kept |
| Instructions.RrAFlags | cpu.go:663-676 | Z iff A is 0; N and H cleared; C and bits 0-3 kept |
| Instructions.RotatesDifferInCarry | cpu.go:606-676 | rlcA and rrcA leave the flags of rlA and rrA with C replaced by the bit rotated out |
| Bits.SwapNibblesInvolution | cpu.go:499-541 | swapping the nibbles of a byte twice restores it |
| AddressSpace.Blank | memory.go:8-16 | the zero value of Memory reads 0 at every address |
| AddressSpace.ReadByte | memory.go:18-36 | readByte; the addresses no branch maps (0xE000-0xFDFF and 0xFFFF) read 0 |
| AddressSpace.WriteByte | memory.go:43-58 | writeByte, within `WriteInBounds`; a round-trip address reads back the value written, and 0xC000 and 0xFE00 leave the memory unchanged |
| AddressSpace.ReadWord | memory.go:38-41 | readWord: the low byte of the word is the byte at the address and the high byte the one after it |
| AddressSpace.WriteWord | memory.go:61-65 | writeWord: the low byte of the value lands at the address and the high byte after it, wherever those addresses read back |
| AddressSpace.ReadByteMap | memory.go:18-36 | readByte reads cell address - base of the array whose read window holds the address; the unmapped addresses 0xE000-0xFDFF and 0xFFFF read 0 |
| AddressSpace.RegionOf | memory.go:18-36 | every mapped address lies in the read window of one array |
| AddressSpace.ReadEnd | memory.go:18-36 | each read window starts at its array's base and ends within the array |
| AddressSpace.WriteFaults | memory.go:43-58 | writeByte indexes past its array exactly at 0xE000-0xFDFF and at 0xFF00 |
| AddressSpace.WriteByteMap | memory.go:43-58 | an in-bounds writeByte replaces exactly one cell of the array whose write window holds the address; 0xC000 and 0xFE00 change nothing |
| AddressSpace.Store | memory.go:43-58 | replacing one cell of one array leaves every other cell of every array unchanged |
| AddressSpace.ReadAfterWrite | memory.go:18-58 | reading back a written byte gives it exactly at the round-trip addresses; the others are 0xC000, 0xFE00, 0xFF80 and 0xFFFF |
| AddressSpace.ReadOtherAfterWrite | memory.go:18-58 | a write never changes what readByte returns at any other address |
| AddressSpace.ReadWordAfterWriteWord | memory.go:38-65 | readWord after writeWord at the same address returns the word where both bytes read back |
| AddressSpace.ReadOtherAfterWriteWord | memory.go:38-65 | writeWord changes what readByte returns only at its two addresses |
| MemoryUnit.Memory.constructor | memory.go:8-16 | the zero value: seven fresh arrays of the declared sizes, all zero |
| MemoryUnit.Memory.WriteByte | memory.go:43-58 | the arrays afterwards hold `AddressSpace.WriteByte` of their old contents |
| MemoryUnit.Memory.WriteWord | memory.go:61-65 | the arrays afterwards hold `AddressSpace.WriteWord` of their old contents |
| MemoryUnit.Memory.LoadRom | memory.go:72-74 | ROM becomes the first 0x8000 bytes of the data and no other array changes |
| Video.Step | gpu.go:24-69 | below its threshold a mode only adds the cycles and clears rendering; at the threshold the clock resets to 0 and the mode moves 0 to 1 at new line 143 and 0 to 2 otherwise, 1 to 2 past line 153 and 1 to 1 otherwise, 2 to 3 and 3 to 0; HBlank and VBlank add one line, wrapping to 0 past 153; rendering is set exactly on the HBlank that reaches line 143 |
| Video.StepAfterClock | gpu.go:25-27 | the switch acts on the state with the clock already advanced and rendering cleared |
| Video.StepKeepsReachable | gpu.go:24-69 | the zero value is reachable, and every step keeps the mode in 0-3, lines 0-142 outside VBlank and 143-153 in it |
| Video.RunKeepsReachable | gpu.go:24-69 | any sequence of steps from a reachable state stays reachable |
| Video.RunAppend | gpu.go:24-69 | running two sequences of steps is running their concatenation |
| Video.VisibleLine | gpu.go:29-67 | from the start of OAM scan, 80 + 172 + 204 = 456 cycles bring the next line's OAM scan, or VBlank at line 143 with the frame signalled |
| Video.VBlankLine | gpu.go:43-53 | a VBlank line takes 456 cycles, and after line 153 scanning restarts at line 0 |
| Video.VisibleLines | gpu.go:24-69 | n visible lines in a row advance the line by n |
| Video.VBlankLines | gpu.go:43-53 | n VBlank lines in a row advance the line by n within VBlank |
| Video.FullFrame | gpu.go:24-69 | a frame of 154 lines of 456 cycles (70224 in all) returns to line 0 in OAM scan and passes the frame-finished state |
| Video.LineRegisterAtWrap | gpu.go:45-51 | at the VBlank wrap 0xFF44 receives 154 while the line becomes 0 |
| Graphics.Gpu.constructor | gpu.go:3-20 | the zero value: HBlank at line 0, an all-zero 160 x 144 frame buffer, every control flag clear |
| Graphics.Gpu.Step | gpu.go:24-69 | the timing fields become `Video.Step` of the old ones; an advancing line is written to 0xFF44 in the shared `*Memory` and otherwise memory is unchanged; the end of VRAM scan draws the scanline and otherwise the frame buffer is unchanged |
| Graphics.Gpu.HBlank | gpu.go:29-41 | case 0 of step: the timing becomes `Video.Step` with no further cycles, with the line write to 0xFF44 |
| Graphics.Gpu.VBlank | gpu.go:43-53 | case 1 of step: as for HBlank |
| Graphics.Gpu.OamScan | gpu.go:55-59 | case 2 of step: the timing becomes `Video.Step` with no further cycles |
| Graphics.Gpu.VramScan | gpu.go:61-67 | case 3 of step: the timing moves as `Video.Step` says, and the scanline is drawn when the mode ends |
| Graphics.Gpu.AdvanceLine | gpu.go:32-33 | the line rises by one and memory afterwards is `writeByte(0xFF44, byte(line))` of the old memory |
| Video.IoRegisters | gpu.go:72-78 | LCD control, scroll Y, scroll X and the palette are io cells 0x40, 0x42, 0x43 and 0x47 |
| Video.MapColumnIsGroup | gpu.go:96-97 | with a horizontal scroll of at most 6, group k of pixels reads map column k |
| Video.TileMapEntry | gpu.go:92-99 | the tile-map entry of a visible row lies inside the selected 32 x 32 map, with no uint16 wrap |
| Video.TileRowInVram | gpu.go:78-104 | the tile row read lies in 0x8000-0x8FFF for unsigned ids and 0x9000-0x97FF for signed ids, at offset (y mod 8) * 2 in its tile |
| Video.FirstPixelIsSlotZero | gpu.go:110-112 | the first pixel of every group tests bit 8 of a byte, which is clear, so it shows the shade of slot 0 |
| Video.SignedTilesAlias | gpu.go:100-102 | in signed mode ids n and n + 128 address the same tile, 0x9000 + 16n |
| Video.TileDataIntended | gpu.go:100-102 | the corrected tile addressing puts each of the 256 ids on its own tile inside 0x8000-0x97FF and agrees with the code for unsigned ids and signed ids below 128 |
| Graphics.Gpu.WriteScanline | gpu.go:71-117 | row line + scrollY of the frame buffer holds the palette shades of the background row, and every other cell keeps its value |
| Graphics.Gpu.DrawGroup | gpu.go:110-115 | columns 8k to 8k + 7 of row y get the shades of bits 8 down to 1 of the two tile-row bytes, and nothing else changes |
| Video.Slot | gpu.go:137-150 | the slot a pixel's two bits select is in 0..3 |
| Video.TwoBits | gpu.go:151-163 | `(n >> lo) & 3` is twice bit lo + 1 plus bit lo |
| Video.GetColor | gpu.go:134-164 | the shade is `(palette >> 2 * slot) & 3` and lies in 0..3 |
| Video.IdentityPalette | gpu.go:134-164 | with palette 0xE4 each slot shows its own number |
| Graphics.Gpu.GetVram | gpu.go:119-132 | a fresh 4096 x 8 grid whose entry [n][i] is `Video.VramShade`; nothing else changes |
| Video.VramShade | gpu.go:119-132 | entry [n][i] is bit i of vram[2n] plus bit i of vram[2n + 1], at most 2, and 0 in column 0 |
| Video.Control | gpu.go:166-176 | setGpuControl's decode: flag i, in the order lcd to display, is bit i of the control byte |
| Graphics.Gpu.SetGpuControl | gpu.go:166-176 | each control flag becomes its bit of 0xFF40, lcd from bit 0 to display from bit 7 |
| Video.ControlOfEncode | gpu.go:166-176 | decoding the byte whose bits are the eight flags gives the flags back |
| Video.EncodeOfControl | gpu.go:166-176 | the eight decoded flags determine the control byte |

## Left out

- AddressSpace.WriteByte: needs `WriteInBounds`. A write to 0xE000-0xFDFF or to 0xFF00 indexes past its Go array and panics, and the model does not model the panic. `WriteFaults` names exactly those addresses.
- AddressSpace.WriteWord: needs both of its addresses in bounds, for the same reason.
- MemoryUnit.Memory.WriteByte and MemoryUnit.Memory.WriteWord: carry the same requirement.
- Cpu.Register.PushNn: needs SP and SP + 1 to be writable. The Go write to the copy panics otherwise.
- Cpu.Register.LdnnSP: needs its two addresses to be writable, for the same reason.
- Instructions.LddHLA, Instructions.LdiHLA, Cpu.Register.LddHLA and Cpu.Register.LdiHLA: need HL < 0x100. The store indexes the 0x100-byte `io` array with HL and panics beyond it.
- MemoryUnit.Memory.LoadRom: models only the copy loop, and needs at least 0x8000 bytes of data. Shorter data makes Go index past the slice end and panic. `os.ReadFile` and its error panic are file I/O.
- Graphics.Gpu.Step, Graphics.Gpu.VramScan and Graphics.Gpu.WriteScanline: need `ScanlineFits` when a line is drawn. This means line + scrollY below 144 and scrollX at most 6. Past that, the frame-buffer index leaves the 160 x 144 array and Go panics.
- Writes through a by-value `Memory`: lddHLA, ldiHLA and pushnn compute the callee's copy and drop it. ldCA, ldhnA and ldnnSP return the copy so that its contents can be stated. None of these writes reaches the caller's memory.
- Instructions.Daa: the carry branch at cpu.go:568 compares the byte `reg.a` with the constant 0x100, which a byte cannot represent, so that line does not compile. The model keeps C, the only reading under which the rest of dAA has a meaning.
- Instructions.RlcAFlags, Instructions.RlAFlags, Instructions.RrcAFlags and Instructions.RrAFlags: the rotated value of A is not modelled. These functions give only the flag effects. The Go rotates call `bits.RotateLeft16`/`RotateRight16` on a byte and test `if value` on an integer, which does not type-check. Z is modelled as "cleared when the rotated value is non-zero". Rotation maps 0 to 0 only, so that holds exactly when A is 0.
- Cpu.Register: has no rotate methods, because the new value of A in those methods is not defined.
- AddressSpace.ReadWord and AddressSpace.WriteWord: concatenateBytes and separateWord are not part of this model, and memory.go does not fix the byte order of `readWord`/`writeWord`. Storing the low byte at the lower address (little-endian, as on the Game Boy) is a modelling choice. cpu.go's own naming points the other way: `r1` is always the high byte in ldnnn16, ldHLSPn, pushnn and popnn, so separateWord may well return the high byte first.
- The cycle count of `step` is a parameter: `cpu.clock` and the instruction dispatch (`cpu.execute`) are not part of this model.
- The `Step` postcondition is proved through one method per `case` of the switch. The mode-clock increment happens before the switch, as in gpu.go:25-26.
- Go `int` fields of the Gpu struct (mode, mode_clock, line, scroll) are unbounded integers. A 64-bit overflow of `mode_clock` is not modelled.
- display.go (the SDL window and renderer) and main.go (the driver loop) are not part of this model.

## Findings

| source | as written | input that shows it | evidently intended | confidence | as-written member | corrected member |
|---|---|---|---|---|---|---|
| cpu.go:463-466 | the "DE" case of incnn stores both bytes of DE + 1 into D, so E never changes and D gets the low byte | DE = 0x0100: decnn gives 0x00FF, and incnn then gives 0x00FF again instead of 0x0100 | D takes the high byte and E the low byte, so that incnn undoes decnn | not executed | Instructions.IncNnDECounterexample | Instructions.IncNnIntendedUndoesDec |
| cpu.go:552-557 | after an addition dAA adds 6, wrapping A in the byte, and then tests A > 0x9F on the already-wrapped value | A = 0x99 plus 0x61 with H and C clear: the result is 0x00 with C clear | BCD 99 + 61 = 160 gives 0x60 with C set: both tests read A as it was before the adjustment | not executed | Instructions.DaaAfterAddCounterexample | Instructions.DaaIntendedAddsDecimal |
| gpu.go:100-102 | in signed mode ids below 128 gain 128 and ids from 128 up are left alone, so ids n and n + 128 address the same tile and 0x8800-0x8FFF is never read | LCD control bit 4 clear, tile ids 5 and 133: both read the tile at 0x9050 | the id is a signed offset from 0x9000, so each of the 256 ids has its own tile | not executed | Video.SignedTilesAlias | Video.TileDataIntended |
| cpu.go:193-199 | pushnn writes the word at SP and SP + 1 and only then lowers SP, while popnn reads at the lowered SP and puts the byte at SP into the pair's first (high) register | BC = 0x1234 pushed at SP = 0xD000 into blank memory, with the write kept: the pop loads B = C = 0 | push lowers SP first and writes the word low byte first; pop loads the high register from SP + 1 and the low register from SP. The SP-order half holds whatever the byte order; the byte-order half rests on the little-endian choice under Left out | not executed | Instructions.PushThenPopMissesWrite | Instructions.PushThenPopIntended |
