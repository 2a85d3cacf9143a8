/**
 * The instruction operations of the Register struct as transitions on a
 * register-file value.  Each function follows its Go method branch for
 * branch.  Its contract states what the operation computes: the arithmetic
 * mod 2^8 or 2^16, exactly which flag bits change and which registers stay
 * as they were.  The Register class in module Cpu is proved against these
 * functions.
 */
module Instructions {
  import opened Bits
  import AS = AddressSpace

  /** The Register struct (cpu.go:5-16). */
  datatype Regs = Regs(
    a: Byte, b: Byte, c: Byte, d: Byte, e: Byte, h: Byte, l: Byte,
    flags: Byte,
    sp: Word, pc: Word)

  /** The register names the 8-bit operations accept. */
  datatype Reg8 = A | B | C | D | E | H | L

  /** The register-pair names the 16-bit operations accept. */
  datatype Pair = AF | BC | DE | HL | SP

  /** Flag bit positions. */
  const ZeroBit: Byte := 7
  const SubtractBit: Byte := 6
  const HalfCarryBit: Byte := 5
  const CarryBit: Byte := 4

  predicate FZ(r: Regs) { HasBit(r.flags, ZeroBit) }
  predicate FN(r: Regs) { HasBit(r.flags, SubtractBit) }
  predicate FH(r: Regs) { HasBit(r.flags, HalfCarryBit) }
  predicate FC(r: Regs) { HasBit(r.flags, CarryBit) }

  /** The carry flag as the number added by the carry-in operations. */
  function Carry(r: Regs): nat
  {
    if FC(r) then 1 else 0
  }

  /** Bits 0-3 of the flag byte, which no operation names, are as they were. */
  predicate LowFlagsKept(r: Regs, r': Regs)
  {
    forall i: Word :: i < 4 ==> HasBit(r'.flags, i) == HasBit(r.flags, i)
  }

  /**
   * setRegisterFlag (cpu.go:22-28) on the flag byte: `flags |= 1 << position`
   * or `flags &^= 1 << position`.  Or-ing in a bit that is already set, or
   * clearing one that is already clear, changes nothing; otherwise the bit's
   * weight is added or removed.  The shifted constant has the byte type, so it
   * is 0 for positions 8 and above and the call changes nothing.
   */
  function SetFlag(flags: Byte, value: bool, position: Byte): (r: Byte)
    ensures position < 8 ==> HasBit(r, position) == value
    ensures forall i: Word :: i != position ==> HasBit(r, i) == HasBit(flags, i)
    ensures position >= 8 ==> r == flags
  {
    if position >= 8 || HasBit(flags, position) == value then flags
    else if value then SetBitOfByte(flags, position); flags + Pow2(position)
    else ClearBitOfByte(flags, position); flags - Pow2(position)
  }

  /** Setting a flag to the value it already has changes nothing. */
  lemma SetFlagIdempotent(flags: Byte, value: bool, position: Byte)
    ensures SetFlag(SetFlag(flags, value, position), value, position) == SetFlag(flags, value, position)
  {
  }

  /**
   * The flag byte is determined by its bits: two calls agree whenever the
   * resulting bits agree, whatever order the bits were set in.
   */
  lemma FlagsByBits(f: Byte, g: Byte)
    requires forall i: Word :: i < 8 ==> HasBit(f, i) == HasBit(g, i)
    ensures f == g
  {
    ByteExtensionality(f, g);
  }

  // ----- Register access -----

  /** `w & 0xFF00 != 0` on a uint16. */
  function HighByteSet(w: Word): (r: bool)
    ensures r <==> w > 0xFF
  {
    w / 0x100 != 0
  }

  /** uint16 increment: 0xFFFF wraps to 0. */
  function Inc16(v: Word): Word
  {
    if v == 0xFFFF then 0 else v + 1
  }

  /** uint16 decrement: 0 wraps to 0xFFFF. */
  function Dec16(v: Word): Word
  {
    if v == 0 then 0xFFFF else v - 1
  }

  /** The uint16 sums `v + 1` and `v + 0xFFFF` are the increment and the decrement. */
  lemma WrapStep(v: Word)
    ensures (v + 1) % 0x1_0000 == Inc16(v)
    ensures (v + 0xFFFF) % 0x1_0000 == Dec16(v)
  {
  }

  function Get(r: Regs, x: Reg8): Byte
  {
    match x
    case A => r.a
    case B => r.b
    case C => r.c
    case D => r.d
    case E => r.e
    case H => r.h
    case L => r.l
  }

  /** Every register other than x, the flags, SP and PC are as they were. */
  predicate OnlyChanged(r: Regs, r': Regs, x: Reg8)
  {
    r'.flags == r.flags && r'.sp == r.sp && r'.pc == r.pc &&
    forall y: Reg8 :: y != x ==> Get(r', y) == Get(r, y)
  }

  /** Assignment to the named 8-bit register. */
  function Put(r: Regs, x: Reg8, v: Byte): (r': Regs)
    ensures Get(r', x) == v && OnlyChanged(r, r', x)
  {
    match x
    case A => r.(a := v)
    case B => r.(b := v)
    case C => r.(c := v)
    case D => r.(d := v)
    case E => r.(e := v)
    case H => r.(h := v)
    case L => r.(l := v)
  }

  /** The 16-bit value of a pair other than AF; the first register is the high byte. */
  function Value16(r: Regs, p: Pair): Word
    requires p != AF
  {
    match p
    case BC => Word16(r.b, r.c)
    case DE => Word16(r.d, r.e)
    case HL => Word16(r.h, r.l)
    case SP => r.sp
  }

  /** HL as an address. */
  function HLAddress(r: Regs): Word
  {
    Word16(r.h, r.l)
  }

  /** Every pair other than p (and AF) holds its old value. */
  predicate OtherPairsKept(r: Regs, r': Regs, p: Pair)
  {
    forall q: Pair :: q != AF && q != p ==> Value16(r', q) == Value16(r, q)
  }

  /** The register pushnn/popnn put first (high) in a pair: "AF" uses A and B. */
  function First(p: Pair): Reg8
    requires p != SP
  {
    match p
    case AF => A
    case BC => B
    case DE => D
    case HL => H
  }

  /** The register pushnn/popnn put second (low) in a pair. */
  function Second(p: Pair): Reg8
    requires p != SP
  {
    match p
    case AF => B
    case BC => C
    case DE => E
    case HL => L
  }

  // ----- 8-bit loads -----

  /** ldnnn (cpu.go:39-54): B, C, D, E, H or L := value; "A" matches no case. */
  function LdNnn(r: Regs, value: Byte, destination: Reg8): (r': Regs)
    ensures destination == A ==> r' == r
    ensures destination != A ==> Get(r', destination) == value
    ensures OnlyChanged(r, r', destination)
  {
    if destination == A then r else Put(r, destination, value)
  }

  /** ldr1r2 (cpu.go:56-67): destination := source. */
  function LdR1R2(r: Regs, destination: Reg8, source: Reg8): (r': Regs)
    ensures Get(r', destination) == Get(r, source)
    ensures OnlyChanged(r, r', destination)
  {
    Put(r, destination, Get(r, source))
  }

  /** ldAn (cpu.go:69-71). */
  function LdAn(r: Regs, value: Byte): (r': Regs)
    ensures r'.a == value && OnlyChanged(r, r', A)
  {
    r.(a := value)
  }

  /** ldAC (cpu.go:73-75): A := io[C], indexing the IO array directly. */
  function LdAC(r: Regs, m: AS.Mem): (r': Regs)
    ensures r'.a == m.io[r.c] && OnlyChanged(r, r', A)
  {
    r.(a := m.io[r.c])
  }

  /** ldhAn (cpu.go:117-119): A := io[value]. */
  function LdhAn(r: Regs, value: Byte, m: AS.Mem): (r': Regs)
    ensures r'.a == m.io[value] && OnlyChanged(r, r', A)
  {
    r.(a := m.io[value])
  }

  /**
   * The direct IO index agrees with readByte at 0xFF00 + index below 0x80;
   * above, readByte would serve HRAM instead.
   */
  lemma IoIndexMatchesReadByte(r: Regs, value: Byte, m: AS.Mem)
    ensures r.c < 0x80 ==> LdAC(r, m).a == AS.ReadByte(m, 0xFF00 + r.c)
    ensures value < 0x80 ==> LdhAn(r, value, m).a == AS.ReadByte(m, 0xFF00 + value)
  {
  }

  /** lddAHL (cpu.go:81-87): A := (HL), then HL := HL - 1 with uint16 wrap. */
  function LddAHL(r: Regs, m: AS.Mem): (r': Regs)
    ensures r'.a == AS.ReadByte(m, HLAddress(r))
    ensures HLAddress(r') == Dec16(HLAddress(r))
    ensures r'.(a := r.a, h := r.h, l := r.l) == r
  {
    var address := HLAddress(r);
    var next := (address + 0xFFFF) % 0x1_0000;
    WrapStep(address);
    SplitJoin(next);
    r.(a := AS.ReadByte(m, address), h := HighByte(next), l := LowByte(next))
  }

  /** ldiAHL (cpu.go:97-103): A := (HL), then HL := HL + 1 with uint16 wrap. */
  function LdiAHL(r: Regs, m: AS.Mem): (r': Regs)
    ensures r'.a == AS.ReadByte(m, HLAddress(r))
    ensures HLAddress(r') == Inc16(HLAddress(r))
    ensures r'.(a := r.a, h := r.h, l := r.l) == r
  {
    var address := HLAddress(r);
    var next := (address + 1) % 0x1_0000;
    WrapStep(address);
    SplitJoin(next);
    r.(a := AS.ReadByte(m, address), h := HighByte(next), l := LowByte(next))
  }

  /**
   * lddHLA (cpu.go:89-95) on the registers: the store goes to a copy of the
   * memory and is lost, and indexing `io` by HL needs HL < 0x100.
   */
  function LddHLA(r: Regs): (r': Regs)
    requires HLAddress(r) < 0x100
    ensures HLAddress(r') == Dec16(HLAddress(r))
    ensures r'.(h := r.h, l := r.l) == r
  {
    var next := (HLAddress(r) + 0xFFFF) % 0x1_0000;
    WrapStep(HLAddress(r));
    SplitJoin(next);
    r.(h := HighByte(next), l := LowByte(next))
  }

  /** ldiHLA (cpu.go:105-111) on the registers, as for LddHLA. */
  function LdiHLA(r: Regs): (r': Regs)
    requires HLAddress(r) < 0x100
    ensures HLAddress(r') == HLAddress(r) + 1
    ensures r'.(h := r.h, l := r.l) == r
  {
    var next := (HLAddress(r) + 1) % 0x1_0000;
    WrapStep(HLAddress(r));
    SplitJoin(next);
    r.(h := HighByte(next), l := LowByte(next))
  }

  /** The example of the lddAHL test: H=2, L=1 reads address 513 and leaves H=2, L=0. */
  lemma LddAHLExample(r: Regs, m: AS.Mem)
    requires r.h == 2 && r.l == 1
    ensures LddAHL(r, AS.WriteByte(m, 513, 10)) == r.(a := 10, h := 2, l := 0)
  {
    AS.ReadAfterWrite(m, 513, 10);
  }

  /** The example of the ldiAHL test: H=2, L=1 reads address 513 and leaves H=2, L=2. */
  lemma LdiAHLExample(r: Regs, m: AS.Mem)
    requires r.h == 2 && r.l == 1
    ensures LdiAHL(r, AS.WriteByte(m, 513, 10)) == r.(a := 10, h := 2, l := 2)
  {
    AS.ReadAfterWrite(m, 513, 10);
  }

  // ----- 16-bit loads and the stack -----

  /** ldnnn16 (cpu.go:125-141): BC, DE, HL or SP := value; "AF" matches no case. */
  function LdNnn16(r: Regs, value: Word, destination: Pair): (r': Regs)
    ensures destination == AF ==> r' == r
    ensures destination != AF ==> Value16(r', destination) == value
    ensures OtherPairsKept(r, r', destination)
    ensures r'.a == r.a && r'.flags == r.flags && r'.pc == r.pc
  {
    match destination
    case BC => r.(b := HighByte(value), c := LowByte(value))
    case DE => r.(d := HighByte(value), e := LowByte(value))
    case HL => r.(h := HighByte(value), l := LowByte(value))
    case SP => r.(sp := value)
    case AF => r
  }

  /** ldSPHL (cpu.go:143-146). */
  function LdSPHL(r: Regs): (r': Regs)
    ensures r'.sp == HLAddress(r)
    ensures r'.(sp := r.sp) == r
  {
    r.(sp := Word16(r.h, r.l))
  }

  /**
   * ldHLSPn (cpu.go:148-170): HL := SP + value in uint16 arithmetic.  Z and N
   * are cleared, H is the nibble carry out of bit 3, and C is set when the
   * wrapped sum has a non-zero high byte.
   */
  function LdHLSPn(r: Regs, value: Byte): (r': Regs)
    ensures HLAddress(r') == (r.sp + value) % 0x1_0000
    ensures !FZ(r') && !FN(r')
    ensures FH(r') <==> r.sp % 16 + value % 16 > 15
    ensures FC(r') <==> (r.sp + value) % 0x1_0000 > 0xFF
    ensures LowFlagsKept(r, r')
    ensures r'.(h := r.h, l := r.l, flags := r.flags) == r
  {
    var result := (value + r.sp) % 0x1_0000;
    var f := SetFlag(r.flags, false, ZeroBit);
    var f := SetFlag(f, false, SubtractBit);
    var f := SetFlag(f, r.sp % 16 + value % 16 > 15, HalfCarryBit);
    var f := SetFlag(f, HighByteSet(result), CarryBit);
    r.(h := HighByte(result), l := LowByte(result), flags := f)
  }

  /**
   * The word pushnn computes: first register high, second low; "AF" uses A
   * and B, and a name matching no case pushes 0.
   */
  function PushValue(r: Regs, registers: Pair): (w: Word)
    ensures registers != SP ==> w == Word16(Get(r, First(registers)), Get(r, Second(registers)))
    ensures registers == SP ==> w == 0
  {
    match registers
    case AF => Word16(r.a, r.b)
    case BC => Word16(r.b, r.c)
    case DE => Word16(r.d, r.e)
    case HL => Word16(r.h, r.l)
    case SP => 0
  }

  /**
   * pushnn (cpu.go:176-195) on the registers: SP := SP - 2 with uint16 wrap.
   * The word is written into a copy of the memory and is lost.
   */
  function PushNn(r: Regs, registers: Pair): (r': Regs)
    ensures r'.sp == (r.sp - 2) % 0x1_0000
    ensures r'.(sp := r.sp) == r
  {
    r.(sp := (r.sp + 0xFFFE) % 0x1_0000)
  }

  /**
   * popnn (cpu.go:197-215): the pair's first register := (SP), its second
   * := (SP + 1), then SP := SP + 2, all with uint16 wrap.  "SP" matches no case
   * and only moves SP.
   */
  function PopNn(r: Regs, m: AS.Mem, registers: Pair): (r': Regs)
    ensures r'.sp == (r.sp + 2) % 0x1_0000
    ensures registers != SP ==>
      Get(r', First(registers)) == AS.ReadByte(m, r.sp) &&
      Get(r', Second(registers)) == AS.ReadByte(m, AS.Next(r.sp))
    ensures forall x: Reg8 :: (registers == SP || (x != First(registers) && x != Second(registers))) ==>
      Get(r', x) == Get(r, x)
    ensures r'.flags == r.flags && r'.pc == r.pc
  {
    var r1 := AS.ReadByte(m, r.sp);
    var r2 := AS.ReadByte(m, AS.Next(r.sp));
    var loaded := match registers
      case AF => r.(a := r1, b := r2)
      case BC => r.(b := r1, c := r2)
      case DE => r.(d := r1, e := r2)
      case HL => r.(h := r1, l := r2)
      case SP => r;
    loaded.(sp := (r.sp + 2) % 0x1_0000)
  }

  /**
   * Push then pop returns SP to where it was, and the pair is reloaded from
   * the two bytes below the old SP, which the lost push never wrote.
   */
  lemma PushThenPop(r: Regs, m: AS.Mem, registers: Pair)
    requires registers != SP
    ensures var r' := PopNn(PushNn(r, registers), m, registers);
      r'.sp == r.sp &&
      Get(r', First(registers)) == AS.ReadByte(m, (r.sp - 2) % 0x1_0000) &&
      Get(r', Second(registers)) == AS.ReadByte(m, (r.sp - 1) % 0x1_0000)
  {
  }

  /**
   * Even were pushnn's write kept, popnn would not read it back: push stores
   * the word at SP and SP + 1 and only then lowers SP, and pop reads at the
   * lowered SP.  Pushing BC = 0x1234 with SP = 0xD000 into blank memory and
   * popping BC again loads 0 into both B and C.
   */
  lemma PushThenPopMissesWrite(r: Regs)
    requires r.sp == 0xD000 && r.b == 0x12 && r.c == 0x34
    ensures var m := AS.WriteWord(AS.Blank(), r.sp, PushValue(r, BC));
      var r' := PopNn(PushNn(r, BC), m, BC);
      r'.b == 0 && r'.c == 0 && r' != r
  {
    var value := PushValue(r, BC);
    var m := AS.WriteWord(AS.Blank(), r.sp, value);
    AS.ReadOtherAfterWriteWord(AS.Blank(), r.sp, value, 0xCFFE);
    AS.ReadOtherAfterWriteWord(AS.Blank(), r.sp, value, 0xCFFF);
    assert AS.ReadByte(m, 0xCFFE) == 0 && AS.ReadByte(m, 0xCFFF) == 0;
    var s := PushNn(r, BC);
    assert s.sp == 0xCFFE && AS.Next(s.sp) == 0xCFFF;
    assert PopNn(s, m, BC).b == 0;
  }

  /** The address two below `sp`, with uint16 wrap: where a push stores its word. */
  function StackTop(sp: Word): (top: Word)
    ensures (top + 2) % 0x1_0000 == sp
  {
    (sp + 0xFFFE) % 0x1_0000
  }

  /**
   * pushnn as evidently intended, with the memory kept: SP is lowered by 2
   * first and the word is written at the new SP, low byte first.
   */
  function PushIntended(r: Regs, m: AS.Mem, registers: Pair): (pushed: (Regs, AS.Mem))
    requires AS.WriteInBounds(StackTop(r.sp)) && AS.WriteInBounds(AS.Next(StackTop(r.sp)))
    ensures pushed.0 == PushNn(r, registers)
    ensures forall x: Word :: x != StackTop(r.sp) && x != AS.Next(StackTop(r.sp)) ==>
      AS.ReadByte(pushed.1, x) == AS.ReadByte(m, x)
  {
    var top := StackTop(r.sp);
    var m' := AS.WriteWord(m, top, PushValue(r, registers));
    forall x: Word | x != top && x != AS.Next(top)
      ensures AS.ReadByte(m', x) == AS.ReadByte(m, x)
    {
      AS.ReadOtherAfterWriteWord(m, top, PushValue(r, registers), x);
    }
    (r.(sp := top), m')
  }

  /**
   * popnn as evidently intended: the word at SP goes back into the pair, the
   * first register taking the high byte at SP + 1 and the second the low byte
   * at SP; then SP rises by 2.
   */
  function PopIntended(r: Regs, m: AS.Mem, registers: Pair): (r': Regs)
    ensures r'.sp == (r.sp + 2) % 0x1_0000
    ensures registers != SP ==>
      Get(r', First(registers)) == AS.ReadByte(m, AS.Next(r.sp)) &&
      Get(r', Second(registers)) == AS.ReadByte(m, r.sp)
    ensures forall x: Reg8 :: (registers == SP || (x != First(registers) && x != Second(registers))) ==>
      Get(r', x) == Get(r, x)
    ensures r'.flags == r.flags && r'.pc == r.pc
  {
    var word := AS.ReadWord(m, r.sp);
    JoinSplit(AS.ReadByte(m, AS.Next(r.sp)), AS.ReadByte(m, r.sp));
    var loaded := match registers
      case AF => r.(a := HighByte(word), b := LowByte(word))
      case BC => r.(b := HighByte(word), c := LowByte(word))
      case DE => r.(d := HighByte(word), e := LowByte(word))
      case HL => r.(h := HighByte(word), l := LowByte(word))
      case SP => r;
    loaded.(sp := (r.sp + 2) % 0x1_0000)
  }

  /**
   * With the intended push and pop, popping a pair right after pushing it
   * restores every register, wherever the two stack bytes read back what was
   * written.
   */
  lemma {:induction false} PushThenPopIntended(r: Regs, m: AS.Mem, registers: Pair)
    requires registers != SP
    requires AS.WriteInBounds(StackTop(r.sp)) && AS.WriteInBounds(AS.Next(StackTop(r.sp)))
    requires AS.RoundTrips(StackTop(r.sp)) && AS.RoundTrips(AS.Next(StackTop(r.sp)))
    ensures var (r1, m1) := PushIntended(r, m, registers); PopIntended(r1, m1, registers) == r
  {
    var top := StackTop(r.sp);
    var value := PushValue(r, registers);
    var (r1, m1) := PushIntended(r, m, registers);
    AS.ReadWordAfterWriteWord(m, top, value);
    SplitJoin(value);
    JoinSplit(Get(r, First(registers)), Get(r, Second(registers)));
    var r' := PopIntended(r1, m1, registers);
    assert AS.ReadWord(m1, top) == value;
    assert Get(r', First(registers)) == Get(r, First(registers));
    assert Get(r', Second(registers)) == Get(r, Second(registers));
    RegsByBytes(r', r);
  }

  // ----- 8-bit ALU -----

  /**
   * addAn (cpu.go:221-238): A := A + value mod 256; C is the carry out of bit
   * 7, H the carry out of bit 3, bit 6 (N) is cleared and Z is left alone.
   */
  function AddAn(r: Regs, value: Byte): (r': Regs)
    ensures r'.a == (r.a + value) % 0x100
    ensures FC(r') <==> r.a + value > 0xFF
    ensures FH(r') <==> r.a % 16 + value % 16 > 15
    ensures !FN(r') && FZ(r') == FZ(r) && LowFlagsKept(r, r')
    ensures r'.(a := r.a, flags := r.flags) == r
  {
    var result := r.a + value;
    var f := SetFlag(r.flags, HighByteSet(result), CarryBit);
    var f := SetFlag(f, false, SubtractBit);
    var f := SetFlag(f, r.a % 16 + value % 16 > 15, HalfCarryBit);
    r.(a := result % 0x100, flags := f)
  }

  /**
   * addcAn (cpu.go:240-245): with C set the operand is incremented (wrapping in
   * the byte) before addAn.  A becomes A + value + carry mod 256; the flags are
   * those of adding the incremented byte.
   */
  function AddcAn(r: Regs, value: Byte): (r': Regs)
    ensures r'.a == (r.a + value + Carry(r)) % 0x100
    ensures FC(r') <==> r.a + (value + Carry(r)) % 0x100 > 0xFF
    ensures FH(r') <==> r.a % 16 + (value + Carry(r)) % 16 > 15
    ensures !FN(r') && FZ(r') == FZ(r) && LowFlagsKept(r, r')
    ensures r'.(a := r.a, flags := r.flags) == r
  {
    var operand := (value + Carry(r)) % 0x100;
    OperandWrap(r.a, value, Carry(r));
    AddAn(r, operand)
  }

  /** With C set addcAn is addAn of the incremented byte, and otherwise addAn itself. */
  lemma AddcAnIsAddAn(r: Regs, value: Byte)
    ensures AddcAn(r, value) == AddAn(r, if FC(r) then (value + 1) % 0x100 else value)
    ensures !FC(r) ==> AddcAn(r, value) == AddAn(r, value)
  {
    var operand := if FC(r) then (value + 1) % 0x100 else value;
    assert operand == (value + Carry(r)) % 0x100;
  }

  /**
   * subn (cpu.go:247-272): A := A - value mod 256.  `result < 0` on a uint16
   * never holds, so N is always cleared; Z is set when A == value and
   * otherwise kept; H uses the same nibble test as addition; C is set when the
   * uint16 difference wraps, that is when value > A.
   */
  function SubN(r: Regs, value: Byte): (r': Regs)
    ensures r'.a == (r.a - value) % 0x100
    ensures FC(r') <==> value > r.a
    ensures FZ(r') <==> FZ(r) || r.a == value
    ensures !FN(r')
    ensures FH(r') <==> r.a % 16 + value % 16 > 15
    ensures LowFlagsKept(r, r')
    ensures r'.(a := r.a, flags := r.flags) == r
  {
    var result := (r.a - value) % 0x1_0000;
    SubWrap(r.a, value);
    r.(a := result % 0x100, flags := SubFlags(r.flags, r.a, value))
  }

  /** The flag byte subn computes from the old flags, A and the operand. */
  function SubFlags(flags: Byte, x: Byte, value: Byte): (f: Byte)
    ensures HasBit(f, CarryBit) <==> value > x
    ensures HasBit(f, ZeroBit) <==> HasBit(flags, ZeroBit) || x == value
    ensures !HasBit(f, SubtractBit)
    ensures HasBit(f, HalfCarryBit) <==> x % 16 + value % 16 > 15
    ensures forall i: Word :: i < 4 ==> HasBit(f, i) == HasBit(flags, i)
  {
    var result := (x - value) % 0x1_0000;
    SubWrap(x, value);
    var f := SetFlag(flags, false, SubtractBit);
    var f := if result == 0 then SetFlag(f, true, ZeroBit) else f;
    var f := SetFlag(f, x % 16 + value % 16 > 15, HalfCarryBit);
    SetFlag(f, HighByteSet(result), CarryBit)
  }

  /** The uint16 difference of two bytes wraps exactly when the second is larger. */
  lemma SubWrap(x: Byte, y: Byte)
    ensures (x - y) % 0x1_0000 == if y > x then x - y + 0x1_0000 else x - y
    ensures (x - y) % 0x1_0000 % 0x100 == (x - y) % 0x100
  {
    if y > x {
      DivMod(x - y + 0x1_0000, 0x100, 0xFF, x - y + 0x100);
      DivMod(x - y, 0x100, -1, x - y + 0x100);
    }
  }

  /**
   * sbcAn (cpu.go:274-279): with C set the operand is incremented (wrapping in
   * the byte) before subn.  A becomes A - value - carry mod 256.
   */
  function SbcAn(r: Regs, value: Byte): (r': Regs)
    ensures r'.a == (r.a - value - Carry(r)) % 0x100
    ensures FC(r') <==> (value + Carry(r)) % 0x100 > r.a
    ensures FZ(r') <==> FZ(r) || r.a == (value + Carry(r)) % 0x100
    ensures !FN(r') && LowFlagsKept(r, r')
    ensures FH(r') <==> r.a % 16 + (value + Carry(r)) % 16 > 15
    ensures r'.(a := r.a, flags := r.flags) == r
  {
    var operand := (value + Carry(r)) % 0x100;
    OperandWrap(r.a, value, Carry(r));
    SubN(r, operand)
  }

  /** Subtracting the byte-wrapped operand is subtracting value and carry mod 256. */
  lemma OperandWrap(x: Byte, value: Byte, carry: nat)
    requires carry <= 1
    ensures (x - (value + carry) % 0x100) % 0x100 == (x - value - carry) % 0x100
    ensures (x + (value + carry) % 0x100) % 0x100 == (x + value + carry) % 0x100
    ensures (value + carry) % 0x100 % 16 == (value + carry) % 16
  {
    if value + carry == 0x100 {
      assert (value + carry) % 0x100 == 0;
    } else {
      assert (value + carry) % 0x100 == value + carry;
    }
  }

  /** With C set sbcAn is subn of the incremented byte, and otherwise subn itself. */
  lemma SbcAnIsSubN(r: Regs, value: Byte)
    ensures SbcAn(r, value) == SubN(r, if FC(r) then (value + 1) % 0x100 else value)
    ensures !FC(r) ==> SbcAn(r, value) == SubN(r, value)
  {
    var operand := if FC(r) then (value + 1) % 0x100 else value;
    assert operand == (value + Carry(r)) % 0x100;
  }

  /** The flag updates shared by andn, orn and xorn: Z set on zero and never cleared, N and C cleared. */
  function LogicFlags(flags: Byte, result: Byte, half: bool): Byte
  {
    var f := if result == 0 then SetFlag(flags, true, ZeroBit) else flags;
    var f := SetFlag(f, false, SubtractBit);
    var f := SetFlag(f, half, HalfCarryBit);
    SetFlag(f, false, CarryBit)
  }

  /** andn (cpu.go:281-294): A := A & value; H is set. */
  function AndN(r: Regs, value: Byte): (r': Regs)
    ensures r'.a == And8(r.a, value)
    ensures FZ(r') <==> FZ(r) || r'.a == 0
    ensures !FN(r') && FH(r') && !FC(r') && LowFlagsKept(r, r')
    ensures r'.(a := r.a, flags := r.flags) == r
  {
    var result := And8(r.a, value);
    r.(a := result, flags := LogicFlags(r.flags, result, true))
  }

  /** orn (cpu.go:296-309): A := A | value; H is cleared. */
  function OrN(r: Regs, value: Byte): (r': Regs)
    ensures r'.a == Or8(r.a, value)
    ensures FZ(r') <==> FZ(r) || r'.a == 0
    ensures !FN(r') && !FH(r') && !FC(r') && LowFlagsKept(r, r')
    ensures r'.(a := r.a, flags := r.flags) == r
  {
    var result := Or8(r.a, value);
    r.(a := result, flags := LogicFlags(r.flags, result, false))
  }

  /** xorn (cpu.go:311-324): A := A ^ value; H is cleared. */
  function XorN(r: Regs, value: Byte): (r': Regs)
    ensures r'.a == Xor8(r.a, value)
    ensures FZ(r') <==> FZ(r) || r'.a == 0
    ensures !FN(r') && !FH(r') && !FC(r') && LowFlagsKept(r, r')
    ensures r'.(a := r.a, flags := r.flags) == r
  {
    var result := Xor8(r.a, value);
    r.(a := result, flags := LogicFlags(r.flags, result, false))
  }

  /**
   * cpn (cpu.go:326-330): the flags of subn with A restored: C is set when
   * value > A, Z when they are equal (and otherwise kept).
   */
  function CpN(r: Regs, value: Byte): (r': Regs)
    ensures r'.a == r.a
    ensures FC(r') <==> value > r.a
    ensures FZ(r') <==> FZ(r) || r.a == value
    ensures !FN(r') && LowFlagsKept(r, r')
    ensures r'.(flags := r.flags) == r
  {
    var saved := r.a;
    SubN(r, value).(a := saved)
  }

  /** cpn leaves the same flags as subn and keeps A. */
  lemma CpNIsSubNFlags(r: Regs, value: Byte)
    ensures CpN(r, value) == SubN(r, value).(a := r.a)
  {
  }

  /**
   * incn (cpu.go:332-365) as written: `result` starts at 0 and never reads the
   * register, so the register becomes 1 whatever it held.  C is cleared (1 has
   * no high byte), N is cleared, Z is left alone, and H tests the low nibble
   * of A (already 1 when the register is A) plus 1.
   */
  function IncN(r: Regs, register: Reg8): (r': Regs)
    ensures Get(r', register) == 1
    ensures forall y: Reg8 :: y != register ==> Get(r', y) == Get(r, y)
    ensures FH(r') <==> register != A && r.a % 16 == 15
    ensures !FC(r') && !FN(r') && FZ(r') == FZ(r) && LowFlagsKept(r, r')
    ensures r'.sp == r.sp && r'.pc == r.pc
  {
    var result := 1;
    var s := Put(r, register, LowByte(result));
    var f := SetFlag(s.flags, HighByteSet(result), CarryBit);
    var f := SetFlag(f, false, SubtractBit);
    var f := SetFlag(f, s.a % 16 + result % 16 > 15, HalfCarryBit);
    s.(flags := f)
  }

  /**
   * decn (cpu.go:367-408) as written: `result` is 0 - 1 = 0xFFFF in uint16,
   * so the register becomes 0xFF.  `result < 0` never holds, so N is cleared;
   * `result == 0` never holds, so Z is left alone; C is set; H tests the low
   * nibble of A (0xF when the register is A) plus 0xF.
   */
  function DecN(r: Regs, register: Reg8): (r': Regs)
    ensures Get(r', register) == 0xFF
    ensures forall y: Reg8 :: y != register ==> Get(r', y) == Get(r, y)
    ensures FH(r') <==> register == A || r.a % 16 != 0
    ensures FC(r') && !FN(r') && FZ(r') == FZ(r) && LowFlagsKept(r, r')
    ensures r'.sp == r.sp && r'.pc == r.pc
  {
    var result := 0xFFFF;
    var s := Put(r, register, LowByte(result));
    var f := SetFlag(s.flags, false, SubtractBit);
    var f := if result == 0 then SetFlag(f, true, ZeroBit) else f;
    var f := SetFlag(f, s.a % 16 + result % 16 > 15, HalfCarryBit);
    var f := SetFlag(f, HighByteSet(result), CarryBit);
    s.(flags := f)
  }

  /**
   * The defect of incn and decn: the outcome does not depend on what the
   * register held, so incrementing 5 and incrementing 200 give the same state.
   */
  lemma IncDecIgnoreOperand(r: Regs, register: Reg8, v: Byte)
    ensures IncN(Put(r, register, v), register) == IncN(r, register)
    ensures DecN(Put(r, register, v), register) == DecN(r, register)
  {
    var s := Put(r, register, v);
    RegsByBytes(IncN(s, register), IncN(r, register));
    FlagsByBits(IncN(s, register).flags, IncN(r, register).flags);
    RegsByBytes(DecN(s, register), DecN(r, register));
    FlagsByBits(DecN(s, register).flags, DecN(r, register).flags);
  }

  /** A register file is determined by its eight-bit registers, flags, SP and PC. */
  lemma RegsByBytes(r: Regs, r': Regs)
    requires forall y: Reg8 :: Get(r', y) == Get(r, y)
    requires r'.flags == r.flags && r'.sp == r.sp && r'.pc == r.pc
    ensures r' == r
  {
    assert Get(r', A) == Get(r, A) && Get(r', B) == Get(r, B) && Get(r', C) == Get(r, C);
    assert Get(r', D) == Get(r, D) && Get(r', E) == Get(r, E);
    assert Get(r', H) == Get(r, H) && Get(r', L) == Get(r, L);
  }

  // ----- 16-bit ALU -----

  /** Go's int16. */
  type Int16 = x: int | -0x8000 <= x < 0x8000

  /** A uint16 bit pattern read as an int16. */
  function Signed16(w: Word): (x: Int16)
    ensures x % 0x1_0000 == w
    ensures x >= 0 <==> w < 0x8000
  {
    if w < 0x8000 then w else w - 0x1_0000
  }

  /**
   * addHLn (cpu.go:414-434) as written.  HL is read as an int16 and the sum
   * formed in int32.  N is cleared; C tests bits 16-23 of the sum, which are
   * set exactly when it is negative; H compares the low nibble of the sum
   * plus that of the operand with 0xF.  `byte(result << 8)` keeps only zero
   * bits, so H always becomes 0; L is the low byte of the sum, which is also
   * the low byte of the unsigned HL + value.
   */
  function AddHLn(r: Regs, value: Int16): (r': Regs)
    ensures r'.h == 0
    ensures r'.l == (HLAddress(r) + value) % 0x100
    ensures FC(r') <==> Signed16(HLAddress(r)) + value < 0
    ensures FH(r') <==> (Signed16(HLAddress(r)) + value) % 16 + value % 16 > 15
    ensures !FN(r') && FZ(r') == FZ(r) && LowFlagsKept(r, r')
    ensures r'.(h := r.h, l := r.l, flags := r.flags) == r
  {
    var hl := Signed16(Word16(r.h, r.l));
    var result := hl + value;
    Int32Carry(result);
    var f := SetFlag(r.flags, false, SubtractBit);
    var f := SetFlag(f, result % 0x1_0000_0000 / 0x1_0000 % 0x100 != 0, CarryBit);
    var f := SetFlag(f, result % 16 + value % 16 > 15, HalfCarryBit);
    LowByteOfSum(Word16(r.h, r.l), hl, value);
    DivMod(result * 0x100, 0x100, result, 0);
    r.(h := (result * 0x100) % 0x100, l := result % 0x100, flags := f)
  }

  /** Sums that agree mod 2^16 agree in their low byte. */
  lemma LowByteOfSum(w: Word, x: int, value: int)
    requires x % 0x1_0000 == w
    ensures (x + value) % 0x100 == (w + value) % 0x100
  {
    var k := (x - w) / 0x1_0000;
    assert x == w + 0x1_0000 * k;
    assert x + value == (w + value) + 0x100 * (0x100 * k);
  }

  /**
   * addSPn (cpu.go:436-455): the sum is formed in int32, so it never
   * overflows.  Z and N are cleared.  C tests bits 16-23 of the two's
   * complement sum, so it is set exactly when the sum leaves 0..0xFFFF.  H
   * compares the low nibble of the sum plus that of the operand with 0xF.
   */
  function AddSPn(r: Regs, value: Int16): (r': Regs)
    ensures r'.sp == (r.sp + value) % 0x1_0000
    ensures FC(r') <==> r.sp + value < 0 || r.sp + value > 0xFFFF
    ensures FH(r') <==> (r.sp + value) % 16 + value % 16 > 15
    ensures !FZ(r') && !FN(r') && LowFlagsKept(r, r')
    ensures r'.(sp := r.sp, flags := r.flags) == r
  {
    var result := r.sp + value;
    Int32Carry(result);
    var f := SetFlag(r.flags, false, ZeroBit);
    var f := SetFlag(f, false, SubtractBit);
    var f := SetFlag(f, result % 0x1_0000_0000 / 0x1_0000 % 0x100 != 0, CarryBit);
    var f := SetFlag(f, result % 16 + value % 16 > 15, HalfCarryBit);
    r.(sp := result % 0x1_0000, flags := f)
  }

  /**
   * `result & 0xFF0000 != 0` on an int32 sum of two 16-bit numbers: bits
   * 16-23 of the two's complement are all ones below 0 and 1 above 0xFFFF.
   */
  lemma Int32Carry(result: int)
    requires -0x1_0000 <= result < 0x1_8000
    ensures result % 0x1_0000_0000 / 0x1_0000 % 0x100 != 0 <==> result < 0 || result > 0xFFFF
  {
    if result < 0 {
      assert result % 0x1_0000_0000 == result + 0x1_0000_0000;
      assert (result + 0x1_0000_0000) / 0x1_0000 == 0xFFFF;
    } else if result <= 0xFFFF {
      assert result % 0x1_0000_0000 == result;
    } else {
      assert result % 0x1_0000_0000 == result;
      assert result / 0x1_0000 == 1;
    }
  }

  /**
   * incnn (cpu.go:457-474): BC, HL or SP := pair + 1 mod 2^16.  The "DE" case
   * assigns D twice, so D ends as the low byte of DE + 1, which is E + 1 mod
   * 256, and E is unchanged.
   * "AF" matches no case.  No flag changes.
   */
  function IncNn(r: Regs, register: Pair): (r': Regs)
    ensures register != AF && register != DE ==> Value16(r', register) == Inc16(Value16(r, register))
    ensures register == DE ==> r'.d == (r.e + 1) % 0x100 && r'.e == r.e
    ensures register == AF ==> r' == r
    ensures OtherPairsKept(r, r', register)
    ensures r'.a == r.a && r'.flags == r.flags && r'.pc == r.pc
  {
    match register
    case BC =>
      var result := (Word16(r.b, r.c) + 1) % 0x1_0000;
      WrapStep(Word16(r.b, r.c));
      SplitJoin(result);
      r.(b := HighByte(result), c := LowByte(result))
    case DE =>
      var result := (Word16(r.d, r.e) + 1) % 0x1_0000;
      LowByteOfIncrement(r.d, r.e);
      r.(d := HighByte(result)).(d := LowByte(result))
    case HL =>
      var result := (Word16(r.h, r.l) + 1) % 0x1_0000;
      WrapStep(Word16(r.h, r.l));
      SplitJoin(result);
      r.(h := HighByte(result), l := LowByte(result))
    case SP => WrapStep(r.sp); r.(sp := (r.sp + 1) % 0x1_0000)
    case AF => r
  }

  /** The low byte of a pair plus one is the low register plus one, mod 256. */
  lemma LowByteOfIncrement(high: Byte, low: Byte)
    ensures LowByte((Word16(high, low) + 1) % 0x1_0000) == (low + 1) % 0x100
  {
    var w := Word16(high, low) + 1;
    if w == 0x1_0000 {
      assert w % 0x1_0000 == 0;
    } else {
      assert w % 0x1_0000 == w;
      DivMod(w, 0x100, high + (low + 1) / 0x100, (low + 1) % 0x100);
    }
  }

  /**
   * decnn (cpu.go:476-493): BC, DE, HL or SP := pair - 1 mod 2^16; "AF"
   * matches no case.  No flag changes.
   */
  function DecNn(r: Regs, register: Pair): (r': Regs)
    ensures register != AF ==> Value16(r', register) == Dec16(Value16(r, register))
    ensures register == AF ==> r' == r
    ensures OtherPairsKept(r, r', register)
    ensures r'.a == r.a && r'.flags == r.flags && r'.pc == r.pc
  {
    match register
    case BC =>
      var result := (Word16(r.b, r.c) + 0xFFFF) % 0x1_0000;
      WrapStep(Word16(r.b, r.c));
      SplitJoin(result);
      r.(b := HighByte(result), c := LowByte(result))
    case DE =>
      var result := (Word16(r.d, r.e) + 0xFFFF) % 0x1_0000;
      WrapStep(Word16(r.d, r.e));
      SplitJoin(result);
      r.(d := HighByte(result), e := LowByte(result))
    case HL =>
      var result := (Word16(r.h, r.l) + 0xFFFF) % 0x1_0000;
      WrapStep(Word16(r.h, r.l));
      SplitJoin(result);
      r.(h := HighByte(result), l := LowByte(result))
    case SP => WrapStep(r.sp); r.(sp := (r.sp + 0xFFFF) % 0x1_0000)
    case AF => r
  }

  /** decnn then incnn restores BC, HL, SP (and trivially AF). */
  lemma {:induction false} DecThenIncRestores(r: Regs, register: Pair)
    requires register != DE
    ensures IncNn(DecNn(r, register), register) == r
  {
    if register != AF {
      var v := Value16(r, register);
      DecNnLoads(r, register);
      IncNnLoads(DecNn(r, register), register);
      assert Inc16(Value16(DecNn(r, register), register)) == v;
      LoadOverwrites(r, Dec16(v), v, register);
      LoadOwnValue(r, register);
    }
  }

  /** decnn stores the decremented pair the way ldnnn16 stores a word. */
  lemma DecNnLoads(r: Regs, register: Pair)
    requires register != AF
    ensures DecNn(r, register) == LdNnn16(r, Dec16(Value16(r, register)), register)
  {
  }

  /** Outside the DE case, incnn stores the incremented pair the way ldnnn16 does. */
  lemma IncNnLoads(r: Regs, register: Pair)
    requires register != AF && register != DE
    ensures IncNn(r, register) == LdNnn16(r, Inc16(Value16(r, register)), register)
  {
    match register
    case BC => WrapStep(Word16(r.b, r.c));
    case HL => WrapStep(Word16(r.h, r.l));
    case SP => WrapStep(r.sp);
  }

  /** A second ldnnn16 into the same pair overwrites the first. */
  lemma LoadOverwrites(r: Regs, v: Word, w: Word, p: Pair)
    ensures LdNnn16(LdNnn16(r, v, p), w, p) == LdNnn16(r, w, p)
  {
  }

  /** Loading a pair with its own value changes nothing. */
  lemma LoadOwnValue(r: Regs, p: Pair)
    requires p != AF
    ensures LdNnn16(r, Value16(r, p), p) == r
  {
    SplitJoin(Value16(r, p));
  }

  /** The DE case of incnn breaks the round trip: DE = 0x0100 comes back as 0x00FF. */
  lemma IncNnDECounterexample(r: Regs)
    requires r.d == 1 && r.e == 0
    ensures Value16(IncNn(DecNn(r, DE), DE), DE) == 0x00FF
    ensures IncNn(DecNn(r, DE), DE) != r
  {
    DecNnDEFrom0100(r);
    IncNnDEFrom00FF(DecNn(r, DE));
  }

  /** decnn DE takes D = 1, E = 0 to D = 0, E = 0xFF. */
  lemma DecNnDEFrom0100(r: Regs)
    requires r.d == 1 && r.e == 0
    ensures DecNn(r, DE).d == 0 && DecNn(r, DE).e == 0xFF
  {
    assert Word16(r.d, r.e) == 0x100;
    assert (Word16(r.d, r.e) + 0xFFFF) % 0x1_0000 == 0xFF;
  }

  /** incnn DE on D = 0, E = 0xFF stores 0 into D and leaves E. */
  lemma IncNnDEFrom00FF(r: Regs)
    requires r.d == 0 && r.e == 0xFF
    ensures IncNn(r, DE).d == 0 && IncNn(r, DE).e == 0xFF
  {
  }

  /** incnn as evidently intended: the "DE" case stores the low byte in E. */
  function IncNnIntended(r: Regs, register: Pair): (r': Regs)
    ensures register != AF ==> Value16(r', register) == Inc16(Value16(r, register))
    ensures register == AF ==> r' == r
    ensures OtherPairsKept(r, r', register)
    ensures r'.a == r.a && r'.flags == r.flags && r'.pc == r.pc
  {
    match register
    case BC =>
      var result := (Word16(r.b, r.c) + 1) % 0x1_0000;
      WrapStep(Word16(r.b, r.c));
      SplitJoin(result);
      r.(b := HighByte(result), c := LowByte(result))
    case DE =>
      var result := (Word16(r.d, r.e) + 1) % 0x1_0000;
      WrapStep(Word16(r.d, r.e));
      SplitJoin(result);
      r.(d := HighByte(result), e := LowByte(result))
    case HL =>
      var result := (Word16(r.h, r.l) + 1) % 0x1_0000;
      WrapStep(Word16(r.h, r.l));
      SplitJoin(result);
      r.(h := HighByte(result), l := LowByte(result))
    case SP => WrapStep(r.sp); r.(sp := (r.sp + 1) % 0x1_0000)
    case AF => r
  }

  /** The intended incnn differs from incnn only in the DE case. */
  lemma IncNnIntendedAgrees(r: Regs, register: Pair)
    requires register != DE
    ensures IncNnIntended(r, register) == IncNn(r, register)
  {
  }

  /** The intended incnn stores the incremented pair the way ldnnn16 does. */
  lemma IncNnIntendedLoads(r: Regs, register: Pair)
    requires register != AF
    ensures IncNnIntended(r, register) == LdNnn16(r, Inc16(Value16(r, register)), register)
  {
    match register
    case BC => WrapStep(Word16(r.b, r.c));
    case DE => WrapStep(Word16(r.d, r.e));
    case HL => WrapStep(Word16(r.h, r.l));
    case SP => WrapStep(r.sp);
  }

  /** With the intended DE case, decnn then incnn restores every pair. */
  lemma {:induction false} IncNnIntendedUndoesDec(r: Regs, register: Pair)
    ensures IncNnIntended(DecNn(r, register), register) == r
  {
    if register != AF {
      var v := Value16(r, register);
      DecNnLoads(r, register);
      IncNnIntendedLoads(DecNn(r, register), register);
      assert Inc16(Value16(DecNn(r, register), register)) == v;
      LoadOverwrites(r, Dec16(v), v, register);
      LoadOwnValue(r, register);
    }
  }

  /** With the intended DE case, incnn then decnn restores every pair. */
  lemma {:induction false} DecUndoesIncNnIntended(r: Regs, register: Pair)
    ensures DecNn(IncNnIntended(r, register), register) == r
  {
    if register != AF {
      var v := Value16(r, register);
      IncNnIntendedLoads(r, register);
      DecNnLoads(IncNnIntended(r, register), register);
      assert Dec16(Value16(IncNnIntended(r, register), register)) == v;
      LoadOverwrites(r, Inc16(v), v, register);
      LoadOwnValue(r, register);
    }
  }

  // ----- Miscellaneous -----

  /**
   * swapn (cpu.go:499-541): swaps the nibbles of the named register.  The Z
   * test reads the function-level `value`, which every case shadows, so it
   * sees 0 and Z is always set.  N, H and C are cleared.
   */
  function SwapN(r: Regs, register: Reg8): (r': Regs)
    ensures Get(r', register) % 16 == Get(r, register) / 16
    ensures Get(r', register) / 16 == Get(r, register) % 16
    ensures FZ(r') && !FN(r') && !FH(r') && !FC(r') && LowFlagsKept(r, r')
    ensures forall y: Reg8 :: y != register ==> Get(r', y) == Get(r, y)
    ensures r'.sp == r.sp && r'.pc == r.pc
  {
    var swapped := Put(r, register, SwapNibbles(Get(r, register)));
    var value := 0;
    var f := if value == 0 then SetFlag(swapped.flags, true, ZeroBit) else swapped.flags;
    var f := SetFlag(f, false, SubtractBit);
    var f := SetFlag(f, false, HalfCarryBit);
    var f := SetFlag(f, false, CarryBit);
    swapped.(flags := f)
  }

  /** Swapping twice restores the register; the flags are those of one swap. */
  lemma SwapNTwice(r: Regs, register: Reg8)
    ensures SwapN(SwapN(r, register), register) == r.(flags := SwapN(r, register).flags)
  {
    SwapNibblesInvolution(Get(r, register));
  }

  /** Both nibbles are decimal digits. */
  predicate IsBcd(x: Byte)
  {
    x % 16 <= 9 && x / 16 <= 9
  }

  /** The number a packed-BCD byte stands for. */
  function Decimal(x: Byte): nat
  {
    (x / 16) * 10 + x % 16
  }

  /** The packed-BCD byte for a number below 100. */
  function ToBcd(n: nat): (x: Byte)
    requires n < 100
    ensures IsBcd(x) && Decimal(x) == n
  {
    (n / 10) * 16 + n % 10
  }

  /**
   * dAA (cpu.go:543-571).  After a subtraction (N set) it subtracts 6 when H
   * is set and 0x60 when C is set.  Otherwise it adds 6 when H is set or the
   * low nibble exceeds 9, and then adds 0x60 when C is set or the already
   * adjusted A exceeds 0x9F.  Every step wraps in the byte.  H is cleared and Z
   * reflects the result.  The carry test at line 568 compares the byte A with
   * the constant 0x100, which a byte cannot hold, so Go rejects that line at
   * compile time; C is kept, the only reading under which the rest of dAA
   * has a meaning.
   */
  function Daa(r: Regs): (r': Regs)
    ensures FZ(r') <==> r'.a == 0
    ensures !FH(r') && FN(r') == FN(r) && FC(r') == FC(r) && LowFlagsKept(r, r')
    ensures !FH(r) && !FC(r) && (FN(r) || IsBcd(r.a)) ==> r'.a == r.a
    ensures r'.(a := r.a, flags := r.flags) == r
  {
    var a1 :=
      if HasBit(r.flags, SubtractBit) then
        (if HasBit(r.flags, HalfCarryBit) then (r.a - 0x06) % 0x100 else r.a)
      else
        (if HasBit(r.flags, HalfCarryBit) || r.a % 16 > 9 then (r.a + 0x06) % 0x100 else r.a);
    var a2 :=
      if HasBit(r.flags, SubtractBit) then
        (if HasBit(r.flags, CarryBit) then (a1 - 0x60) % 0x100 else a1)
      else
        (if HasBit(r.flags, CarryBit) || a1 > 0x9F then (a1 + 0x60) % 0x100 else a1);
    var f := SetFlag(r.flags, false, HalfCarryBit);
    var f := SetFlag(f, a2 == 0, ZeroBit);
    r.(a := a2, flags := f)
  }

  /**
   * dAA after adding the BCD values 99 and 61 gives 0x00 with C clear, where
   * the decimal sum 160 calls for 0x60 with C set: the low-nibble correction
   * wraps A past 0xFF before the high-nibble test reads it.
   */
  lemma DaaAfterAddCounterexample(r: Regs)
    requires r.a == 0x99 && !FH(r) && !FC(r)
    ensures Daa(AddAn(r, 0x61)).a == 0x00 && !FC(Daa(AddAn(r, 0x61)))
    ensures Decimal(0x99) + Decimal(0x61) == 160 && ToBcd(160 - 100) == 0x60
  {
    AddNinetyNineSixtyOne(r);
    DaaOfFA(AddAn(r, 0x61));
    assert Decimal(0x99) == 99 && Decimal(0x61) == 61;
  }

  /** addAn of 0x61 to 0x99: 0xFA, with N, H and C clear. */
  lemma AddNinetyNineSixtyOne(r: Regs)
    requires r.a == 0x99
    ensures var s := AddAn(r, 0x61); s.a == 0xFA && !FN(s) && !FH(s) && !FC(s)
  {
  }

  /** dAA on 0xFA after an addition with H and C clear: 0xFA + 6 wraps to 0. */
  lemma DaaOfFA(s: Regs)
    requires s.a == 0xFA && !FN(s) && !FH(s) && !FC(s)
    ensures Daa(s).a == 0 && !FC(Daa(s))
  {
    assert (s.a + 0x06) % 0x100 == 0;
  }

  /**
   * The decimal adjustment dAA evidently intends after an addition: add 0x60
   * and set C when C is set or A exceeds 0x99, and add 6 when H is set or the
   * low nibble exceeds 9, both tests on A as it was.  After a subtraction it
   * behaves as dAA.
   */
  function DaaIntended(r: Regs): (r': Regs)
    ensures FZ(r') <==> r'.a == 0
    ensures !FH(r') && FN(r') == FN(r) && LowFlagsKept(r, r')
    ensures r'.(a := r.a, flags := r.flags) == r
  {
    if HasBit(r.flags, SubtractBit) then Daa(r)
    else
      var (a2, carry) := AddAdjust(r.a, FH(r), FC(r));
      var f := SetFlag(r.flags, carry, CarryBit);
      var f := SetFlag(f, false, HalfCarryBit);
      var f := SetFlag(f, a2 == 0, ZeroBit);
      r.(a := a2, flags := f)
  }

  /**
   * The intended adjustment after an addition, on A and the H and C flags:
   * the adjusted A and the new carry.
   */
  function AddAdjust(a: Byte, half: bool, carry: bool): (Byte, bool)
  {
    var c := carry || a > 0x99;
    var a1 := if c then (a + 0x60) % 0x100 else a;
    var a2 := if half || a % 16 > 9 then (a1 + 0x06) % 0x100 else a1;
    (a2, c)
  }

  /**
   * Adjusting a binary sum whose decimal digits are `tens` (up to 19) and
   * `units` gives the BCD digits of the sum mod 100 and a carry exactly when
   * tens reaches 10.  The sum arrives either with its low nibble as units
   * and H clear, or six short of that with H set exactly when the low nibble
   * overflowed.
   */
  lemma AdjustDigits(sum: int, half: bool, tens: int, units: int)
    requires 0 <= tens <= 19 && 0 <= units <= 9
    requires (!half && sum == 16 * tens + units) ||
             (sum == 16 * tens + units - 6 && (units >= 6) == half)
    requires 0 <= sum < 0x200
    ensures AddAdjust(sum % 0x100, half, sum > 0xFF).1 <==> tens >= 10
    ensures AddAdjust(sum % 0x100, half, sum > 0xFF).0 == 16 * (tens % 10) + units
  {
    var k := if sum > 0xFF then 1 else 0;
    var t := tens - 16 * k;
    var a := sum - 0x100 * k;
    DivMod(sum, 0x100, k, a);
    if !half && sum == 16 * tens + units {
      DivMod(a, 16, t, units);
      AdjustWhole(sum, tens, units, k, a);
    } else {
      if units >= 6 {
        DivMod(a, 16, t, units - 6);
      } else {
        DivMod(a, 16, t - 1, units + 10);
      }
      AdjustCarried(sum, half, tens, units, k, a);
    }
  }

  /** AdjustDigits when the low nibble needs no correction. */
  lemma AdjustWhole(sum: int, tens: int, units: int, k: int, a: Byte)
    requires 0 <= tens <= 19 && 0 <= units <= 9
    requires sum == 16 * tens + units && 0 <= sum < 0x200
    requires k == (if sum > 0xFF then 1 else 0) && a == sum - 0x100 * k && a % 16 == units
    ensures AddAdjust(a, false, sum > 0xFF).1 <==> tens >= 10
    ensures AddAdjust(a, false, sum > 0xFF).0 == 16 * (tens % 10) + units
  {
    if tens >= 10 {
      DivMod(a + 0x60, 0x100, 1 - k, 16 * (tens - 10) + units);
    }
  }

  /** AdjustDigits when the low nibble is corrected by 6. */
  lemma AdjustCarried(sum: int, half: bool, tens: int, units: int, k: int, a: Byte)
    requires 0 <= tens <= 19 && 0 <= units <= 9
    requires sum == 16 * tens + units - 6 && (units >= 6) == half && 0 <= sum < 0x200
    requires k == (if sum > 0xFF then 1 else 0) && a == sum - 0x100 * k
    requires half || a % 16 > 9
    ensures AddAdjust(a, half, sum > 0xFF).1 <==> tens >= 10
    ensures AddAdjust(a, half, sum > 0xFF).0 == 16 * (tens % 10) + units
  {
    if tens == 10 && units < 6 {
      assert k == 0 && a > 0x99;
      DivMod(a + 0x60, 0x100, 0, 0xFA + units);
      var a1 := (a + 0x60) % 0x100;
      DivMod(a1 + 6, 0x100, 1, units);
      assert AddAdjust(a, half, sum > 0xFF) == ((a1 + 6) % 0x100, true);
      assert tens % 10 == 0;
    } else if tens >= 10 {
      assert sum > 0xFF || a > 0x99;
      DivMod(a + 0x60, 0x100, 1 - k, 16 * (tens - 10) + units - 6);
      var a1 := (a + 0x60) % 0x100;
      DivMod(a1 + 6, 0x100, 0, 16 * (tens - 10) + units);
      assert AddAdjust(a, half, sum > 0xFF) == ((a1 + 6) % 0x100, true);
      DivMod(tens, 10, 1, tens - 10);
    } else {
      assert k == 0 && a <= 0x99;
      DivMod(a + 6, 0x100, 0, 16 * tens + units);
      assert AddAdjust(a, half, sum > 0xFF) == ((a + 6) % 0x100, false);
      DivMod(tens, 10, 0, tens);
    }
  }

  /**
   * addAn of two BCD bytes followed by the intended adjustment yields the BCD
   * digits of the decimal sum mod 100, with C set exactly when the sum
   * reaches 100.
   */
  lemma DaaIntendedAddsDecimal(r: Regs, x: Byte)
    requires IsBcd(r.a) && IsBcd(x)
    ensures var r' := DaaIntended(AddAn(r, x));
      IsBcd(r'.a) &&
      Decimal(r'.a) == (Decimal(r.a) + Decimal(x)) % 100 &&
      (FC(r') <==> Decimal(r.a) + Decimal(x) >= 100)
  {
    var s := AddAn(r, x);
    var adjusted := AddAdjust((r.a + x) % 0x100, r.a % 16 + x % 16 > 15, r.a + x > 0xFF);
    assert AddAdjust(s.a, FH(s), FC(s)) == adjusted;
    var r' := DaaIntended(s);
    assert r'.a == adjusted.0 && (FC(r') <==> adjusted.1);
    BcdSum(r.a, x);
  }

  /**
   * The arithmetic behind DaaIntendedAddsDecimal: the adjusted binary sum of
   * two BCD bytes is the BCD form of their decimal sum mod 100, with the
   * carry telling whether that sum reaches 100.
   */
  lemma BcdSum(x: Byte, y: Byte)
    requires IsBcd(x) && IsBcd(y)
    ensures var (a, carry) := AddAdjust((x + y) % 0x100, x % 16 + y % 16 > 15, x + y > 0xFF);
      IsBcd(a) && Decimal(a) == (Decimal(x) + Decimal(y)) % 100 &&
      (carry <==> Decimal(x) + Decimal(y) >= 100)
  {
    var hi, lo := x / 16 + y / 16, x % 16 + y % 16;
    var sum := x + y;
    assert sum == 16 * hi + lo;
    assert Decimal(x) + Decimal(y) == 10 * hi + lo;
    var tens, units := if lo <= 9 then hi else hi + 1, if lo <= 9 then lo else lo - 10;
    AdjustDigits(sum, lo > 15, tens, units);
    var a := AddAdjust(sum % 0x100, lo > 15, sum > 0xFF).0;
    DivMod(a, 16, tens % 10, units);
    assert IsBcd(a) && Decimal(a) == 10 * (tens % 10) + units;
    DivMod(10 * hi + lo, 100, tens / 10, 10 * (tens % 10) + units);
  }

  /**
   * cpl (cpu.go:573-579): A := ^A; N and H are set, Z and C are left alone.
   */
  function Cpl(r: Regs): (r': Regs)
    ensures r'.a == 255 - r.a
    ensures FN(r') && FH(r') && FZ(r') == FZ(r) && FC(r') == FC(r) && LowFlagsKept(r, r')
    ensures r'.(a := r.a, flags := r.flags) == r
  {
    var f := SetFlag(r.flags, true, SubtractBit);
    var f := SetFlag(f, true, HalfCarryBit);
    r.(a := Not8(r.a), flags := f)
  }

  /** Complementing twice restores A; the flags are those of one cpl. */
  lemma CplInvolution(r: Regs)
    ensures Cpl(Cpl(r)) == Cpl(r).(a := r.a)
  {
  }

  /** ccf (cpu.go:581-591): C is toggled, N and H are cleared. */
  function Ccf(r: Regs): (r': Regs)
    ensures FC(r') == !FC(r)
    ensures !FN(r') && !FH(r') && FZ(r') == FZ(r) && LowFlagsKept(r, r')
    ensures r'.(flags := r.flags) == r
  {
    var f := SetFlag(r.flags, !HasBit(r.flags, CarryBit), CarryBit);
    var f := SetFlag(f, false, SubtractBit);
    var f := SetFlag(f, false, HalfCarryBit);
    r.(flags := f)
  }

  /** ccf twice restores C: the result is the original with N and H cleared. */
  lemma CcfTwice(r: Regs)
    ensures FC(Ccf(Ccf(r))) == FC(r)
    ensures Ccf(Ccf(r)) == r.(flags := SetFlag(SetFlag(r.flags, false, SubtractBit), false, HalfCarryBit))
  {
    FlagsByBits(Ccf(Ccf(r)).flags, SetFlag(SetFlag(r.flags, false, SubtractBit), false, HalfCarryBit));
  }

  /** scf (cpu.go:593-600): C is set, N and H are cleared. */
  function Scf(r: Regs): (r': Regs)
    ensures FC(r') && !FN(r') && !FH(r') && FZ(r') == FZ(r) && LowFlagsKept(r, r')
    ensures r'.(flags := r.flags) == r
  {
    var f := SetFlag(r.flags, true, CarryBit);
    var f := SetFlag(f, false, SubtractBit);
    var f := SetFlag(f, false, HalfCarryBit);
    r.(flags := f)
  }

  /** scf is idempotent. */
  lemma ScfIdempotent(r: Regs)
    ensures Scf(Scf(r)) == Scf(r)
  {
  }

  // ----- Rotates: flag effects only -----

  /** Bits 0-3 of the flag byte are as they were. */
  predicate RotateKeeps(r: Regs, f: Byte)
  {
    forall i: Word :: i < 4 ==> HasBit(f, i) == HasBit(r.flags, i)
  }

  /**
   * The Z, N and H updates shared by the four rotates (cpu.go:607-617,
   * 628-638, 643-653, 664-674): Z is cleared when the rotated value is
   * non-zero and set otherwise; N and H are cleared.  A rotation is zero
   * exactly when A is.
   */
  function RotateFlags(r: Regs): (f: Byte)
    ensures HasBit(f, ZeroBit) <==> r.a == 0
    ensures !HasBit(f, SubtractBit) && !HasBit(f, HalfCarryBit)
    ensures forall i: Word :: i < 5 ==> HasBit(f, i) == HasBit(r.flags, i)
  {
    var f := SetFlag(r.flags, r.a == 0, ZeroBit);
    SetFlag(SetFlag(f, false, SubtractBit), false, HalfCarryBit)
  }

  /** rlcA's flag effects (cpu.go:606-625): Z iff A is 0, N and H cleared, C := bit 7 of A (`A & 0x80 != 0`). */
  function RlcAFlags(r: Regs): (f: Byte)
    ensures HasBit(f, ZeroBit) <==> r.a == 0
    ensures !HasBit(f, SubtractBit) && !HasBit(f, HalfCarryBit)
    ensures HasBit(f, CarryBit) <==> r.a >= 0x80
    ensures RotateKeeps(r, f)
  {
    TopBitOfByte(r.a);
    SetFlag(RotateFlags(r), HasBit(r.a, 7), CarryBit)
  }

  /** rlA's flag effects (cpu.go:627-640): Z iff A is 0, N and H cleared, C untouched. */
  function RlAFlags(r: Regs): (f: Byte)
    ensures HasBit(f, ZeroBit) <==> r.a == 0
    ensures !HasBit(f, SubtractBit) && !HasBit(f, HalfCarryBit)
    ensures HasBit(f, CarryBit) == FC(r)
    ensures RotateKeeps(r, f)
  {
    RotateFlags(r)
  }

  /** rrcA's flag effects (cpu.go:642-661): Z iff A is 0, N and H cleared, C := bit 0 of A (`A & 0x01 != 0`). */
  function RrcAFlags(r: Regs): (f: Byte)
    ensures HasBit(f, ZeroBit) <==> r.a == 0
    ensures !HasBit(f, SubtractBit) && !HasBit(f, HalfCarryBit)
    ensures HasBit(f, CarryBit) <==> r.a % 2 == 1
    ensures RotateKeeps(r, f)
  {
    SetFlag(RotateFlags(r), HasBit(r.a, 0), CarryBit)
  }

  /** rrA's flag effects (cpu.go:663-676): Z iff A is 0, N and H cleared, C untouched. */
  function RrAFlags(r: Regs): (f: Byte)
    ensures HasBit(f, ZeroBit) <==> r.a == 0
    ensures !HasBit(f, SubtractBit) && !HasBit(f, HalfCarryBit)
    ensures HasBit(f, CarryBit) == FC(r)
    ensures RotateKeeps(r, f)
  {
    RotateFlags(r)
  }

  /** rlcA and rrcA leave the flags of rlA and rrA except for C, which takes the bit rotated out. */
  lemma RotatesDifferInCarry(r: Regs)
    ensures RlAFlags(r) == RrAFlags(r)
    ensures RlcAFlags(r) == SetFlag(RlAFlags(r), r.a >= 0x80, CarryBit)
    ensures RrcAFlags(r) == SetFlag(RrAFlags(r), r.a % 2 == 1, CarryBit)
  {
    TopBitOfByte(r.a);
    ShrIsDiv(r.a, 0);
  }
}
