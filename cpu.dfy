/**
 * The Register struct as the object the instruction methods update in place
 * through a `*Register` receiver.  Each method follows its Go method
 * statement by statement; its postcondition ties the new register file to
 * the specification function of module Instructions applied to the old
 * one, and the properties of the operation are proved there.
 */
module Cpu {
  import opened Bits
  import I = Instructions
  import AS = AddressSpace

  class Register {
    var a: Byte
    var b: Byte
    var c: Byte
    var d: Byte
    var e: Byte
    var h: Byte
    var l: Byte
    var flags: Byte
    var sp: Word
    var pc: Word

    /** The register file as a value. */
    function State(): I.Regs
      reads this
    {
      I.Regs(a, b, c, d, e, h, l, flags, sp, pc)
    }

    /** The zero value of the struct. */
    constructor ()
      ensures State() == I.Regs(0, 0, 0, 0, 0, 0, 0, 0, 0, 0)
    {
      a, b, c, d, e, h, l, flags, sp, pc := 0, 0, 0, 0, 0, 0, 0, 0, 0, 0;
    }

    /** setRegisterFlag (cpu.go:22-28). */
    method SetRegisterFlag(value: bool, position: Byte)
      modifies this
      ensures State() == old(State()).(flags := I.SetFlag(old(flags), value, position))
    {
      flags := I.SetFlag(flags, value, position);
    }

    /** The register a name selects, as ldr1r2's `reg_map` does. */
    function Read(x: I.Reg8): Byte
      reads this
    {
      I.Get(State(), x)
    }

    /** Assignment to the register the name selects. */
    method Write(x: I.Reg8, v: Byte)
      modifies this
      ensures State() == I.Put(old(State()), x, v)
    {
      match x
      case A => a := v;
      case B => b := v;
      case C => c := v;
      case D => d := v;
      case E => e := v;
      case H => h := v;
      case L => l := v;
    }

    // ----- 8-bit loads -----

    /** ldnnn (cpu.go:39-54). */
    method LdNnn(value: Byte, destination: I.Reg8)
      modifies this
      ensures State() == I.LdNnn(old(State()), value, destination)
    {
      match destination
      case B => b := value;
      case C => c := value;
      case D => d := value;
      case E => e := value;
      case H => h := value;
      case L => l := value;
      case A =>
    }

    /** ldr1r2 (cpu.go:56-67). */
    method LdR1R2(destination: I.Reg8, source: I.Reg8)
      modifies this
      ensures State() == I.LdR1R2(old(State()), destination, source)
    {
      Write(destination, Read(source));
    }

    /** ldAn (cpu.go:69-71). */
    method LdAn(value: Byte)
      modifies this
      ensures State() == I.LdAn(old(State()), value)
    {
      a := value;
    }

    /** ldAC (cpu.go:73-75). */
    method LdAC(mem: AS.Mem)
      modifies this
      ensures State() == I.LdAC(old(State()), mem)
    {
      a := mem.io[c];
    }

    /** lddAHL (cpu.go:81-87). */
    method LddAHL(mem: AS.Mem)
      modifies this
      ensures State() == I.LddAHL(old(State()), mem)
    {
      var address: int := Word16(h, l);
      a := AS.ReadByte(mem, address);
      address := (address + 0xFFFF) % 0x1_0000;
      h := HighByte(address);
      l := LowByte(address);
    }

    /**
     * lddHLA (cpu.go:89-95).  The store goes into the callee's copy of the
     * memory, which is discarded; the `io` index needs HL < 0x100.
     */
    method LddHLA(mem: AS.Mem)
      requires Word16(h, l) < 0x100
      modifies this
      ensures State() == I.LddHLA(old(State()))
    {
      var address := Word16(h, l);
      var copy := mem.(io := mem.io[address := a]);
      address := (address + 0xFFFF) % 0x1_0000;
      h := HighByte(address);
      l := LowByte(address);
    }

    /** ldiAHL (cpu.go:97-103). */
    method LdiAHL(mem: AS.Mem)
      modifies this
      ensures State() == I.LdiAHL(old(State()), mem)
    {
      var address: int := Word16(h, l);
      a := AS.ReadByte(mem, address);
      address := (address + 1) % 0x1_0000;
      h := HighByte(address);
      l := LowByte(address);
    }

    /** ldiHLA (cpu.go:105-111), with the same discarded store as lddHLA. */
    method LdiHLA(mem: AS.Mem)
      requires Word16(h, l) < 0x100
      modifies this
      ensures State() == I.LdiHLA(old(State()))
    {
      var address := Word16(h, l);
      var copy := mem.(io := mem.io[address := a]);
      address := (address + 1) % 0x1_0000;
      h := HighByte(address);
      l := LowByte(address);
    }

    /** ldhAn (cpu.go:117-119). */
    method LdhAn(value: Byte, mem: AS.Mem)
      modifies this
      ensures State() == I.LdhAn(old(State()), value, mem)
    {
      a := mem.io[value];
    }

    /**
     * ldCA (cpu.go:77-79): io[C] := A in the callee's copy of the memory,
     * which is returned here; the caller's memory and the registers are
     * untouched.
     */
    method LdCA(mem: AS.Mem) returns (copy: AS.Mem)
      ensures copy.io[c] == a
      ensures forall i | 0 <= i < 0x100 && i != c :: copy.io[i] == mem.io[i]
      ensures copy == mem.(io := copy.io)
    {
      copy := mem.(io := mem.io[c := a]);
    }

    /** ldhnA (cpu.go:113-115): io[value] := A in the callee's copy, as ldCA. */
    method LdhnA(value: Byte, mem: AS.Mem) returns (copy: AS.Mem)
      ensures copy.io[value] == a
      ensures forall i | 0 <= i < 0x100 && i != value :: copy.io[i] == mem.io[i]
      ensures copy == mem.(io := copy.io)
    {
      copy := mem.(io := mem.io[value := a]);
    }

    // ----- 16-bit loads and the stack -----

    /** ldnnn16 (cpu.go:125-141). */
    method LdNnn16(value: Word, destination: I.Pair)
      modifies this
      ensures State() == I.LdNnn16(old(State()), value, destination)
    {
      var r1 := HighByte(value);
      var r2 := LowByte(value);
      match destination
      case BC => b := r1; c := r2;
      case DE => d := r1; e := r2;
      case HL => h := r1; l := r2;
      case SP => sp := value;
      case AF =>
    }

    /** ldSPHL (cpu.go:143-146). */
    method LdSPHL()
      modifies this
      ensures State() == I.LdSPHL(old(State()))
    {
      sp := Word16(h, l);
    }

    /** ldHLSPn (cpu.go:148-170). */
    method LdHLSPn(value: Byte)
      modifies this
      ensures State() == I.LdHLSPn(old(State()), value)
    {
      var result := (value + sp) % 0x1_0000;
      h := HighByte(result);
      l := LowByte(result);
      SetRegisterFlag(false, I.ZeroBit);
      SetRegisterFlag(false, I.SubtractBit);
      SetRegisterFlag(sp % 16 + value % 16 > 15, I.HalfCarryBit);
      SetRegisterFlag(I.HighByteSet(result), I.CarryBit);
    }

    /**
     * ldnnSP (cpu.go:172-174): writeWord(value, SP) on the callee's copy of
     * the memory, which is returned here; the registers are untouched.  Both
     * addresses must be writable.  Where they read back, the copy holds SP as
     * a word at `value`.
     */
    method LdnnSP(value: Word, mem: AS.Mem) returns (copy: AS.Mem)
      requires AS.WriteInBounds(value) && AS.WriteInBounds(AS.Next(value))
      ensures AS.RoundTrips(value) && AS.RoundTrips(AS.Next(value)) ==> AS.ReadWord(copy, value) == sp
      ensures forall x: Word :: x != value && x != AS.Next(value) ==> AS.ReadByte(copy, x) == AS.ReadByte(mem, x)
    {
      copy := AS.WriteWord(mem, value, sp);
      if AS.RoundTrips(value) && AS.RoundTrips(AS.Next(value)) {
        AS.ReadWordAfterWriteWord(mem, value, sp);
      }
      forall x: Word | x != value && x != AS.Next(value)
        ensures AS.ReadByte(copy, x) == AS.ReadByte(mem, x)
      {
        AS.ReadOtherAfterWriteWord(mem, value, sp, x);
      }
    }

    /**
     * pushnn (cpu.go:176-195).  The word goes into the callee's copy of the
     * memory and is lost; writing it still needs both addresses to be
     * writable.
     */
    method PushNn(registers: I.Pair, mem: AS.Mem)
      requires AS.WriteInBounds(sp) && AS.WriteInBounds(AS.Next(sp))
      modifies this
      ensures State() == I.PushNn(old(State()), registers)
    {
      var r1, r2 := 0, 0;
      match registers {
        case AF => r1, r2 := a * 0x100, b;
        case BC => r1, r2 := b * 0x100, c;
        case DE => r1, r2 := d * 0x100, e;
        case HL => r1, r2 := h * 0x100, l;
        case SP =>
      }
      var value := r1 + r2;
      assert value == I.PushValue(State(), registers);
      var copy := AS.WriteWord(mem, sp, value);
      sp := (sp + 0xFFFE) % 0x1_0000;
    }

    /** popnn (cpu.go:197-215). */
    method PopNn(registers: I.Pair, mem: AS.Mem)
      modifies this
      ensures State() == I.PopNn(old(State()), mem, registers)
    {
      var r1 := AS.ReadByte(mem, sp);
      var r2 := AS.ReadByte(mem, AS.Next(sp));
      match registers {
        case AF => a := r1; b := r2;
        case BC => b := r1; c := r2;
        case DE => d := r1; e := r2;
        case HL => h := r1; l := r2;
        case SP =>
      }
      sp := (sp + 2) % 0x1_0000;
    }

    // ----- 8-bit ALU -----

    /** addAn (cpu.go:221-238). */
    method AddAn(value: Byte)
      modifies this
      ensures State() == I.AddAn(old(State()), value)
    {
      var result := a + value;
      SetRegisterFlag(I.HighByteSet(result), I.CarryBit);
      SetRegisterFlag(false, I.SubtractBit);
      SetRegisterFlag(a % 16 + value % 16 > 15, I.HalfCarryBit);
      a := result % 0x100;
    }

    /** addcAn (cpu.go:240-245). */
    method AddcAn(value: Byte)
      modifies this
      ensures State() == I.AddcAn(old(State()), value)
    {
      var operand: Byte := value;
      if HasBit(flags, I.CarryBit) {
        operand := (operand + 1) % 0x100;
      }
      assert operand == (value + I.Carry(State())) % 0x100;
      AddAn(operand);
    }

    /** subn (cpu.go:247-272). */
    method SubN(value: Byte)
      modifies this
      ensures State() == I.SubN(old(State()), value)
    {
      var result := (a - value) % 0x1_0000;
      SetRegisterFlag(result < 0, I.SubtractBit);
      if result == 0 {
        SetRegisterFlag(true, I.ZeroBit);
      }
      SetRegisterFlag(a % 16 + value % 16 > 15, I.HalfCarryBit);
      SetRegisterFlag(I.HighByteSet(result), I.CarryBit);
      a := result % 0x100;
    }

    /** sbcAn (cpu.go:274-279). */
    method SbcAn(value: Byte)
      modifies this
      ensures State() == I.SbcAn(old(State()), value)
    {
      var operand: Byte := value;
      if HasBit(flags, I.CarryBit) {
        operand := (operand + 1) % 0x100;
      }
      assert operand == (value + I.Carry(State())) % 0x100;
      SubN(operand);
    }

    /** andn (cpu.go:281-294). */
    method AndN(value: Byte)
      modifies this
      ensures State() == I.AndN(old(State()), value)
    {
      var result := And8(a, value);
      if result == 0 {
        SetRegisterFlag(true, I.ZeroBit);
      }
      SetRegisterFlag(false, I.SubtractBit);
      SetRegisterFlag(true, I.HalfCarryBit);
      SetRegisterFlag(false, I.CarryBit);
      a := result;
    }

    /** orn (cpu.go:296-309). */
    method OrN(value: Byte)
      modifies this
      ensures State() == I.OrN(old(State()), value)
    {
      var result := Or8(a, value);
      if result == 0 {
        SetRegisterFlag(true, I.ZeroBit);
      }
      SetRegisterFlag(false, I.SubtractBit);
      SetRegisterFlag(false, I.HalfCarryBit);
      SetRegisterFlag(false, I.CarryBit);
      a := result;
    }

    /** xorn (cpu.go:311-324). */
    method XorN(value: Byte)
      modifies this
      ensures State() == I.XorN(old(State()), value)
    {
      var result := Xor8(a, value);
      if result == 0 {
        SetRegisterFlag(true, I.ZeroBit);
      }
      SetRegisterFlag(false, I.SubtractBit);
      SetRegisterFlag(false, I.HalfCarryBit);
      SetRegisterFlag(false, I.CarryBit);
      a := result;
    }

    /** cpn (cpu.go:326-330). */
    method CpN(value: Byte)
      modifies this
      ensures State() == I.CpN(old(State()), value)
    {
      var saved := a;
      SubN(value);
      a := saved;
    }

    /** incn (cpu.go:332-365), whose result starts at 0. */
    method IncN(register: I.Reg8)
      modifies this
      ensures State() == I.IncN(old(State()), register)
    {
      var result := 0;
      result := result + 1;
      Write(register, LowByte(result));
      SetRegisterFlag(I.HighByteSet(result), I.CarryBit);
      SetRegisterFlag(false, I.SubtractBit);
      SetRegisterFlag(a % 16 + result % 16 > 15, I.HalfCarryBit);
    }

    /** decn (cpu.go:367-408), whose result starts at 0. */
    method DecN(register: I.Reg8)
      modifies this
      ensures State() == I.DecN(old(State()), register)
    {
      var result := 0;
      result := (result + 0xFFFF) % 0x1_0000;
      Write(register, LowByte(result));
      SetRegisterFlag(result < 0, I.SubtractBit);
      // The Z test of line 393 compares 0xFFFF with 0 and never fires.
      SetRegisterFlag(a % 16 + result % 16 > 15, I.HalfCarryBit);
      SetRegisterFlag(I.HighByteSet(result), I.CarryBit);
    }

    // ----- 16-bit ALU -----

    /** addHLn (cpu.go:414-434). */
    method AddHLn(value: I.Int16)
      modifies this
      ensures State() == I.AddHLn(old(State()), value)
    {
      var hl := I.Signed16(Word16(h, l));
      var result := hl + value;
      I.Int32Carry(result);
      SetRegisterFlag(false, I.SubtractBit);
      SetRegisterFlag(result % 0x1_0000_0000 / 0x1_0000 % 0x100 != 0, I.CarryBit);
      SetRegisterFlag(result % 16 + value % 16 > 15, I.HalfCarryBit);
      ghost var f := flags;
      h := (result * 0x100) % 0x100;
      l := result % 0x100;
      assert State() == old(State()).(h := (result * 0x100) % 0x100, l := result % 0x100, flags := f);
    }

    /** addSPn (cpu.go:436-455). */
    method AddSPn(value: I.Int16)
      modifies this
      ensures State() == I.AddSPn(old(State()), value)
    {
      var result := sp + value;
      SetRegisterFlag(false, I.ZeroBit);
      SetRegisterFlag(false, I.SubtractBit);
      SetRegisterFlag(result % 0x1_0000_0000 / 0x1_0000 % 0x100 != 0, I.CarryBit);
      SetRegisterFlag(result % 16 + value % 16 > 15, I.HalfCarryBit);
      sp := result % 0x1_0000;
    }

    /** incnn (cpu.go:457-474), including the DE case that assigns D twice. */
    method IncNn(register: I.Pair)
      modifies this
      ensures State() == I.IncNn(old(State()), register)
    {
      match register
      case BC =>
        var result := (Word16(b, c) + 1) % 0x1_0000;
        b := HighByte(result);
        c := LowByte(result);
        assert State() == old(State()).(b := HighByte(result), c := LowByte(result));
      case DE =>
        var result := (Word16(d, e) + 1) % 0x1_0000;
        d := HighByte(result);
        d := LowByte(result);
        assert State() == old(State()).(d := LowByte(result));
      case HL =>
        var result := (Word16(h, l) + 1) % 0x1_0000;
        h := HighByte(result);
        l := LowByte(result);
        assert State() == old(State()).(h := HighByte(result), l := LowByte(result));
      case SP =>
        sp := (sp + 1) % 0x1_0000;
      case AF =>
    }

    /** decnn (cpu.go:476-493). */
    method DecNn(register: I.Pair)
      modifies this
      ensures State() == I.DecNn(old(State()), register)
    {
      match register
      case BC =>
        var result := (Word16(b, c) + 0xFFFF) % 0x1_0000;
        I.WrapStep(Word16(b, c));
        SplitJoin(result);
        b := HighByte(result);
        c := LowByte(result);
        assert State() == old(State()).(b := HighByte(result), c := LowByte(result));
      case DE =>
        var result := (Word16(d, e) + 0xFFFF) % 0x1_0000;
        I.WrapStep(Word16(d, e));
        SplitJoin(result);
        d := HighByte(result);
        e := LowByte(result);
        assert State() == old(State()).(d := HighByte(result), e := LowByte(result));
      case HL =>
        var result := (Word16(h, l) + 0xFFFF) % 0x1_0000;
        I.WrapStep(Word16(h, l));
        SplitJoin(result);
        h := HighByte(result);
        l := LowByte(result);
        assert State() == old(State()).(h := HighByte(result), l := LowByte(result));
      case SP =>
        sp := (sp + 0xFFFF) % 0x1_0000;
      case AF =>
    }

    // ----- Miscellaneous -----

    /**
     * swapn (cpu.go:499-541).  Each case declares its own `value`, so the Z
     * test after the switch reads the outer one, still 0.
     */
    method SwapN(register: I.Reg8)
      modifies this
      ensures State() == I.SwapN(old(State()), register)
    {
      var value: Byte := 0;
      {
        var value := Read(register);
        value := SwapNibbles(value);
        Write(register, value);
      }
      if value == 0 {
        SetRegisterFlag(true, I.ZeroBit);
      }
      SetRegisterFlag(false, I.SubtractBit);
      SetRegisterFlag(false, I.HalfCarryBit);
      SetRegisterFlag(false, I.CarryBit);
    }

    /**
     * dAA (cpu.go:543-571).  The carry test at line 568 compares the byte A
     * with the constant 0x100, which a byte cannot hold, so Go rejects that
     * line at compile time; C is kept, so it has no statement here.
     */
    method Daa()
      modifies this
      ensures State() == I.Daa(old(State()))
    {
      if HasBit(flags, I.SubtractBit) {
        if HasBit(flags, I.HalfCarryBit) {
          a := (a - 0x06) % 0x100;
        }
        if HasBit(flags, I.CarryBit) {
          a := (a - 0x60) % 0x100;
        }
        assert a == I.Daa(old(State())).a;
      } else {
        if HasBit(flags, I.HalfCarryBit) || a % 16 > 9 {
          a := (a + 0x06) % 0x100;
        }
        if HasBit(flags, I.CarryBit) || a > 0x9F {
          a := (a + 0x60) % 0x100;
        }
        assert a == I.Daa(old(State())).a;
      }
      SetRegisterFlag(false, I.HalfCarryBit);
      SetRegisterFlag(a == 0, I.ZeroBit);
    }

    /** cpl (cpu.go:573-579). */
    method Cpl()
      modifies this
      ensures State() == I.Cpl(old(State()))
    {
      a := Not8(a);
      SetRegisterFlag(true, I.SubtractBit);
      SetRegisterFlag(true, I.HalfCarryBit);
    }

    /** ccf (cpu.go:581-591). */
    method Ccf()
      modifies this
      ensures State() == I.Ccf(old(State()))
    {
      SetRegisterFlag(!HasBit(flags, I.CarryBit), I.CarryBit);
      SetRegisterFlag(false, I.SubtractBit);
      SetRegisterFlag(false, I.HalfCarryBit);
    }

    /** scf (cpu.go:593-600). */
    method Scf()
      modifies this
      ensures State() == I.Scf(old(State()))
    {
      SetRegisterFlag(true, I.CarryBit);
      SetRegisterFlag(false, I.SubtractBit);
      SetRegisterFlag(false, I.HalfCarryBit);
    }
  }
}
