/**
 * The Memory struct as the object the driver and the picture unit update in
 * place through a `*Memory`: seven fixed-size arrays written one cell at a
 * time.  Every method is proved against the value-level functions of
 * AddressSpace.
 */
module MemoryUnit {
  import opened Bits
  import AS = AddressSpace

  class Memory {
    var rom: array<Byte>
    var vram: array<Byte>
    var eram: array<Byte>
    var wram: array<Byte>
    var oam: array<Byte>
    var io: array<Byte>
    var hram: array<Byte>

    /** The arrays have their declared sizes and are seven distinct objects. */
    ghost predicate Valid()
      reads this
    {
      rom.Length == 0x8000 && vram.Length == 0x2000 && eram.Length == 0x2000 &&
      wram.Length == 0x2000 && oam.Length == 0x100 && io.Length == 0x100 && hram.Length == 0x80 &&
      vram != eram && vram != wram && eram != wram && oam != io
    }

    /** The objects a write may change. */
    ghost function Repr(): set<object>
      reads this
    {
      {rom, vram, eram, wram, oam, io, hram}
    }

    /** The contents, as the value a by-value Memory parameter receives. */
    function View(): AS.Mem
      requires Valid()
      reads this, rom, vram, eram, wram, oam, io, hram
    {
      AS.Regions(rom[..], vram[..], eram[..], wram[..], oam[..], io[..], hram[..])
    }

    /** The zero value of the struct. */
    constructor ()
      ensures Valid() && fresh(Repr())
      ensures View() == AS.Blank()
    {
      rom := new Byte[0x8000](_ => 0);
      vram := new Byte[0x2000](_ => 0);
      eram := new Byte[0x2000](_ => 0);
      wram := new Byte[0x2000](_ => 0);
      oam := new Byte[0x100](_ => 0);
      io := new Byte[0x100](_ => 0);
      hram := new Byte[0x80](_ => 0);
    }

    /** writeByte (memory.go:43-58) on the arrays themselves. */
    method WriteByte(address: Word, value: Byte)
      requires Valid() && AS.WriteInBounds(address)
      modifies Repr()
      ensures Valid() && Repr() == old(Repr())
      ensures View() == AS.WriteByte(old(View()), address, value)
    {
      if address < 0x8000 {
        rom[address] := value;
      } else if 0x8000 <= address < 0xA000 {
        vram[address - 0x8000] := value;
      } else if 0xA000 <= address < 0xC000 {
        eram[address - 0xA000] := value;
      } else if 0xC000 < address < 0xFE00 {
        wram[address - 0xC000] := value;
      } else if 0xFE00 < address <= 0xFF00 {
        oam[address - 0xFE00] := value;
      } else if 0xFF00 < address <= 0xFF80 {
        io[address - 0xFF00] := value;
      } else if 0xFF80 < address {
        hram[address - 0xFF80] := value;
      }
    }

    /** writeWord (memory.go:61-65): low byte at address, high byte after it. */
    method WriteWord(address: Word, value: Word)
      requires Valid() && AS.WriteInBounds(address) && AS.WriteInBounds(AS.Next(address))
      modifies Repr()
      ensures Valid() && Repr() == old(Repr())
      ensures View() == AS.WriteWord(old(View()), address, value)
    {
      WriteByte(address, LowByte(value));
      WriteByte(AS.Next(address), HighByte(value));
    }

    /**
     * loadRom (memory.go:67-75) once the file has been read: the first 0x8000
     * bytes are copied into ROM, the rest of the file is ignored, and a
     * shorter file makes the copy loop index past its end.
     */
    method LoadRom(data: seq<Byte>)
      requires Valid() && |data| >= 0x8000
      modifies rom
      ensures Valid()
      ensures View() == old(View()).(rom := data[..0x8000])
    {
      var i := 0;
      while i < 0x8000
        invariant 0 <= i <= 0x8000
        invariant forall j | 0 <= j < i :: rom[j] == data[j]
        invariant forall j | i <= j < 0x8000 :: rom[j] == old(rom[j])
      {
        rom[i] := data[i];
        i := i + 1;
      }
      assert rom[..] == data[..0x8000];
    }
  }
}
