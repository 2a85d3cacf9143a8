/**
 * The memory bus as a value: the seven backing arrays of the Memory struct
 * and the address decoding of readByte, readWord, writeByte and writeWord.
 * Memory is a Go struct of arrays, copied whole whenever it is passed by
 * value, so these functions are also the exact model of every callee that
 * receives a `Memory` rather than a `*Memory`.
 */
module AddressSpace {
  import opened Bits

  /** The backing stores of the Memory struct (memory.go:8-16). */
  datatype Regions = Regions(
    rom: seq<Byte>,
    vram: seq<Byte>,
    eram: seq<Byte>,
    wram: seq<Byte>,
    oam: seq<Byte>,
    io: seq<Byte>,
    hram: seq<Byte>)

  /** The fixed Go array sizes. */
  predicate Sized(m: Regions)
  {
    |m.rom| == 0x8000 && |m.vram| == 0x2000 && |m.eram| == 0x2000 && |m.wram| == 0x2000 &&
    |m.oam| == 0x100 && |m.io| == 0x100 && |m.hram| == 0x80
  }

  /** A Memory value: the arrays always have their declared sizes. */
  type Mem = m: Regions | Sized(m)
    witness Regions(seq(0x8000, _ => 0), seq(0x2000, _ => 0), seq(0x2000, _ => 0),
                    seq(0x2000, _ => 0), seq(0x100, _ => 0), seq(0x100, _ => 0), seq(0x80, _ => 0))

  /** The zero value of Memory: every byte 0. */
  function Blank(): (m: Mem)
    ensures forall i | 0 <= i < 0x1_0000 :: ReadByte(m, i) == 0
  {
    Regions(seq(0x8000, _ => 0), seq(0x2000, _ => 0), seq(0x2000, _ => 0),
            seq(0x2000, _ => 0), seq(0x100, _ => 0), seq(0x100, _ => 0), seq(0x80, _ => 0))
  }

  /** readByte (memory.go:18-36). */
  function ReadByte(m: Mem, address: Word): (b: Byte)
    ensures Unmapped(address) ==> b == 0
  {
    if address < 0x8000 then m.rom[address]
    else if 0x8000 <= address < 0xA000 then m.vram[address - 0x8000]
    else if 0xA000 <= address < 0xC000 then m.eram[address - 0xA000]
    else if 0xC000 <= address < 0xE000 then m.wram[address - 0xC000]
    else if 0xFE00 <= address < 0xFF00 then m.oam[address - 0xFE00]
    else if 0xFF00 <= address < 0xFF80 then m.io[address - 0xFF00]
    else if 0xFF80 <= address < 0xFFFF then m.hram[address - 0xFF80]
    else 0
  }

  /**
   * The index writeByte computes for an address fits its array.  The WRAM
   * branch takes every address strictly between 0xC000 and 0xFE00 and the OAM
   * branch every address in (0xFE00, 0xFF00]; past the array end Go panics.
   */
  predicate WriteInBounds(address: Word)
  {
    if 0xC000 < address < 0xFE00 then address - 0xC000 < 0x2000
    else if 0xFE00 < address <= 0xFF00 then address - 0xFE00 < 0x100
    else true
  }

  /** writeByte (memory.go:43-58). */
  function WriteByte(m: Mem, address: Word, value: Byte): (m': Mem)
    requires WriteInBounds(address)
    ensures RoundTrips(address) ==> ReadByte(m', address) == value
    ensures (address == 0xC000 || address == 0xFE00) ==> m' == m
  {
    if address < 0x8000 then m.(rom := m.rom[address := value])
    else if 0x8000 <= address < 0xA000 then m.(vram := m.vram[address - 0x8000 := value])
    else if 0xA000 <= address < 0xC000 then m.(eram := m.eram[address - 0xA000 := value])
    else if 0xC000 < address < 0xFE00 then m.(wram := m.wram[address - 0xC000 := value])
    else if 0xFE00 < address <= 0xFF00 then m.(oam := m.oam[address - 0xFE00 := value])
    else if 0xFF00 < address <= 0xFF80 then m.(io := m.io[address - 0xFF00 := value])
    else if 0xFF80 < address then m.(hram := m.hram[address - 0xFF80 := value])
    else m
  }

  /** The uint16 address after `address`, wrapping from 0xFFFF to 0. */
  function Next(address: Word): Word
  {
    (address + 1) % 0x1_0000
  }

  /**
   * readWord (memory.go:38-41).  concatenateBytes is not part of this model
   * and memory.go does not fix the byte order; the model reads the word
   * little-endian, as the Game Boy stores it: the byte at `address` is the
   * low half.
   */
  function ReadWord(m: Mem, address: Word): (w: Word)
    ensures LowByte(w) == ReadByte(m, address) && HighByte(w) == ReadByte(m, Next(address))
  {
    JoinSplit(ReadByte(m, Next(address)), ReadByte(m, address));
    Word16(ReadByte(m, Next(address)), ReadByte(m, address))
  }

  /**
   * writeWord (memory.go:61-65).  separateWord is not part of this model; the
   * word is written little-endian, matching ReadWord: the low byte goes to
   * `address` and the high byte after it.
   */
  function WriteWord(m: Mem, address: Word, value: Word): (m': Mem)
    requires WriteInBounds(address) && WriteInBounds(Next(address))
    ensures RoundTrips(address) ==> ReadByte(m', address) == LowByte(value)
    ensures RoundTrips(Next(address)) ==> ReadByte(m', Next(address)) == HighByte(value)
  {
    var m1 := WriteByte(m, address, LowByte(value));
    ReadOtherAfterWrite(m1, Next(address), HighByte(value), address);
    WriteByte(m1, Next(address), HighByte(value))
  }

  // ----- The memory map as a table -----

  /** The seven backing arrays. */
  datatype Region = Rom | Vram | Eram | Wram | Oam | Io | Hram

  /** Declared length of each array. */
  function Size(r: Region): nat
  {
    match r
    case Rom => 0x8000
    case Vram | Eram | Wram => 0x2000
    case Oam | Io => 0x100
    case Hram => 0x80
  }

  /** The contents of one array. */
  function Cells(m: Mem, r: Region): (s: seq<Byte>)
    ensures |s| == Size(r)
  {
    match r
    case Rom => m.rom
    case Vram => m.vram
    case Eram => m.eram
    case Wram => m.wram
    case Oam => m.oam
    case Io => m.io
    case Hram => m.hram
  }

  /** The address that maps to index 0 of each array. */
  function Base(r: Region): Word
  {
    match r
    case Rom => 0
    case Vram => 0x8000
    case Eram => 0xA000
    case Wram => 0xC000
    case Oam => 0xFE00
    case Io => 0xFF00
    case Hram => 0xFF80
  }

  /**
   * First address past the window readByte maps onto each array.  IO and HRAM
   * are read through shorter windows than their sizes: io[0x80..] and
   * hram[0x7F] can be written but never read.
   */
  function ReadEnd(r: Region): (e: int)
    ensures Base(r) < e <= Base(r) + Size(r)
  {
    match r
    case Rom => 0x8000
    case Vram => 0xA000
    case Eram => 0xC000
    case Wram => 0xE000
    case Oam => 0xFF00
    case Io => 0xFF80
    case Hram => 0xFFFF
  }

  /** First address of the window writeByte maps onto each array. */
  function WriteStart(r: Region): Word
  {
    match r
    case Rom => 0
    case Vram => 0x8000
    case Eram => 0xA000
    case Wram => 0xC001
    case Oam => 0xFE01
    case Io => 0xFF01
    case Hram => 0xFF81
  }

  /** Last address of the window writeByte maps onto each array. */
  function WriteLast(r: Region): Word
  {
    match r
    case Rom => 0x7FFF
    case Vram => 0x9FFF
    case Eram => 0xBFFF
    case Wram => 0xFDFF
    case Oam => 0xFF00
    case Io => 0xFF80
    case Hram => 0xFFFF
  }

  /** The memory with one cell of one array replaced. */
  function Store(m: Mem, r: Region, i: nat, value: Byte): (m': Mem)
    requires i < Size(r)
    ensures forall q: Region, j | 0 <= j < Size(q) ::
      Cells(m', q)[j] == if q == r && j == i then value else Cells(m, q)[j]
  {
    match r
    case Rom => m.(rom := m.rom[i := value])
    case Vram => m.(vram := m.vram[i := value])
    case Eram => m.(eram := m.eram[i := value])
    case Wram => m.(wram := m.wram[i := value])
    case Oam => m.(oam := m.oam[i := value])
    case Io => m.(io := m.io[i := value])
    case Hram => m.(hram := m.hram[i := value])
  }

  /** Addresses readByte maps to no array; they read as 0. */
  predicate Unmapped(address: Word)
  {
    0xE000 <= address < 0xFE00 || address == 0xFFFF
  }

  /** readByte follows the memory-map table, and unmapped addresses read 0. */
  lemma ReadByteMap(m: Mem, address: Word)
    ensures forall r: Region :: Base(r) <= address < ReadEnd(r) ==>
      ReadByte(m, address) == Cells(m, r)[address - Base(r)]
    ensures Unmapped(address) <==> forall r: Region :: !(Base(r) <= address < ReadEnd(r))
    ensures Unmapped(address) ==> ReadByte(m, address) == 0
  {
    if !Unmapped(address) {
      var r := RegionOf(address);
      assert Base(r) <= address < ReadEnd(r);
    }
  }

  /** The array readByte serves a mapped address from. */
  function RegionOf(address: Word): (r: Region)
    requires !Unmapped(address)
    ensures Base(r) <= address < ReadEnd(r)
  {
    if address < 0x8000 then Rom
    else if address < 0xA000 then Vram
    else if address < 0xC000 then Eram
    else if address < 0xE000 then Wram
    else if address < 0xFF00 then Oam
    else if address < 0xFF80 then Io
    else Hram
  }

  /** writeByte panics exactly at the echo-RAM addresses and at 0xFF00. */
  lemma WriteFaults(address: Word)
    ensures !WriteInBounds(address) <==> 0xE000 <= address <= 0xFDFF || address == 0xFF00
  {
  }

  /**
   * writeByte follows the write table: an in-bounds write replaces exactly one
   * cell of the array whose write window holds the address, and the two
   * addresses no window holds (0xC000 and 0xFE00) are ignored.
   */
  lemma WriteByteMap(m: Mem, address: Word, value: Byte)
    requires WriteInBounds(address)
    ensures forall r: Region :: WriteStart(r) <= address <= WriteLast(r) ==>
      address - Base(r) < Size(r) && WriteByte(m, address, value) == Store(m, r, address - Base(r), value)
    ensures (address == 0xC000 || address == 0xFE00) ==> WriteByte(m, address, value) == m
  {
  }

  /** Addresses where writing a byte and reading it back returns that byte. */
  predicate RoundTrips(address: Word)
  {
    address < 0xC000 || 0xC001 <= address < 0xE000 || 0xFE01 <= address < 0xFF00 ||
    0xFF01 <= address < 0xFF80 || 0xFF81 <= address < 0xFFFF
  }

  /**
   * Reading back a written byte gives it back exactly at the RoundTrips
   * addresses; at the four other in-bounds addresses (0xC000, 0xFE00, 0xFF80,
   * 0xFFFF) the read window and the write window disagree and the read is
   * unaffected.
   */
  lemma ReadAfterWrite(m: Mem, address: Word, value: Byte)
    requires WriteInBounds(address)
    ensures ReadByte(WriteByte(m, address, value), address) ==
      if RoundTrips(address) then value else ReadByte(m, address)
    ensures !RoundTrips(address) <==> address in {0xC000, 0xFE00, 0xFF80, 0xFFFF}
  {
  }

  /** A write never changes what readByte returns at any other address. */
  lemma ReadOtherAfterWrite(m: Mem, address: Word, value: Byte, other: Word)
    requires WriteInBounds(address) && other != address
    ensures ReadByte(WriteByte(m, address, value), other) == ReadByte(m, other)
  {
  }

  /** readWord after writeWord returns the word where both bytes round-trip. */
  lemma {:induction false} ReadWordAfterWriteWord(m: Mem, address: Word, value: Word)
    requires WriteInBounds(address) && WriteInBounds(Next(address))
    requires RoundTrips(address) && RoundTrips(Next(address))
    ensures ReadWord(WriteWord(m, address, value), address) == value
  {
    var low, high := LowByte(value), HighByte(value);
    var m1 := WriteByte(m, address, low);
    ReadAfterWrite(m, address, low);
    ReadOtherAfterWrite(m1, Next(address), high, address);
    ReadAfterWrite(m1, Next(address), high);
    SplitJoin(value);
  }

  /** writeWord leaves readByte unchanged at every address other than its two. */
  lemma {:induction false} ReadOtherAfterWriteWord(m: Mem, address: Word, value: Word, other: Word)
    requires WriteInBounds(address) && WriteInBounds(Next(address))
    requires other != address && other != Next(address)
    ensures ReadByte(WriteWord(m, address, value), other) == ReadByte(m, other)
  {
    var low, high := LowByte(value), HighByte(value);
    ReadOtherAfterWrite(m, address, low, other);
    ReadOtherAfterWrite(WriteByte(m, address, low), Next(address), high, other);
  }
}
