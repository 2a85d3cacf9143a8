/**
 * The picture unit as values: the four-mode timing machine of step, the
 * background addressing of writeScanline, the palette lookup of getColor,
 * the LCD-control decode of setGpuControl and the tile decode of getVram.
 * The Gpu class in module Graphics is proved against these functions.
 */
module Video {
  import opened Bits
  import AS = AddressSpace

  // ----- The timing machine -----

  /** The fields of the Gpu struct that step updates (gpu.go:4-8). */
  datatype Timing = Timing(mode: int, modeClock: int, line: int, rendering: bool)

  /** The zero value of the struct: HBlank at line 0. */
  const Zero := Timing(0, 0, 0, false)

  /** How long each mode lasts, in cycles: HBlank, VBlank, OAM scan, VRAM scan. */
  function Threshold(mode: int): int
    requires 0 <= mode <= 3
  {
    if mode == 0 then 204 else if mode == 1 then 456 else if mode == 2 then 80 else 172
  }

  /** The step reaches the end of the current mode. */
  predicate Fires(t: Timing, cycles: int)
  {
    0 <= t.mode <= 3 && t.modeClock + cycles >= Threshold(t.mode)
  }

  /** The step writes the incremented line to 0xFF44: the end of HBlank or of a VBlank line. */
  predicate AdvancesLine(t: Timing, cycles: int)
  {
    Fires(t, cycles) && (t.mode == 0 || t.mode == 1)
  }

  /** The step ends VRAM scan and draws the current line with writeScanline. */
  predicate DrawsLine(t: Timing, cycles: int)
  {
    Fires(t, cycles) && t.mode == 3
  }

  /**
   * step (gpu.go:24-69) on the timing fields.  The clock advances by the
   * cycle count and rendering is cleared; a mode whose clock reaches its
   * threshold resets the clock, with no remainder carried, and moves on.
   * HBlank increments the line and enters VBlank (signalling a finished
   * frame) when the new line is 143, OAM scan otherwise.  VBlank increments
   * the line and wraps to line 0 and OAM scan past 153, staying in VBlank
   * otherwise.  OAM scan enters VRAM scan and VRAM scan enters HBlank.  A mode
   * outside 0-3 matches no case.
   */
  function Step(t: Timing, cycles: int): (t': Timing)
    ensures !Fires(t, cycles) ==> t' == t.(modeClock := t.modeClock + cycles, rendering := false)
    ensures Fires(t, cycles) ==> t'.modeClock == 0
    ensures Fires(t, cycles) ==>
              t'.mode == (if t.mode == 0 then (if t.line + 1 == 143 then 1 else 2)
                          else if t.mode == 1 then (if t.line + 1 > 153 then 2 else 1)
                          else if t.mode == 2 then 3
                          else 0)
    ensures t'.rendering <==> Fires(t, cycles) && t.mode == 0 && t.line == 142
    ensures AdvancesLine(t, cycles) ==> t'.line == if t.line + 1 > 153 && t.mode == 1 then 0 else t.line + 1
    ensures !AdvancesLine(t, cycles) ==> t'.line == t.line
  {
    var clock := t.modeClock + cycles;
    var waiting := t.(modeClock := clock, rendering := false);
    if t.mode == 0 then
      if clock >= 204 then
        var line := t.line + 1;
        if line == 143 then Timing(1, 0, line, true) else Timing(2, 0, line, false)
      else waiting
    else if t.mode == 1 then
      if clock >= 456 then
        var line := t.line + 1;
        if line > 153 then Timing(2, 0, 0, false) else Timing(1, 0, line, false)
      else waiting
    else if t.mode == 2 then
      if clock >= 80 then Timing(3, 0, t.line, false) else waiting
    else if t.mode == 3 then
      if clock >= 172 then Timing(0, 0, t.line, false) else waiting
    else waiting
  }

  /**
   * step first adds the cycles to the clock and clears rendering; what the
   * switch then does is a step of zero cycles from that state.
   */
  lemma StepAfterClock(t: Timing, cycles: int)
    ensures var t1 := t.(modeClock := t.modeClock + cycles, rendering := false);
      Step(t1, 0) == Step(t, cycles) &&
      (AdvancesLine(t1, 0) <==> AdvancesLine(t, cycles)) &&
      (DrawsLine(t1, 0) <==> DrawsLine(t, cycles)) &&
      LineRegister(t1) == LineRegister(t)
  {
  }

  /** The byte step writes to 0xFF44 when it advances the line: `byte(gpu.line)` after the increment. */
  function LineRegister(t: Timing): Byte
  {
    (t.line + 1) % 0x100
  }

  /**
   * The states step can reach from the zero value: a known mode, lines 0-142
   * outside VBlank and lines 143-153 in it.
   */
  predicate Reachable(t: Timing)
  {
    0 <= t.mode <= 3 &&
    (t.mode != 1 ==> 0 <= t.line <= 142) &&
    (t.mode == 1 ==> 143 <= t.line <= 153)
  }

  /** The zero value is reachable, and every step keeps the invariant whatever the cycle count. */
  lemma StepKeepsReachable(t: Timing, cycles: int)
    ensures Reachable(Zero)
    ensures Reachable(t) ==> Reachable(Step(t, cycles))
  {
  }

  /** step applied to each cycle count in turn. */
  function Run(t: Timing, cycles: seq<int>): Timing
    decreases |cycles|
  {
    if |cycles| == 0 then t else Run(Step(t, cycles[0]), cycles[1..])
  }

  /** Every state reached from the zero value by any sequence of steps satisfies the invariant. */
  lemma {:induction false} RunKeepsReachable(t: Timing, cycles: seq<int>)
    requires Reachable(t)
    ensures Reachable(Run(t, cycles))
    decreases |cycles|
  {
    if |cycles| > 0 {
      StepKeepsReachable(t, cycles[0]);
      RunKeepsReachable(Step(t, cycles[0]), cycles[1..]);
    }
  }

  /** Running two sequences of steps is running their concatenation. */
  lemma {:induction false} RunAppend(t: Timing, xs: seq<int>, ys: seq<int>)
    ensures Run(t, xs + ys) == Run(Run(t, xs), ys)
    decreases |xs|
  {
    if |xs| == 0 {
      assert xs + ys == ys;
    } else {
      assert (xs + ys)[1..] == xs[1..] + ys;
      RunAppend(Step(t, xs[0]), xs[1..], ys);
    }
  }

  /** The three exact mode lengths of one visible line: OAM scan, VRAM scan, HBlank. */
  const LineCycles: seq<int> := [80, 172, 204]

  /**
   * A visible line from the start of OAM scan takes 456 cycles and ends at
   * the start of the next line's OAM scan, or in VBlank at line 143 with the
   * frame signalled after line 142.
   */
  lemma VisibleLine(line: int, rendering: bool)
    requires 0 <= line <= 142
    ensures Run(Timing(2, 0, line, rendering), LineCycles) ==
      if line < 142 then Timing(2, 0, line + 1, false) else Timing(1, 0, 143, true)
    ensures LineCycles[0] + LineCycles[1] + LineCycles[2] == 456
  {
    var t0 := Timing(2, 0, line, rendering);
    var t1 := Step(t0, 80);
    var t2 := Step(t1, 172);
    var t3 := Step(t2, 204);
    assert t1 == Timing(3, 0, line, false);
    assert t2 == Timing(0, 0, line, false);
    assert Run(t0, LineCycles) == Run(t1, [172, 204]) by {
      assert LineCycles[1..] == [172, 204];
    }
    assert Run(t1, [172, 204]) == Run(t2, [204]) by {
      assert [172, 204][1..] == [204];
    }
    assert Run(t2, [204]) == Run(t3, []) by {
      assert [204][1..] == [];
    }
  }

  /** A VBlank line takes 456 cycles; after line 153 scanning restarts at line 0. */
  lemma VBlankLine(line: int, rendering: bool)
    requires 143 <= line <= 153
    ensures Step(Timing(1, 0, line, rendering), 456) ==
      if line < 153 then Timing(1, 0, line + 1, false) else Timing(2, 0, 0, false)
  {
  }

  /** n copies of s, one after the other. */
  function Repeat(s: seq<int>, n: nat): (r: seq<int>)
    ensures |r| == n * |s|
  {
    if n == 0 then [] else Repeat(s, n - 1) + s
  }

  /** The sum of a sequence of cycle counts. */
  function Sum(s: seq<int>): int
  {
    if |s| == 0 then 0 else Sum(s[..|s| - 1]) + s[|s| - 1]
  }

  /** The cycles of n repetitions add up n times. */
  lemma {:induction false} SumRepeat(s: seq<int>, n: nat)
    ensures Sum(Repeat(s, n)) == n * Sum(s)
  {
    if n > 0 {
      SumRepeat(s, n - 1);
      SumAppend(Repeat(s, n - 1), s);
      assert n * Sum(s) == (n - 1) * Sum(s) + Sum(s);
    }
  }

  /** Sum distributes over concatenation. */
  lemma {:induction false} SumAppend(xs: seq<int>, ys: seq<int>)
    ensures Sum(xs + ys) == Sum(xs) + Sum(ys)
  {
    if |ys| == 0 {
      assert xs + ys == xs;
    } else {
      var zs := ys[..|ys| - 1];
      assert (xs + ys)[..|xs + ys| - 1] == xs + zs;
      assert (xs + ys)[|xs + ys| - 1] == ys[|ys| - 1];
      SumAppend(xs, zs);
    }
  }

  /** n visible lines in a row from OAM scan of `line`. */
  lemma {:induction false} VisibleLines(line: int, rendering: bool, n: nat)
    requires 0 <= line && line + n <= 142
    ensures Run(Timing(2, 0, line, rendering), Repeat(LineCycles, n)) ==
      if n == 0 then Timing(2, 0, line, rendering) else Timing(2, 0, line + n, false)
  {
    if n > 0 {
      VisibleLines(line, rendering, n - 1);
      RunAppend(Timing(2, 0, line, rendering), Repeat(LineCycles, n - 1), LineCycles);
      VisibleLine(line + n - 1, if n == 1 then rendering else false);
    }
  }

  /** n VBlank lines in a row from line `line`, staying inside VBlank. */
  lemma {:induction false} VBlankLines(line: int, rendering: bool, n: nat)
    requires 143 <= line && line + n <= 153
    ensures Run(Timing(1, 0, line, rendering), Repeat([456], n)) ==
      if n == 0 then Timing(1, 0, line, rendering) else Timing(1, 0, line + n, false)
  {
    if n > 0 {
      VBlankLines(line, rendering, n - 1);
      RunAppend(Timing(1, 0, line, rendering), Repeat([456], n - 1), [456]);
      VBlankLine(line + n - 1, if n == 1 then rendering else false);
    }
  }

  /** The exact cycle counts of one frame: 143 visible lines, then 11 VBlank lines. */
  function FrameCycles(): seq<int>
  {
    Repeat(LineCycles, 143) + Repeat([456], 11)
  }

  /**
   * A frame fed exactly the mode lengths returns to line 0 at the start of
   * OAM scan after 154 lines of 456 cycles, 70224 cycles in all, and passes
   * through the frame-finished state (VBlank at line 143 with rendering set).
   */
  lemma {:induction false} FullFrame(rendering: bool)
    ensures Run(Run(Timing(2, 0, 0, rendering), Repeat(LineCycles, 143)), []) == Timing(1, 0, 143, true)
    ensures Run(Timing(2, 0, 0, rendering), FrameCycles()) == Timing(2, 0, 0, false)
    ensures Sum(FrameCycles()) == 154 * 456 == 70224
  {
    var start := Timing(2, 0, 0, rendering);
    VisibleLines(0, rendering, 142);
    RunAppend(start, Repeat(LineCycles, 142), LineCycles);
    VisibleLine(142, false);
    assert Run(start, Repeat(LineCycles, 143)) == Timing(1, 0, 143, true);
    RunAppend(start, Repeat(LineCycles, 143), Repeat([456], 11));
    VBlankLines(143, true, 10);
    RunAppend(Timing(1, 0, 143, true), Repeat([456], 10), [456]);
    VBlankLine(153, false);
    SumAppend(Repeat(LineCycles, 143), Repeat([456], 11));
    SumRepeat(LineCycles, 143);
    SumRepeat([456], 11);
    assert Sum(LineCycles) == 456;
  }

  /**
   * At the wrap from VBlank, 0xFF44 receives 154 while the line becomes 0:
   * the line is written before it is reset.
   */
  lemma LineRegisterAtWrap(t: Timing, cycles: int)
    requires t.mode == 1 && t.line == 153 && Fires(t, cycles)
    ensures AdvancesLine(t, cycles) && LineRegister(t) == 154 && Step(t, cycles).line == 0
  {
  }

  // ----- The IO registers the picture unit reads -----

  /** LCD control, 0xFF40. */
  function Lcdc(m: AS.Mem): Byte { AS.ReadByte(m, 0xFF40) }

  /** Background scroll Y, 0xFF42. */
  function ScrollY(m: AS.Mem): Byte { AS.ReadByte(m, 0xFF42) }

  /** Background scroll X, 0xFF43. */
  function ScrollX(m: AS.Mem): Byte { AS.ReadByte(m, 0xFF43) }

  /** Background palette, 0xFF47. */
  function Palette(m: AS.Mem): Byte { AS.ReadByte(m, 0xFF47) }

  /** The IO registers are the cells of the io array. */
  lemma IoRegisters(m: AS.Mem)
    ensures Lcdc(m) == m.io[0x40] && ScrollY(m) == m.io[0x42]
    ensures ScrollX(m) == m.io[0x43] && Palette(m) == m.io[0x47]
  {
  }

  // ----- Palette -----

  /** The palette slot a pixel's two bits select: 0, 1, 2 or 3. */
  function Slot(pixel1: bool, pixel2: bool): (s: nat)
    ensures s <= 3
  {
    (if pixel1 then 2 else 0) + (if pixel2 then 1 else 0)
  }

  /** Two adjacent bits: (n >> lo) & 3 is twice bit lo + 1 plus bit lo. */
  lemma TwoBits(n: nat, lo: nat)
    ensures Shr(n, lo) % 4 == 2 * (Shr(n, lo + 1) % 2) + Shr(n, lo) % 2
  {
    ShrSucc(n, lo);
    var x := Shr(n, lo);
    DivMod(x, 4, x / 4, x % 4);
    DivMod(x / 2, 2, x / 4, (x % 4) / 2);
  }

  /**
   * getColor (gpu.go:134-164): the two palette bits of the pixel's slot,
   * bit `hi` as the high bit of the shade and bit `lo` as the low bit; the
   * shade is `(palette >> lo) & 3` with lo = 0, 2, 4, 6.
   */
  function GetColor(pixel1: bool, pixel2: bool, m: AS.Mem): (color: int)
    ensures 0 <= color <= 3
    ensures color == Shr(Palette(m), 2 * Slot(pixel1, pixel2)) % 4
  {
    var palette := AS.ReadByte(m, 0xFF47);
    var lo: Word :=
      if !pixel1 && !pixel2 then 0 else if !pixel1 && pixel2 then 2 else if pixel1 && !pixel2 then 4 else 6;
    var hi: Word := lo + 1;
    var color1 := HasBit(palette, hi);
    var color2 := HasBit(palette, lo);
    TwoBits(palette, lo);
    if color1 && color2 then 3
    else if color1 && !color2 then 2
    else if !color1 && color2 then 1
    else 0
  }

  /** With the palette 0xE4 (binary 11 10 01 00) every slot shows its own number as shade. */
  lemma IdentityPalette(pixel1: bool, pixel2: bool, m: AS.Mem)
    requires Palette(m) == 0xE4
    ensures GetColor(pixel1, pixel2, m) == Slot(pixel1, pixel2)
  {
    assert Shr(0xE4, 0) % 4 == 0;
    assert Shr(0xE4, 2) % 4 == 1;
    assert Shr(0xE4, 4) % 4 == 2;
    assert Shr(0xE4, 6) % 4 == 3;
  }

  // ----- LCD control -----

  /** The eight flags setGpuControl copies out of LCD control, bit 0 first. */
  datatype LcdControl = LcdControl(
    lcd: bool, sprite: bool, spriteSize: bool, backgroundMap: bool,
    backgroundSet: bool, window: bool, windowMap: bool, display: bool)

  /** setGpuControl's decode (gpu.go:166-176): the i-th flag is bit i of the register. */
  function Control(register: Byte): (c: LcdControl)
    ensures forall i: Word | i < 8 :: Flags(c)[i] == HasBit(register, i)
  {
    LcdControl(HasBit(register, 0), HasBit(register, 1), HasBit(register, 2), HasBit(register, 3),
               HasBit(register, 4), HasBit(register, 5), HasBit(register, 6), HasBit(register, 7))
  }

  function Digit(b: bool): nat { if b then 1 else 0 }

  /** The flags in bit order. */
  function Flags(c: LcdControl): (bs: seq<bool>)
    ensures |bs| == 8
  {
    [c.lcd, c.sprite, c.spriteSize, c.backgroundMap, c.backgroundSet, c.window, c.windowMap, c.display]
  }

  /** The number whose binary digits, least significant first, are bs. */
  function BitsValue(bs: seq<bool>): nat
  {
    if |bs| == 0 then 0 else Digit(bs[0]) + 2 * BitsValue(bs[1..])
  }

  /** Digit i of BitsValue(bs) is bs[i], and the value fits in |bs| bits. */
  lemma {:induction false} BitsValueDigits(bs: seq<bool>, i: nat)
    requires i < |bs|
    ensures Shr(BitsValue(bs), i) % 2 == Digit(bs[i])
    ensures BitsValue(bs) < Pow2(|bs|)
  {
    var rest := BitsValue(bs[1..]);
    assert BitsValue(bs) / 2 == rest;
    if i > 0 {
      BitsValueDigits(bs[1..], i - 1);
    } else if |bs| > 1 {
      BitsValueDigits(bs[1..], 0);
    }
  }

  /** The register value whose bits are the eight flags. */
  function Encode(c: LcdControl): Byte
  {
    BitsValueDigits(Flags(c), 0);
    Pow2Eight();
    BitsValue(Flags(c))
  }

  /** Decoding an encoded control gives back the flags. */
  lemma ControlOfEncode(c: LcdControl)
    ensures Control(Encode(c)) == c
  {
    var bs := Flags(c);
    var x := Encode(c);
    assert x == BitsValue(bs);
    BitsValueDigits(bs, 0);
    BitsValueDigits(bs, 1);
    BitsValueDigits(bs, 2);
    BitsValueDigits(bs, 3);
    BitsValueDigits(bs, 4);
    BitsValueDigits(bs, 5);
    BitsValueDigits(bs, 6);
    BitsValueDigits(bs, 7);
  }

  /** The decode loses nothing: the eight flags determine the register byte. */
  lemma EncodeOfControl(register: Byte)
    ensures Encode(Control(register)) == register
  {
    var c := Control(register);
    ControlOfEncode(c);
    var x := Encode(c);
    assert HasBit(x, 0) == HasBit(register, 0) && HasBit(x, 1) == HasBit(register, 1);
    assert HasBit(x, 2) == HasBit(register, 2) && HasBit(x, 3) == HasBit(register, 3);
    assert HasBit(x, 4) == HasBit(register, 4) && HasBit(x, 5) == HasBit(register, 5);
    assert HasBit(x, 6) == HasBit(register, 6) && HasBit(x, 7) == HasBit(register, 7);
    ByteExtensionality(x, register);
  }

  // ----- Background addressing of writeScanline -----

  /** Tile data base: 0x8000 with bit 4 of LCD control set (unsigned ids), else 0x8800. */
  function TileDataBase(lcdc: Byte): Word
  {
    if HasBit(lcdc, 4) then 0x8000 else 0x8800
  }

  /** Tile map base: 0x9C00 with bit 3 of LCD control set, else 0x9800. */
  function TileMapBase(lcdc: Byte): Word
  {
    if HasBit(lcdc, 3) then 0x9C00 else 0x9800
  }

  /** The map column of the k-th eight-pixel group: pixel 1 + 8k shifted by the scroll. */
  function MapColumn(k: nat, scrollX: Byte): nat
  {
    (1 + 8 * k + scrollX) / 8
  }

  /** The tile-map entry of map column col on background row y, in uint16 arithmetic. */
  function TileMapAddress(m: AS.Mem, y: nat, col: nat): Word
  {
    (TileMapBase(Lcdc(m)) + (y / 8 * 32) % 0x1_0000 + col % 0x1_0000) % 0x1_0000
  }

  /** The tile id after the signed-mode offset: ids below 128 gain 128 when bit 4 is clear. */
  function AdjustedId(lcdc: Byte, id: Byte): Byte
  {
    if !HasBit(lcdc, 4) && id < 128 then id + 128 else id
  }

  /** Where a tile's sixteen bytes start, as writeScanline computes it. */
  function TileDataAddress(lcdc: Byte, id: Byte): Word
  {
    (TileDataBase(lcdc) + AdjustedId(lcdc, id) * 16) % 0x1_0000
  }

  /** The first of the two bytes of row y % 8 of the tile map column col shows on row y. */
  function TileRowAddress(m: AS.Mem, y: nat, col: nat): Word
  {
    var id := AS.ReadByte(m, TileMapAddress(m, y, col));
    (TileDataAddress(Lcdc(m), id) + (y % 8) * 2) % 0x1_0000
  }

  /**
   * The shade of pixel i of map column col on row y: bit 8 - i of the tile
   * row's two bytes, looked up in the palette.
   */
  function PixelColor(m: AS.Mem, y: nat, col: nat, i: nat): int
    requires i < 8
  {
    var row := TileRowAddress(m, y, col);
    var byte1 := AS.ReadByte(m, row);
    var byte2 := AS.ReadByte(m, AS.Next(row));
    GetColor(HasBit(byte1, 8 - i), HasBit(byte2, 8 - i), m)
  }

  /**
   * The shade of frame-buffer column c on background row y when map column
   * c / 8 lands on group c / 8: its pixel c % 8.
   */
  function ColumnColor(m: AS.Mem, y: nat, c: nat): int
  {
    PixelColor(m, y, c / 8, c % 8)
  }

  /**
   * The frame-buffer indices writeScanline uses stay inside its 160 x 144
   * array: the row line + scrollY is below 144, and a horizontal scroll of at
   * most 6 keeps every map column at its group number.
   */
  predicate ScanlineFits(line: int, m: AS.Mem)
  {
    0 <= line && line + ScrollY(m) < 144 && ScrollX(m) <= 6
  }

  /** Within a fitting scanline, group k reads map column k. */
  lemma MapColumnIsGroup(k: nat, scrollX: Byte)
    requires scrollX <= 6
    ensures MapColumn(k, scrollX) == k
  {
    DivMod(1 + 8 * k + scrollX, 8, k, 1 + scrollX);
  }

  /**
   * The map entry of column col (below 32) on a visible row y (below 144) is
   * entry col of map row y / 8 inside the selected 32 x 32 map, with no
   * uint16 wrap.
   */
  lemma TileMapEntry(m: AS.Mem, y: nat, col: nat)
    requires y < 144 && col < 32
    ensures TileMapAddress(m, y, col) == TileMapBase(Lcdc(m)) + y / 8 * 32 + col
    ensures TileMapBase(Lcdc(m)) <= TileMapAddress(m, y, col) < TileMapBase(Lcdc(m)) + 0x400
  {
    var q := y / 8;
    assert q <= 17;
    assert q * 32 <= 544;
    assert (q * 32) % 0x1_0000 == q * 32 && col % 0x1_0000 == col;
  }

  /**
   * The tile row writeScanline reads lies in 0x8000-0x8FFF for unsigned ids
   * and in 0x9000-0x97FF for signed ids, at offset (y % 8) * 2 inside its
   * tile, so both of its bytes are served by VRAM.
   */
  lemma TileRowInVram(m: AS.Mem, y: nat, col: nat)
    ensures var row := TileRowAddress(m, y, col);
      (HasBit(Lcdc(m), 4) ==> 0x8000 <= row && row + 1 < 0x9000) &&
      (!HasBit(Lcdc(m), 4) ==> 0x9000 <= row && row + 1 < 0x9800) &&
      row % 16 == (y % 8) * 2
  {
    var id := AS.ReadByte(m, TileMapAddress(m, y, col));
    var base: int := TileDataBase(Lcdc(m));
    var a: int := AdjustedId(Lcdc(m), id);
    var offset: int := (y % 8) * 2;
    assert TileDataAddress(Lcdc(m), id) == base + a * 16;
    assert TileRowAddress(m, y, col) == base + a * 16 + offset;
    DivMod(base + a * 16 + offset, 16, base / 16 + a, offset);
  }

  /**
   * The first pixel of every group tests bit 8 of a byte, which is always
   * clear, so every eighth column shows the shade of slot 0.
   */
  lemma FirstPixelIsSlotZero(m: AS.Mem, y: nat, col: nat)
    ensures PixelColor(m, y, col, 0) == GetColor(false, false, m)
  {
    var row := TileRowAddress(m, y, col);
    ByteHighBitsClear(AS.ReadByte(m, row), 8);
    ByteHighBitsClear(AS.ReadByte(m, AS.Next(row)), 8);
  }

  /**
   * In signed mode the id offset maps ids n and n + 128 to the same tile:
   * both read the sixteen bytes at 0x9000 + 16n, and nothing below 0x9000 is
   * ever addressed.
   */
  lemma SignedTilesAlias(lcdc: Byte, n: Byte)
    requires !HasBit(lcdc, 4) && n < 128
    ensures TileDataAddress(lcdc, n) == TileDataAddress(lcdc, n + 128) == 0x9000 + 16 * n
  {
  }

  /** A byte read as a two's complement int8. */
  function Signed8(id: Byte): int
  {
    if id < 128 then id else id - 0x100
  }

  /**
   * The tile addressing the signed mode evidently intends: the id is a signed
   * offset from 0x9000, that is `tile_id += 128` for every id, wrapping in
   * the byte, on the 0x8800 base.
   */
  function TileDataAddressIntended(lcdc: Byte, id: Byte): Word
  {
    if HasBit(lcdc, 4) then 0x8000 + id * 16 else 0x8800 + ((id + 128) % 0x100) * 16
  }

  /**
   * The intended addressing puts each of the 256 ids on its own tile: 0x8000
   * + 16 id unsigned, 0x9000 + 16 int8(id) signed, inside the tile area
   * 0x8000-0x97FF.  It agrees with writeScanline's for unsigned ids and for
   * signed ids below 128.
   */
  lemma TileDataIntended(lcdc: Byte, id: Byte, other: Byte)
    ensures HasBit(lcdc, 4) ==> TileDataAddressIntended(lcdc, id) == 0x8000 + 16 * id
    ensures !HasBit(lcdc, 4) ==> TileDataAddressIntended(lcdc, id) == 0x9000 + 16 * Signed8(id)
    ensures 0x8000 <= TileDataAddressIntended(lcdc, id) && TileDataAddressIntended(lcdc, id) + 16 <= 0x9800
    ensures id != other ==>
      TileDataAddressIntended(lcdc, id) + 16 <= TileDataAddressIntended(lcdc, other) ||
      TileDataAddressIntended(lcdc, other) + 16 <= TileDataAddressIntended(lcdc, id)
    ensures (HasBit(lcdc, 4) || id < 128) ==> TileDataAddressIntended(lcdc, id) == TileDataAddress(lcdc, id)
  {
  }

  // ----- getVram -----

  /**
   * The entry getVram (gpu.go:119-132) stores for tile byte pair `index` and
   * bit i: bit i of byte 2 index plus bit i of byte 2 index + 1 of the VRAM
   * array; the loop starts at bit 1, so bit 0 keeps the zero value.
   */
  function VramShade(m: AS.Mem, index: nat, i: nat): (r: Byte)
    requires index < 0x1000 && i < 8
    ensures r <= 2
    ensures i == 0 ==> r == 0
    ensures i > 0 ==> r == Digit(HasBit(m.vram[2 * index], i)) + Digit(HasBit(m.vram[2 * index + 1], i))
  {
    if i == 0 then 0 else BitValue(m.vram[2 * index], i) + BitValue(m.vram[2 * index + 1], i)
  }
}
