/**
 * The Gpu struct as the object the driver updates in place through a
 * `*Gpu`: the timing fields step advances, the 160 x 144 frame buffer
 * writeScanline fills, and the LCD-control flags setGpuControl copies out.
 * Each method is proved against the value-level functions of module Video.
 */
module Graphics {
  import opened Bits
  import AS = AddressSpace
  import V = Video
  import MemoryUnit

  /**
   * Row line + scrollY of the frame buffer `fb` holds the scanline of `line`
   * drawn from `mem`, and every other cell keeps its earlier value.
   */
  twostate predicate ScanlineDrawn(fb: array2<int>, line: int, mem: AS.Mem)
    requires fb.Length0 == 160 && fb.Length1 == 144
    reads fb
  {
    forall c, r | 0 <= c < 160 && 0 <= r < 144 ::
      fb[c, r] == if r == line + V.ScrollY(mem) then V.ColumnColor(mem, r, c) else old(fb[c, r])
  }

  class Gpu {
    var mode: int
    var modeClock: int
    var line: int
    var frameBuffer: array2<int>
    var rendering: bool
    var lcd: bool
    var scrollX: int
    var scrollY: int
    var sprite: bool
    var background: bool
    var spriteSize: bool
    var backgroundMap: bool
    var backgroundSet: bool
    var window: bool
    var windowMap: bool
    var display: bool

    /** The frame buffer has its declared shape, indexed [column][row]. */
    ghost predicate Valid()
      reads this`frameBuffer
    {
      frameBuffer.Length0 == 160 && frameBuffer.Length1 == 144
    }

    /** The timing fields as a value. */
    function Timing(): V.Timing
      reads this`mode, this`modeClock, this`line, this`rendering
    {
      V.Timing(mode, modeClock, line, rendering)
    }

    /** The LCD-control flags as a value. */
    function Control(): V.LcdControl
      reads this`lcd, this`sprite, this`spriteSize, this`backgroundMap
      reads this`backgroundSet, this`window, this`windowMap, this`display
    {
      V.LcdControl(lcd, sprite, spriteSize, backgroundMap, backgroundSet, window, windowMap, display)
    }

    /** The zero value of the struct: HBlank at line 0, a black frame, every flag clear. */
    constructor ()
      ensures Valid() && fresh(frameBuffer)
      ensures Timing() == V.Zero
      ensures Control() == V.Control(0)
      ensures !background && scrollX == 0 && scrollY == 0
      ensures forall c, r | 0 <= c < 160 && 0 <= r < 144 :: frameBuffer[c, r] == 0
    {
      mode, modeClock, line, rendering := 0, 0, 0, false;
      frameBuffer := new int[160, 144]((_, _) => 0);
      lcd, sprite, spriteSize, backgroundMap := false, false, false, false;
      backgroundSet, window, windowMap, display := false, false, false, false;
      background, scrollX, scrollY := false, 0, 0;
    }

    /**
     * step (gpu.go:24-69).  The clock field advances, the mode machine moves
     * as Video.Step says, the incremented line is written to 0xFF44 in the
     * shared `*Memory`, and the end of VRAM scan draws the current line from a
     * copy of the memory.  Drawing needs the scanline to fit the frame buffer.
     */
    method Step(cycles: int, mem: MemoryUnit.Memory)
      requires Valid() && mem.Valid()
      requires V.DrawsLine(Timing(), cycles) ==> V.ScanlineFits(line, mem.View())
      modifies this`mode, this`modeClock, this`line, this`rendering, frameBuffer, mem.Repr()
      ensures Valid() && mem.Valid() && mem.Repr() == old(mem.Repr())
      ensures Timing() == V.Step(old(Timing()), cycles)
      ensures V.AdvancesLine(old(Timing()), cycles) ==>
        mem.View() == AS.WriteByte(old(mem.View()), 0xFF44, V.LineRegister(old(Timing())))
      ensures !V.AdvancesLine(old(Timing()), cycles) ==> unchanged(mem.Repr())
      ensures V.DrawsLine(old(Timing()), cycles) ==> ScanlineDrawn(frameBuffer, old(line), old(mem.View()))
      ensures !V.DrawsLine(old(Timing()), cycles) ==> unchanged(frameBuffer)
    {
      assert this !in mem.Repr() && frameBuffer !in mem.Repr();
      V.StepAfterClock(Timing(), cycles);
      modeClock := modeClock + cycles;
      rendering := false;
      if mode == 0 {
        HBlank(mem);
      } else if mode == 1 {
        VBlank(mem);
      } else if mode == 2 {
        OamScan();
      } else if mode == 3 {
        VramScan(mem);
      }
    }

    /**
     * Case 0 of step (gpu.go:29-41): after 204 cycles of HBlank the line
     * advances and the next mode is VBlank at line 143, OAM scan otherwise.
     */
    method HBlank(mem: MemoryUnit.Memory)
      requires mode == 0 && !rendering && mem.Valid()
      modifies this`mode, this`modeClock, this`line, this`rendering, mem.Repr()
      ensures mem.Valid() && mem.Repr() == old(mem.Repr())
      ensures Timing() == V.Step(old(Timing()), 0)
      ensures V.AdvancesLine(old(Timing()), 0) ==>
        mem.View() == AS.WriteByte(old(mem.View()), 0xFF44, V.LineRegister(old(Timing())))
      ensures !V.AdvancesLine(old(Timing()), 0) ==> unchanged(mem.Repr())
    {
      assert this !in mem.Repr();
      if modeClock >= 204 {
        modeClock := 0;
        AdvanceLine(mem);
        if line == 143 {
          mode := 1;
          rendering := true;
        } else {
          mode := 2;
        }
      }
    }

    /**
     * Case 1 of step (gpu.go:43-53): after 456 cycles of a VBlank line the
     * line advances, and past line 153 scanning restarts at line 0.
     */
    method VBlank(mem: MemoryUnit.Memory)
      requires mode == 1 && !rendering && mem.Valid()
      modifies this`mode, this`modeClock, this`line, mem.Repr()
      ensures mem.Valid() && mem.Repr() == old(mem.Repr())
      ensures Timing() == V.Step(old(Timing()), 0)
      ensures V.AdvancesLine(old(Timing()), 0) ==>
        mem.View() == AS.WriteByte(old(mem.View()), 0xFF44, V.LineRegister(old(Timing())))
      ensures !V.AdvancesLine(old(Timing()), 0) ==> unchanged(mem.Repr())
    {
      assert this !in mem.Repr();
      if modeClock >= 456 {
        modeClock := 0;
        AdvanceLine(mem);
        if line > 153 {
          mode := 2;
          line := 0;
        }
      }
    }

    /** Case 2 of step (gpu.go:55-59): OAM scan enters VRAM scan after 80 cycles. */
    method OamScan()
      requires mode == 2 && !rendering
      modifies this`mode, this`modeClock
      ensures Timing() == V.Step(old(Timing()), 0)
    {
      if modeClock >= 80 {
        modeClock := 0;
        mode := 3;
      }
    }

    /**
     * Case 3 of step (gpu.go:61-67): VRAM scan enters HBlank after 172
     * cycles and draws the current line from a copy of the memory.
     */
    method VramScan(mem: MemoryUnit.Memory)
      requires mode == 3 && !rendering && Valid() && mem.Valid()
      requires V.DrawsLine(Timing(), 0) ==> V.ScanlineFits(line, mem.View())
      modifies this`mode, this`modeClock, frameBuffer
      ensures Timing() == V.Step(old(Timing()), 0)
      ensures V.DrawsLine(old(Timing()), 0) ==> ScanlineDrawn(frameBuffer, line, mem.View())
      ensures !V.DrawsLine(old(Timing()), 0) ==> unchanged(frameBuffer)
    {
      if modeClock >= 172 {
        modeClock := 0;
        mode := 0;
        WriteScanline(mem.View());
      }
    }

    /**
     * The line increment that ends an HBlank or VBlank line (gpu.go:32-33 and
     * 45-46), published to 0xFF44 in the shared `*Memory`.
     */
    method AdvanceLine(mem: MemoryUnit.Memory)
      requires mem.Valid()
      modifies this`line, mem.Repr()
      ensures line == old(line) + 1
      ensures mem.Valid() && mem.Repr() == old(mem.Repr())
      ensures mem.View() == AS.WriteByte(old(mem.View()), 0xFF44, line % 0x100)
    {
      assert this !in mem.Repr();
      line := line + 1;
      mem.WriteByte(0xFF44, line % 0x100);
    }

    /**
     * writeScanline (gpu.go:71-117): for each eight-pixel group the map
     * column is found from the pixel and the horizontal scroll, the two bytes
     * of its tile row are read (the selector, map and tile-data arithmetic is
     * Video.TileRowAddress), and the eight columns of row line + scrollY
     * receive the palette shades of their bits 8 down to 1.
     */
    method WriteScanline(mem: AS.Mem)
      requires Valid() && V.ScanlineFits(line, mem)
      modifies frameBuffer
      ensures ScanlineDrawn(frameBuffer, line, mem)
    {
      var scrollYValue: int := V.ScrollY(mem);
      var scrollXValue: int := V.ScrollX(mem);
      var y := line + scrollYValue;

      var pixel := 1;
      ghost var k := 0;
      while pixel < 160
        invariant 0 <= k <= 20 && pixel == 8 * k + 1
        invariant forall c, r | 0 <= c < 160 && 0 <= r < 144 ::
          frameBuffer[c, r] == if r == y && c < 8 * k then V.ColumnColor(mem, r, c) else old(frameBuffer[c, r])
      {
        V.MapColumnIsGroup(k, scrollXValue);
        var x := pixel + scrollXValue;
        var mapCol := x / 8;
        assert mapCol == k;
        var tileDataLine := V.TileRowAddress(mem, y, mapCol);
        var dataByte1 := AS.ReadByte(mem, tileDataLine);
        var dataByte2 := AS.ReadByte(mem, AS.Next(tileDataLine));
        DrawGroup(mem, y, mapCol, dataByte1, dataByte2);
        pixel := pixel + 8;
        k := k + 1;
      }
    }

    /**
     * The inner loop of writeScanline (gpu.go:110-115): columns 8k .. 8k + 7
     * of row y get the palette shades of bits 8 down to 1 of the two bytes of
     * map column k's tile row.
     */
    method DrawGroup(mem: AS.Mem, y: int, k: nat, dataByte1: Byte, dataByte2: Byte)
      requires Valid() && 0 <= y < 144 && k < 20
      requires dataByte1 == AS.ReadByte(mem, V.TileRowAddress(mem, y, k))
      requires dataByte2 == AS.ReadByte(mem, AS.Next(V.TileRowAddress(mem, y, k)))
      modifies frameBuffer
      ensures forall c, r | 0 <= c < 160 && 0 <= r < 144 ::
        frameBuffer[c, r] == if r == y && 8 * k <= c < 8 * k + 8 then V.ColumnColor(mem, r, c) else old(frameBuffer[c, r])
    {
      var i := 0;
      while i < 8
        invariant 0 <= i <= 8
        invariant forall c, r | 0 <= c < 160 && 0 <= r < 144 ::
          frameBuffer[c, r] == if r == y && 8 * k <= c < 8 * k + i then V.ColumnColor(mem, r, c) else old(frameBuffer[c, r])
      {
        var pixel1 := HasBit(dataByte1, 8 - i);
        var pixel2 := HasBit(dataByte2, 8 - i);
        var color := V.GetColor(pixel1, pixel2, mem);
        DivMod(k * 8 + i, 8, k, i);
        assert color == V.ColumnColor(mem, y, k * 8 + i);
        frameBuffer[k * 8 + i, y] := color;
        i := i + 1;
      }
    }

    /**
     * getVram (gpu.go:119-132): a fresh 4096 x 8 grid whose entry [n][i] is
     * VramShade n i, filled in two nested loops; column 0 keeps its zero
     * value and nothing else changes.
     */
    method GetVram(mem: AS.Mem) returns (vram: array2<Byte>)
      ensures fresh(vram) && vram.Length0 == 0x1000 && vram.Length1 == 8
      ensures forall n, i | 0 <= n < 0x1000 && 0 <= i < 8 :: vram[n, i] == V.VramShade(mem, n, i)
    {
      vram := new Byte[0x1000, 8]((_, _) => 0);
      var byteIndex := 0;
      while byteIndex < 0x1000
        invariant 0 <= byteIndex <= 0x1000
        invariant forall n, i | 0 <= n < 0x1000 && 0 <= i < 8 ::
          vram[n, i] == if n < byteIndex then V.VramShade(mem, n, i) else 0
      {
        var i := 1;
        while i < 8
          invariant 1 <= i <= 8
          invariant forall n, j | 0 <= n < 0x1000 && 0 <= j < 8 ::
            vram[n, j] == if n < byteIndex || (n == byteIndex && j < i) then V.VramShade(mem, n, j) else 0
        {
          var pixel1 := mem.vram[byteIndex * 2];
          var pixel2 := mem.vram[byteIndex * 2 + 1];
          var a := BitValue(pixel1, i);
          var b := BitValue(pixel2, i);
          vram[byteIndex, i] := a + b;
          i := i + 1;
        }
        byteIndex := byteIndex + 1;
      }
    }

    /**
     * setGpuControl (gpu.go:166-176): each control flag becomes its bit of
     * 0xFF40; no other field changes.
     */
    method SetGpuControl(mem: AS.Mem)
      modifies this`lcd, this`sprite, this`spriteSize, this`backgroundMap
      modifies this`backgroundSet, this`window, this`windowMap, this`display
      ensures Control() == V.Control(V.Lcdc(mem))
    {
      var gpuRegister := V.Lcdc(mem);
      var bits := V.Control(gpuRegister);
      lcd := bits.lcd;
      sprite := bits.sprite;
      spriteSize := bits.spriteSize;
      backgroundMap := bits.backgroundMap;
      backgroundSet := bits.backgroundSet;
      window := bits.window;
      windowMap := bits.windowMap;
      display := bits.display;
    }
  }
}
