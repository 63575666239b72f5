/**
 * The display controller as the driver sees it, one 9-bit word at a time: a RAM window, an
 * address counter that increments X then Y inside it, and two planes; and the driver that
 * writes whole planes and row ranges through it.
 */
module Ssd1675a {
  import opened Bytes
  import opened Numbers
  import opened Raster
  import opened PanelRam

  /** The widest panel, ssd1675a_set_geometry's limit, still has one-byte X addresses. */
  const MAX_STRIDE := 64

  const CMD_SLEEP: byte := 0x10
  const CMD_DATA_ENTRY: byte := 0x11
  const CMD_SW_RESET: byte := 0x12
  const CMD_ACTIVATE: byte := 0x20
  const CMD_SEQUENCE: byte := 0x22
  const CMD_X_WINDOW: byte := 0x44
  const CMD_Y_WINDOW: byte := 0x45
  const CMD_X_POINTER: byte := 0x4E
  const CMD_Y_POINTER: byte := 0x4F
  const CMD_BW_RAM: byte := 0x24
  const CMD_RED_RAM: byte := 0x26

  /** The data entry mode the driver sets: the counter moves right, then down. */
  const ENTRY_X_THEN_Y := 3

  const BUSY_TIMEOUT_MS := 8000
  const BUSY_POLL_MS := 2

  /** Register file and RAM; `argn` counts the data words since the last command. */
  datatype Chip = Chip(cmd: byte, argn: nat, entry: int, xs: int, xe: int, ys: int, ye: int,
                       px: int, py: int, bw: bytes, red: bytes)

  /** The registers after a reset; the RAM holds what it is given. */
  function Cleared(cmd: byte, bw: bytes, red: bytes): Chip { Chip(cmd, 0, 0, 0, 0, 0, 0, 0, 0, bw, red) }

  function OnCommand(c: Chip, cmd: byte): Chip {
    if cmd == CMD_SW_RESET then Cleared(cmd, c.bw, c.red) else c.(cmd := cmd, argn := 0)
  }

  /** X first, then Y, wrapping inside the window; no other data entry mode is used. */
  function Advance(c: Chip): Chip {
    if c.entry != ENTRY_X_THEN_Y then c
    else if c.px == c.xe then c.(px := c.xs, py := if c.py == c.ye then c.ys else c.py + 1)
    else c.(px := c.px + 1)
  }

  function Poke(g: Geometry, ram: bytes, x: int, y: int, d: byte): (r: bytes)
    ensures |r| == |ram|
  {
    if 0 <= x < g.stride && 0 <= y * g.stride + x < |ram| then ram[y * g.stride + x := d] else ram
  }

  function OnData(g: Geometry, c: Chip, d: byte): Chip {
    var v := d as int;
    var n := c.(argn := c.argn + 1);
    if c.cmd == CMD_DATA_ENTRY then (if c.argn == 0 then n.(entry := v) else n)
    else if c.cmd == CMD_X_WINDOW then
      (if c.argn == 0 then n.(xs := v) else if c.argn == 1 then n.(xe := v) else n)
    else if c.cmd == CMD_Y_WINDOW then
      (if c.argn == 0 then n.(ys := v) else if c.argn == 1 then n.(ys := c.ys + 256 * v)
       else if c.argn == 2 then n.(ye := v) else if c.argn == 3 then n.(ye := c.ye + 256 * v) else n)
    else if c.cmd == CMD_X_POINTER then (if c.argn == 0 then n.(px := v) else n)
    else if c.cmd == CMD_Y_POINTER then
      (if c.argn == 0 then n.(py := v) else if c.argn == 1 then n.(py := c.py + 256 * v) else n)
    else if c.cmd == CMD_BW_RAM then Advance(n.(bw := Poke(g, c.bw, c.px, c.py, d)))
    else if c.cmd == CMD_RED_RAM then Advance(n.(red := Poke(g, c.red, c.px, c.py, d)))
    else n
  }

  function SendAll(g: Geometry, c: Chip, data: bytes): Chip
    decreases |data|
  {
    if data == [] then c else OnData(g, SendAll(g, c, data[..|data| - 1]), data[|data| - 1])
  }

  lemma SendAllGrows(g: Geometry, c: Chip, data: bytes, n: nat)
    requires n < |data|
    ensures SendAll(g, c, data[..n + 1]) == OnData(g, SendAll(g, c, data[..n]), data[n])
  {
    hide OnData;
    assert data[..n + 1][..n] == data[..n];
  }

  /** Words change what the planes hold, never their size. */
  lemma {:induction false} SendAllSizes(g: Geometry, c: Chip, data: bytes)
    ensures |SendAll(g, c, data).bw| == |c.bw| && |SendAll(g, c, data).red| == |c.red|
    decreases |data|
  {
    if data != [] { SendAllSizes(g, c, data[..|data| - 1]); }
  }

  /** The words the driver relies on, by number: 44 and 45 set the window, 4E and 4F the counter, 11
      the data entry mode, 24 and 26 write the two planes at the counter, 12 resets the registers. */
  lemma WordsMean(g: Geometry, c: Chip, a0: byte, a1: byte, b0: byte, b1: byte)
    ensures SendAll(g, OnCommand(c, 0x44), [a0, b0]) == c.(cmd := 0x44, argn := 2, xs := a0 as int, xe := b0 as int)
    ensures SendAll(g, OnCommand(c, 0x45), [a0, a1, b0, b1])
         == c.(cmd := 0x45, argn := 4, ys := a0 as int + 256 * a1 as int, ye := b0 as int + 256 * b1 as int)
    ensures SendAll(g, OnCommand(c, 0x4E), [a0]) == c.(cmd := 0x4E, argn := 1, px := a0 as int)
    ensures SendAll(g, OnCommand(c, 0x4F), [a0, a1])
         == c.(cmd := 0x4F, argn := 2, py := a0 as int + 256 * a1 as int)
    ensures SendAll(g, OnCommand(c, 0x11), [a0]) == c.(cmd := 0x11, argn := 1, entry := a0 as int)
    ensures SendAll(g, OnCommand(c, 0x24), [a0])
         == Advance(c.(cmd := 0x24, argn := 1, bw := Poke(g, c.bw, c.px, c.py, a0)))
    ensures SendAll(g, OnCommand(c, 0x26), [a0])
         == Advance(c.(cmd := 0x26, argn := 1, red := Poke(g, c.red, c.px, c.py, a0)))
    ensures OnCommand(c, 0x12) == Cleared(0x12, c.bw, c.red)
  {
    hide Advance, Poke, SendAll;
    OneWord(g, OnCommand(c, 0x4E), a0);
    OneWord(g, OnCommand(c, 0x11), a0);
    OneWord(g, OnCommand(c, 0x24), a0);
    OneWord(g, OnCommand(c, 0x26), a0);
    TwoWords(g, OnCommand(c, 0x44), a0, b0);
    TwoWords(g, OnCommand(c, 0x4F), a0, a1);
    FourWords(g, OnCommand(c, 0x45), a0, a1, b0, b1);
  }

  lemma OneWord(g: Geometry, c: Chip, a: byte)
    ensures SendAll(g, c, [a]) == OnData(g, c, a)
  {
    hide OnData;
    assert [a][..0] == [];
  }

  lemma TwoWords(g: Geometry, c: Chip, a: byte, b: byte)
    ensures SendAll(g, c, [a, b]) == OnData(g, OnData(g, c, a), b)
  {
    hide OnData;
    OneWord(g, c, a);
    assert [a, b][..1] == [a];
  }

  lemma FourWords(g: Geometry, c: Chip, a: byte, b: byte, d: byte, e: byte)
    ensures SendAll(g, c, [a, b, d, e]) == OnData(g, OnData(g, OnData(g, OnData(g, c, a), b), d), e)
  {
    hide OnData;
    TwoWords(g, c, a, b);
    assert [a, b, d][..2] == [a, b];
    assert [a, b, d, e][..3] == [a, b, d];
  }

  // ---- a burst of RAM data through a row window ----

  function Ram(c: Chip, red: bool): bytes { if red then c.red else c.bw }

  function RamCommand(red: bool): byte { if red then CMD_RED_RAM else CMD_BW_RAM }

  /** The window spans whole rows a..b and the counter stands at the start of row a. */
  predicate RowWindow(g: Geometry, c: Chip, a: nat, b: nat) {
    && c.entry == ENTRY_X_THEN_Y
    && c.xs == 0 && c.xe == g.stride - 1 && c.ys == a && c.ye == b
    && c.px == 0 && c.py == a
  }

  predicate FullWindow(g: Geometry, c: Chip) {
    && c.entry == ENTRY_X_THEN_Y
    && c.xs == 0 && c.xe == g.stride - 1 && c.ys == 0 && c.ye == g.height - 1
  }

  /** `c` after the first `data` bytes of a burst that began in `c0`. */
  predicate Burst(g: Geometry, c0: Chip, c: Chip, red: bool, a: nat, b: nat, data: bytes)
    requires |Ram(c0, red)| == g.Plane()
  {
    var lo := a * g.stride;
    && 0 <= lo <= lo + |data| <= g.Plane()
    && Ram(c, red) == Ram(c0, red)[..lo] + data + Ram(c0, red)[lo + |data|..]
    && Ram(c, !red) == Ram(c0, !red)
    && c.cmd == c0.cmd && c.entry == c0.entry && (c.xs, c.xe, c.ys, c.ye) == (c0.xs, c0.xe, c0.ys, c0.ye)
    && CounterAt(g, c, b, lo + |data|)
  }

  /** Until the window is full the address counter stands at plane byte i. */
  predicate CounterAt(g: Geometry, c: Chip, b: nat, i: nat) {
    i < (b + 1) * g.stride ==> 0 <= c.px < g.stride && c.py >= 0 && c.py * g.stride + c.px == i
  }

  lemma CounterStep(g: Geometry, c: Chip, b: nat, i: nat)
    requires g.Ok() && c.entry == ENTRY_X_THEN_Y && c.xs == 0 && c.xe == g.stride - 1 && c.ye == b
    requires i < (b + 1) * g.stride && CounterAt(g, c, b, i)
    ensures CounterAt(g, Advance(c), b, i + 1)
  {
    if c.px == g.stride - 1 {
      MulNext(c.py, g.stride);
      if c.py >= b { MulMono(b + 1, c.py + 1, g.stride); }
    }
  }

  /** A word of RAM data: one plane byte, and the counter moves on. */
  function Put(g: Geometry, c: Chip, red: bool, d: byte): Chip {
    var n := c.(argn := c.argn + 1);
    if red then n.(red := Poke(g, c.red, c.px, c.py, d)) else n.(bw := Poke(g, c.bw, c.px, c.py, d))
  }

  lemma BurstStep(g: Geometry, c0: Chip, c: Chip, red: bool, a: nat, b: nat, data: bytes, d: byte)
    requires g.Ok() && |c0.bw| == |c0.red| == g.Plane() && a <= b < g.height
    requires c0.cmd == RamCommand(red) && RowWindow(g, c0, a, b)
    requires Burst(g, c0, c, red, a, b, data) && a * g.stride + |data| < (b + 1) * g.stride
    ensures Burst(g, c0, OnData(g, c, d), red, a, b, data + [d])
  {
    var lo := a * g.stride;
    var i := lo + |data|;
    MulMono(b + 1, g.height, g.stride);
    var n := Put(g, c, red, d);
    assert Ram(n, red) == Ram(c0, red)[..lo] + (data + [d]) + Ram(c0, red)[i + 1..];
    CounterStep(g, n, b, i);
    assert OnData(g, c, d) == Advance(n);
    hide Poke, CounterAt, OnData;
  }

  lemma {:induction false} BurstWrites(g: Geometry, c0: Chip, red: bool, a: nat, b: nat, data: bytes)
    requires g.Ok() && |c0.bw| == |c0.red| == g.Plane() && a <= b < g.height
    requires c0.cmd == RamCommand(red) && RowWindow(g, c0, a, b)
    requires a * g.stride + |data| <= (b + 1) * g.stride
    ensures Burst(g, c0, SendAll(g, c0, data), red, a, b, data)
    decreases |data|
  {
    hide OnData, Burst;
    if data == [] {
      BurstStart(g, c0, red, a, b);
    } else {
      var n := |data| - 1;
      BurstWrites(g, c0, red, a, b, data[..n]);
      BurstStep(g, c0, SendAll(g, c0, data[..n]), red, a, b, data[..n], data[n]);
      assert data[..n] + [data[n]] == data;
    }
  }

  lemma BurstStart(g: Geometry, c0: Chip, red: bool, a: nat, b: nat)
    requires g.Ok() && |c0.bw| == |c0.red| == g.Plane() && a <= b < g.height
    requires RowWindow(g, c0, a, b)
    ensures Burst(g, c0, c0, red, a, b, [])
  {
    MulMono(0, a, g.stride);
    MulMono(a, g.height, g.stride);
  }

  /** The bus and what hangs on it. `initAt`, `busyAt` and `noise` stand for the world: whether
      the bus comes up each time it is asked to, the level of BUSY each time it is read, and
      what the RAM holds after it has lost its contents. */
  class Port {
    const g: Geometry
    const initAt: nat -> bool
    const busyAt: nat -> bool
    const noise: nat -> (bytes, bytes)
    var inits: nat
    var polls: nat
    var chip: Chip

    ghost predicate Valid()
      reads this
    {
      && g.Fits() && g.stride <= MAX_STRIDE
      && |chip.bw| == |chip.red| == g.Plane()
      && forall n :: |noise(n).0| == |noise(n).1| == g.Plane()
    }

    constructor (g: Geometry, initAt: nat -> bool, busyAt: nat -> bool, noise: nat -> (bytes, bytes))
      ensures this.g == g && this.initAt == initAt && this.busyAt == busyAt && this.noise == noise
      ensures inits == polls == 0 && chip.bw == noise(0).0 && chip.red == noise(0).1
    {
      this.g, this.initAt, this.busyAt, this.noise := g, initAt, busyAt, noise;
      inits, polls := 0, 0;
      chip := Cleared(0, noise(0).0, noise(0).1);
    }

    method Init() returns (ok: bool)
      modifies this`inits
      ensures ok == initAt(old(inits)) && inits == old(inits) + 1
    {
      ok := initAt(inits);
      inits := inits + 1;
    }

    method Write9(b: byte, isData: bool)
      modifies this`chip
      ensures chip == if isData then OnData(g, old(chip), b) else OnCommand(old(chip), b)
    {
      chip := if isData then OnData(g, chip, b) else OnCommand(chip, b);
    }

    method Busy() returns (b: bool)
      modifies this`polls
      ensures b == busyAt(old(polls)) && polls == old(polls) + 1
    {
      b := busyAt(polls);
      polls := polls + 1;
    }

    /** The reset line, or the supply gone: registers to their defaults, RAM contents lost. */
    method Lose()
      modifies this`chip
      ensures chip == Cleared(0, noise(polls).0, noise(polls).1)
    {
      chip := Cleared(0, noise(polls).0, noise(polls).1);
    }
  }

  /** Pointer registers after set_ram_pointer(x, y). */
  function Pointed(c: Chip, x: nat, y: nat): Chip {
    c.(cmd := CMD_Y_POINTER, argn := 2, px := x, py := y)
  }

  class Driver {
    const port: Port
    const g: Geometry
    var portReady: bool
    var ramUndefined: bool
    var controllerSleeping: bool

    /** A controller that is awake has its whole plane in the window. */
    ghost predicate Valid()
      reads this, port
    {
      port.Valid() && port.g == g && (!controllerSleeping ==> FullWindow(g, port.chip))
    }

    /** Whether the next use of the bus finds it up. */
    ghost predicate Reaches()
      reads this, port
    {
      portReady || port.initAt(port.inits)
    }

    constructor (port: Port)
      requires port.Valid()
      ensures Valid() && this.port == port && g == port.g
      ensures !portReady && ramUndefined && controllerSleeping
    {
      this.port := port;
      g := port.g;
      portReady, ramUndefined, controllerSleeping := false, true, true;
    }

    /** bus_ready: the bus is brought up when it is first needed. */
    method BusReady() returns (ok: bool)
      requires Valid()
      modifies this`portReady, port`inits
      ensures Valid() && ok == portReady == old(Reaches())
    {
      if !portReady {
        portReady := port.Init();
      }
      return portReady;
    }

    /** Poll BUSY until it is low or the time is up. */
    method WaitBusy()
      requires Valid()
      modifies this`portReady, port`inits, port`polls
      ensures Valid() && portReady == old(Reaches())
      ensures old(port.polls) <= port.polls
      ensures portReady ==>
        || (port.polls > old(port.polls) && !port.busyAt(port.polls - 1))
        || port.polls == old(port.polls) + BUSY_TIMEOUT_MS / BUSY_POLL_MS + 1
    {
      var ready := BusReady();
      if !ready {
        return;
      }
      ghost var start := port.polls;
      var remaining := BUSY_TIMEOUT_MS;
      var busy := port.Busy();
      while busy && remaining > 0
        invariant Valid() && portReady
        invariant port.polls > start && busy == port.busyAt(port.polls - 1)
        invariant remaining >= 0 && remaining + BUSY_POLL_MS * (port.polls - start - 1) == BUSY_TIMEOUT_MS
        decreases remaining
      {
        remaining := remaining - BUSY_POLL_MS;
        busy := port.Busy();
      }
    }

    method SendCmd(cmd: byte)
      modifies port`chip
      ensures port.chip == OnCommand(old(port.chip), cmd)
    {
      port.Write9(cmd, false);
    }

    method SendData(d: byte)
      modifies port`chip
      ensures port.chip == OnData(port.g, old(port.chip), d)
    {
      port.Write9(d, true);
    }

    method SetRamPointer(x: nat, y: nat)
      requires x < 256 && y < 0x1_0000
      modifies port`chip
      ensures port.chip == Pointed(old(port.chip), x, y)
    {
      SplitJoin(y);
      ByteOf(x);
      SendCmd(CMD_X_POINTER);
      SendData(x as byte);
      SendCmd(CMD_Y_POINTER);
      SendData(LowByte(y));
      SendData(HighByte(y));
    }

    method SetRowWindow(y0: nat, y1: nat)
      requires y0 < 0x1_0000 && y1 < 0x1_0000
      modifies port`chip
      ensures port.chip == old(port.chip).(cmd := CMD_Y_WINDOW, argn := 4, ys := y0, ye := y1)
    {
      SplitJoin(y0);
      SplitJoin(y1);
      SendCmd(CMD_Y_WINDOW);
      SendData(LowByte(y0));
      SendData(HighByte(y0));
      SendData(LowByte(y1));
      SendData(HighByte(y1));
    }

    /** The data words of a RAM burst; a NULL buffer sends zeros. */
    method SendBurst(buffer: array?<byte>, lo: nat, hi: nat)
      requires lo <= hi && (buffer != null ==> hi <= buffer.Length)
      modifies port`chip
      ensures port.chip == SendAll(port.g, old(port.chip),
                                   if buffer == null then Repeat(0 as byte, hi - lo) else buffer[lo..hi])
    {
      hide OnData;
      ghost var c0 := port.chip;
      ghost var data := if buffer == null then Repeat(0 as byte, hi - lo) else buffer[lo..hi];
      for i := lo to hi
        invariant port.chip == SendAll(port.g, c0, data[..i - lo])
      {
        SendAllGrows(port.g, c0, data, i - lo);
        SendData(if buffer != null then buffer[i] else 0);
      }
      assert data[..hi - lo] == data;
    }

    /** Written through the full window, the plane holds the buffer afterwards (zeros for a NULL
        one); the other plane and the window are as before. */
    method WritePlane(red: bool, buffer: array?<byte>)
      requires Valid()
      requires buffer != null ==> buffer.Length == g.Plane()
      modifies this`ramUndefined, port`chip
      ensures Valid()
      ensures old(FullWindow(g, port.chip)) ==>
        && FullWindow(g, port.chip)
        && Ram(port.chip, red) == Bits(buffer)
        && Ram(port.chip, !red) == old(Ram(port.chip, !red))
      ensures ramUndefined == (old(ramUndefined) && !red)
    {
      hide OnData, SendAll;
      SetRamPointer(0, 0);
      SendCmd(RamCommand(red));
      ghost var c0 := port.chip;
      ghost var n := g.stride * g.height;
      ghost var data := if buffer == null then Repeat(0 as byte, n) else buffer[..n];
      SendBurst(buffer, 0, g.stride * g.height);
      SendAllSizes(g, c0, data);
      if RowWindow(g, c0, 0, g.height - 1) { BurstWrites(g, c0, red, 0, g.height - 1, data); }
      if red {
        ramUndefined := false;
      }
    }

    /** What a plane written from this buffer holds. */
    ghost function Bits(buffer: array?<byte>): bytes
      requires buffer != null ==> buffer.Length == g.Plane()
      reads if buffer == null then {} else {buffer}
    {
      if buffer == null then Repeat(0 as byte, g.Plane()) else buffer[..]
    }

    /** ssd1675a_load_plane, and with it display_buffer_fast and clear_red_ram. What a controller
        makes of it that has not been woken is not known. */
    method LoadPlane(red: bool, buffer: array?<byte>)
      requires Valid()
      requires buffer != null ==> buffer.Length == g.Plane()
      modifies this`portReady, this`ramUndefined, port`inits, port`chip
      ensures Valid() && portReady == old(Reaches())
      ensures portReady && !controllerSleeping ==>
        Ram(port.chip, red) == Bits(buffer) && Ram(port.chip, !red) == old(Ram(port.chip, !red))
      ensures !portReady ==> port.chip == old(port.chip)
      ensures ramUndefined == (old(ramUndefined) && !(portReady && red))
    {
      var ready := BusReady();
      if !ready {
        return;
      }
      WritePlane(red, buffer);
    }

    /** Narrow the window to rows a..b, send them, and put the full window back. */
    method SendRows(red: bool, buffer: array<byte>, a: nat, b: nat)
      requires Valid() && buffer.Length == g.Plane() && a <= b < g.height
      modifies port`chip
      ensures Valid()
      ensures old(FullWindow(g, port.chip)) ==>
        && FullWindow(g, port.chip)
        && Ram(port.chip, red) == ReplaceRows(g, old(Ram(port.chip, red)), buffer[..], a, b)
        && Ram(port.chip, !red) == old(Ram(port.chip, !red))
    {
      hide OnData, SendAll;
      RowsInside(g, a, b);
      SetRowWindow(a, b);
      SetRamPointer(0, a);
      SendCmd(RamCommand(red));
      ghost var c0 := port.chip;
      SendBurst(buffer, a * g.stride, (b + 1) * g.stride);
      SendAllSizes(g, c0, buffer[a * g.stride..(b + 1) * g.stride]);
      if RowWindow(g, c0, a, b) { BurstWrites(g, c0, red, a, b, buffer[a * g.stride..(b + 1) * g.stride]); }
      assert buffer[a * g.stride..(b + 1) * g.stride] == buffer[..][a * g.stride..(b + 1) * g.stride];
      SetRowWindow(0, g.height - 1);
    }

    /** ssd1675a_load_rows: exactly rows y0..y1 (clamped) of one plane change, and the window
        is the full one again. A bus that does not come up changes nothing. */
    method LoadRows(red: bool, buffer: array<byte>, y0: int, y1: int)
      requires Valid() && buffer.Length == g.Plane()
      modifies this`portReady, port`inits, port`chip
      ensures Valid() && portReady == old(Reaches())
      ensures portReady && !controllerSleeping ==>
        && Ram(port.chip, red) == RowsLoaded(g, old(Ram(port.chip, red)), buffer[..], y0, y1)
        && Ram(port.chip, !red) == old(Ram(port.chip, !red))
      ensures !portReady ==> port.chip == old(port.chip)
    {
      hide ReplaceRows, FullWindow;
      var ready := BusReady();
      if !ready {
        return;
      }
      var a, b := y0, y1;
      if a < 0 {
        a := 0;
      }
      if b > g.height - 1 {
        b := g.height - 1;
      }
      if b < a {
        return;
      }
      SendRows(red, buffer, a, b);
    }

    /** Window, data entry mode and pointer registers as configure_registers leaves them. The
        drive voltages, scan timing and waveform it also sends do not touch the RAM. */
    method ConfigureRegisters()
      requires port.Valid() && port.g == g
      modifies port`chip
      ensures Valid() && FullWindow(g, port.chip)
      ensures port.chip.bw == old(port.chip.bw) && port.chip.red == old(port.chip.red)
    {
      ByteOf(g.stride - 1);
      SendCmd(CMD_DATA_ENTRY);
      SendData(0x03);
      SendCmd(CMD_X_WINDOW);
      SendData(0x00);
      SendData((g.stride - 1) as byte);
      SetRowWindow(0, g.height - 1);
    }

    /** Hard reset, wait, software reset, wait: what the RAM holds is unknown, whatever it was. */
    method ResetController()
      requires Valid() && portReady
      modifies this, port
      ensures port.Valid() && port.g == g && portReady && !controllerSleeping && ramUndefined
      ensures old(port.polls) <= port.polls
      ensures port.chip.bw == port.noise(old(port.polls)).0 && port.chip.red == port.noise(old(port.polls)).1
    {
      controllerSleeping := true;
      port.Lose();
      WaitBusy();
      SendCmd(CMD_SW_RESET);
      WaitBusy();
      controllerSleeping := false;
      ramUndefined := true;
    }

    /** Wake the controller for a partial refresh: a hard reset only when it sleeps or hangs,
        and a red plane of known zeros whenever the RAM has been lost. When the bus does not
        come up nothing else happens. */
    method InitPartial() returns (ok: bool)
      requires Valid()
      modifies this, port
      ensures Valid() && ok == portReady == port.initAt(old(port.inits))
      ensures !ok ==>
        && port.chip == old(port.chip) && controllerSleeping == old(controllerSleeping)
        && ramUndefined == old(ramUndefined)
      ensures ok ==> !controllerSleeping && !ramUndefined
      ensures ok && (old(controllerSleeping) || port.busyAt(old(port.polls)) || old(ramUndefined)) ==>
        port.chip.red == Repeat(0 as byte, g.Plane())
      ensures ok && !old(controllerSleeping) && !port.busyAt(old(port.polls)) ==>
        port.chip.bw == old(port.chip.bw) && (!old(ramUndefined) ==> port.chip.red == old(port.chip.red))
    {
      hide FullWindow;
      portReady := port.Init();
      if !portReady {
        return false;
      }
      var stuck := controllerSleeping;
      if !stuck {
        stuck := port.Busy();
      }
      if stuck {
        ResetController();
      }
      ConfigureRegisters();
      if ramUndefined {
        WritePlane(true, null);
      }
      controllerSleeping := false;
      return true;
    }

    /** One of the display sequences, from charging the rails to a whole refresh: the RAM is
        only read. The waveform sent ahead of some of them is not part of this model. */
    method Refresh(sequence: byte, wait: bool)
      requires Valid()
      modifies this`portReady, port
      ensures Valid() && portReady == old(Reaches())
      ensures port.chip.bw == old(port.chip.bw) && port.chip.red == old(port.chip.red)
    {
      var ready := BusReady();
      if !ready {
        return;
      }
      SendCmd(CMD_SEQUENCE);
      SendData(sequence);
      SendCmd(CMD_ACTIVATE);
      if wait {
        WaitBusy();
      }
    }

    method Sleep()
      requires Valid()
      modifies this`portReady, this`controllerSleeping, port`inits, port`chip
      ensures Valid() && (portReady ==> controllerSleeping)
      ensures portReady == old(Reaches())
    {
      var ready := BusReady();
      if !ready {
        return;
      }
      controllerSleeping := true;
      SendCmd(CMD_SLEEP);
      SendData(0x01);
    }

    /** The supply goes, and the RAM with it. */
    method PowerOff()
      requires Valid()
      modifies this`controllerSleeping, this`ramUndefined, port`chip
      ensures Valid() && controllerSleeping && ramUndefined
    {
      controllerSleeping := true;
      port.Lose();
      ramUndefined := true;
    }
  }
}
