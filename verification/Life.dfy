/**
 * Conway's Life on a packed bit plane of 38 rows of 5 bytes, of which a window is played on.
 * Now and then a glider or a random block is thrown in.
 */
module Life {
  import opened Bits
  import opened Bytes
  import opened Numbers

  const MAX_DIM := 38
  const ROW_BYTES := 5
  const ROW_CELLS := 40
  const PLANE := 190
  const CELLS := 1520
  const U32 := 0x1_0000_0000

  /** Row by row, forty cells to the row, the last two of them padding. */
  type Board = b: seq<bool> | |b| == CELLS witness seq(CELLS, _ => false)

  function At(b: Board, x: nat, y: nat): bool
    requires x < ROW_CELLS && y < MAX_DIM
  {
    b[ROW_CELLS * y + x]
  }

  // ---- the rule ----

  predicate Window(w: int, h: int) { 0 < w <= MAX_DIM && 0 < h <= MAX_DIM }

  /** Whether the j-th cell of the 3x3 block around (x, y) is alive; the world wraps round at
      the edges of the window. */
  predicate Around(b: Board, x: nat, y: nat, w: nat, h: nat, j: nat)
    requires Window(w, h) && j < 9
  {
    At(b, (x + j % 3 - 1) % w, (y + j / 3 - 1) % h)
  }

  /** Living neighbours among the first k cells of the block, the middle one left out. */
  function Neighbours(b: Board, x: nat, y: nat, w: nat, h: nat, k: nat): nat
    requires Window(w, h) && k <= 9
  {
    if k == 0 then 0
    else Neighbours(b, x, y, w, h, k - 1) + if k - 1 != 4 && Around(b, x, y, w, h, k - 1) then 1 else 0
  }

  /** Birth on three, survival on two or three. */
  predicate Lives(b: Board, x: nat, y: nat, w: nat, h: nat)
    requires Window(w, h) && x < w && y < h
  {
    var n := Neighbours(b, x, y, w, h, 9);
    n == 3 || (n == 2 && At(b, x, y))
  }

  predicate NextAlive(b: Board, w: nat, h: nat, n: nat)
    requires Window(w, h)
  {
    n % ROW_CELLS < w && n / ROW_CELLS < h && Lives(b, n % ROW_CELLS, n / ROW_CELLS, w, h)
  }

  /** The next generation: the rule inside the window, nothing outside it. */
  function Evolved(b: Board, w: nat, h: nat): Board
    requires Window(w, h)
  {
    seq(CELLS, n requires 0 <= n < CELLS => NextAlive(b, w, h, n))
  }

  // ---- what is thrown in ----

  function Rand(seed: nat): nat { (seed * 1664525 + 1013904223) % U32 }

  /** One step past the edge is the first cell; so are two and three. */
  function Wrap(v: int, limit: nat): (r: nat)
    requires limit > 0
    ensures r < limit
    ensures -1 <= v <= limit ==> r == v % limit
  {
    if v < 0 then limit - 1 else if v >= limit then 0 else v
  }

  function Put(b: Board, x: nat, y: nat, v: bool): Board
    requires x < ROW_CELLS && y < MAX_DIM
  {
    b[ROW_CELLS * y + x := v]
  }

  const GLIDER: seq<bool> := [false, true, false, false, false, true, true, true, true]

  predicate InGlider(j: nat)
    requires j < 9
  {
    GLIDER[j]
  }

  /** The first k cells of a glider, later ones over earlier ones. */
  function Glider(b: Board, x: nat, y: nat, w: nat, h: nat, k: nat): Board
    requires Window(w, h) && k <= 9
  {
    if k == 0 then b
    else Put(Glider(b, x, y, w, h, k - 1), Wrap(x + (k - 1) % 3, w), Wrap(y + (k - 1) / 3, h), InGlider(k - 1))
  }

  function Rands(seed: nat, k: nat): nat { if k == 0 then seed else Rand(Rands(seed, k - 1)) }

  /** The first k cells of a 4x4 random block, one draw each. */
  function Block(b: Board, seed: nat, x: nat, y: nat, w: nat, h: nat, k: nat): Board
    requires Window(w, h) && k <= 16
  {
    if k == 0 then b
    else
      Put(Block(b, seed, x, y, w, h, k - 1), Wrap(x + (k - 1) % 4, w), Wrap(y + (k - 1) / 4, h),
          Rands(seed, k) % 2 != 0)
  }

  /** The board an update starts from, and the seed it leaves. */
  function Injected(b: Board, seed: nat, w: nat, h: nat): (Board, nat)
    requires Window(w, h)
  {
    if Rands(seed, 1) % 100 >= 2 then (b, Rands(seed, 1))
    else
      var x, y, s := Rands(seed, 2) % w, Rands(seed, 3) % h, Rands(seed, 4);
      if s % 2 == 0 then (Glider(b, x, y, w, h, 9), s) else (Block(b, s, x, y, w, h, 16), Rands(s, 16))
  }

  // ---- planes ----

  function Cell(p: bytes, n: nat): bool
    requires n < 8 * |p|
  {
    BitAt(p[n / 8], 7 - n % 8)
  }

  function Cells(p: bytes): Board
    requires |p| == PLANE
  {
    seq(CELLS, n requires 0 <= n < CELLS => Cell(p, n))
  }

  /** plane_set writes exactly one cell. */
  lemma SetWritesOneCell(p: bytes, x: nat, y: nat, v: bool)
    requires |p| == PLANE && x < ROW_CELLS && y < MAX_DIM
    ensures var i := ROW_BYTES * y + x / 8;
      Cells(p[i := SetBit(p[i], 7 - x % 8, v)]) == Put(Cells(p), x, y, v)
  {
    hide BitAt, SetBit;
    var i, c := ROW_BYTES * y + x / 8, ROW_CELLS * y + x;
    var q := p[i := SetBit(p[i], 7 - x % 8, v)];
    assert c / 8 == i && c % 8 == x % 8;
    forall n | 0 <= n < CELLS ensures Cells(q)[n] == Put(Cells(p), x, y, v)[n] {
      SetBitAt(p[i], 7 - x % 8, v, 7 - n % 8);
      assert n / 8 == i && n % 8 == x % 8 ==> n == c;
    }
  }

  // ---- in place ----

  predicate IsPlane(p: array<byte>) { p.Length == PLANE }

  method PlaneGet(p: array<byte>, x: nat, y: nat) returns (v: bool)
    requires IsPlane(p) && x < ROW_CELLS && y < MAX_DIM
    ensures v == At(Cells(p[..]), x, y)
  {
    CellIndex(x, y);
    v := BitAt(p[ROW_BYTES * y + x / 8], 7 - x % 8);
  }

  lemma CellIndex(x: nat, y: nat)
    ensures (ROW_CELLS * y + x) / 8 == ROW_BYTES * y + x / 8 && (ROW_CELLS * y + x) % 8 == x % 8
  {
  }

  method PlaneSet(p: array<byte>, x: nat, y: nat, v: bool)
    requires IsPlane(p) && x < ROW_CELLS && y < MAX_DIM
    modifies p
    ensures Cells(p[..]) == Put(old(Cells(p[..])), x, y, v)
  {
    hide SetBit, Cells, Put;
    SetWritesOneCell(p[..], x, y, v);
    var i := ROW_BYTES * y + x / 8;
    ghost var was := p[..];
    p[i] := SetBit(p[i], 7 - x % 8, v);
    assert p[..] == was[i := SetBit(was[i], 7 - x % 8, v)];
  }

  /** count_neighbors */
  method CountNeighbors(p: array<byte>, x: nat, y: nat, w: nat, h: nat) returns (count: nat)
    requires IsPlane(p) && Window(w, h) && x < w && y < h
    ensures count == Neighbours(Cells(p[..]), x, y, w, h, 9)
  {
    hide Cells, At, Wrap;
    count := 0;
    for dy := 0 to 3
      invariant count == Neighbours(Cells(p[..]), x, y, w, h, 3 * dy)
    {
      for dx := 0 to 3
        invariant count == Neighbours(Cells(p[..]), x, y, w, h, 3 * dy + dx)
      {
        ghost var j := 3 * dy + dx;
        DivMod(j, dy, dx, 3);
        if dx != 1 || dy != 1 {
          var v := PlaneGet(p, Wrap(x + dx - 1, w), Wrap(y + dy - 1, h));
          if v {
            count := count + 1;
          }
        }
      }
    }
  }

  /** A glider grows by the cell in column px of row py. */
  lemma GliderSteps(b: Board, x: nat, y: nat, w: nat, h: nat, py: nat, px: nat)
    requires Window(w, h) && py < 3 && px < 3
    ensures Glider(b, x, y, w, h, 0) == b
    ensures Glider(b, x, y, w, h, 3 * py + px + 1)
         == Put(Glider(b, x, y, w, h, 3 * py + px), Wrap(x + px, w), Wrap(y + py, h), InGlider(3 * py + px))
  {
    hide Put, Wrap, InGlider;
    DivMod(3 * py + px, py, px, 3);
  }

  /** A block grows likewise, with one draw for each cell. */
  lemma BlockSteps(b: Board, seed: nat, x: nat, y: nat, w: nat, h: nat, py: nat, px: nat)
    requires Window(w, h) && py < 4 && px < 4
    ensures Block(b, seed, x, y, w, h, 0) == b && Rands(seed, 0) == seed
    ensures Rands(seed, 4 * py + px + 1) == Rand(Rands(seed, 4 * py + px))
    ensures Block(b, seed, x, y, w, h, 4 * py + px + 1)
         == Put(Block(b, seed, x, y, w, h, 4 * py + px), Wrap(x + px, w), Wrap(y + py, h),
                Rands(seed, 4 * py + px + 1) % 2 != 0)
  {
    hide Put, Wrap, Rand;
    DivMod(4 * py + px, py, px, 4);
  }

  // ---- the first filling ----

  /** One draw for each of the first k cells, row by row: about a third of them live. */
  function Seeded(b: Board, seed: nat, k: nat): Board
    requires k <= MAX_DIM * MAX_DIM
  {
    if k == 0 then b
    else Put(Seeded(b, seed, k - 1), (k - 1) % MAX_DIM, (k - 1) / MAX_DIM, Rands(seed, k) / 0x1_0000 < 24000)
  }

  lemma SeedSteps(b: Board, seed: nat, x: nat, y: nat)
    requires x < MAX_DIM && y < MAX_DIM
    ensures Seeded(b, seed, 0) == b && Rands(seed, 0) == seed
    ensures Rands(seed, MAX_DIM * y + x + 1) == Rand(Rands(seed, MAX_DIM * y + x))
    ensures Seeded(b, seed, MAX_DIM * y + x + 1)
         == Put(Seeded(b, seed, MAX_DIM * y + x), x, y, Rands(seed, MAX_DIM * y + x + 1) / 0x1_0000 < 24000)
  {
    hide Put, Rand;
    DivMod(MAX_DIM * y + x, y, x, MAX_DIM);
  }

  /** Every cell of the field is its own draw, whatever the board held: worlds seeded alike are
      alike. */
  lemma {:induction false} SeededAt(b: Board, seed: nat, k: nat, x: nat, y: nat)
    requires k <= MAX_DIM * MAX_DIM && x < MAX_DIM && y < MAX_DIM && MAX_DIM * y + x < k
    ensures At(Seeded(b, seed, k), x, y) <==> Rands(seed, MAX_DIM * y + x + 1) / 0x1_0000 < 24000
    decreases k
  {
    hide Rands;
    if MAX_DIM * y + x == k - 1 {
      DivMod(k - 1, y, x, MAX_DIM);
    } else {
      SeededAt(b, seed, k - 1, x, y);
      assert k - 1 == MAX_DIM * ((k - 1) / MAX_DIM) + (k - 1) % MAX_DIM;
    }
  }

  class World {
    const cur: array<byte>
    const nxt: array<byte>
    var seed: nat

    ghost predicate Valid()
      reads this
    {
      IsPlane(cur) && IsPlane(nxt) && cur != nxt && seed < U32
    }

    /** A world in cleared memory, and its first filling. */
    constructor (seed: nat)
      requires seed < U32
      ensures Valid() && fresh(cur) && fresh(nxt) && this.seed == Rands(seed, MAX_DIM * MAX_DIM)
      ensures Generation() == Seeded(seq(CELLS, _ => false), seed, MAX_DIM * MAX_DIM)
    {
      cur := new byte[PLANE](_ => 0);
      nxt := new byte[PLANE](_ => 0);
      this.seed := seed;
      new;
      NothingAlive(cur[..]);
      LifeInit(seed);
    }

    /** life_init: one draw a cell, in row order; the padding is left as it is. */
    method LifeInit(seed: nat)
      requires IsPlane(cur) && IsPlane(nxt) && cur != nxt && seed < U32
      modifies cur, nxt, this`seed
      ensures Valid() && this.seed == Rands(seed, MAX_DIM * MAX_DIM)
      ensures Generation() == Seeded(old(Cells(cur[..])), seed, MAX_DIM * MAX_DIM)
      ensures forall i :: 0 <= i < PLANE ==> nxt[i] == 0
    {
      hide Cells, Put, Rand, Rands, Seeded;
      ghost var was := Cells(cur[..]);
      this.seed := seed;
      SeedSteps(was, seed, 0, 0);
      for y := 0 to MAX_DIM
        invariant Valid() && this.seed == Rands(seed, MAX_DIM * y)
        invariant Cells(cur[..]) == Seeded(was, seed, MAX_DIM * y)
      {
        for x := 0 to MAX_DIM
          invariant Valid() && this.seed == Rands(seed, MAX_DIM * y + x)
          invariant Cells(cur[..]) == Seeded(was, seed, MAX_DIM * y + x)
        {
          SeedSteps(was, seed, x, y);
          var r := LifeRand();
          PlaneSet(cur, x, y, r / 0x1_0000 < 24000);
        }
      }
      Wipe(nxt, 0);
    }

    ghost function Generation(): Board
      requires Valid()
      reads this, cur
    {
      Cells(cur[..])
    }

    method LifeRand() returns (r: nat)
      requires Valid()
      modifies this`seed
      ensures Valid() && r == seed == Rand(old(seed))
    {
      seed := (seed * 1664525 + 1013904223) % U32;
      r := seed;
    }

    method InjectGlider(x: nat, y: nat, w: nat, h: nat)
      requires Valid() && Window(w, h)
      modifies cur
      ensures Cells(cur[..]) == Glider(old(Cells(cur[..])), x, y, w, h, 9)
    {
      hide Cells, Put, Wrap, InGlider, Glider;
      ghost var was := Cells(cur[..]);
      GliderSteps(was, x, y, w, h, 0, 0);
      for py := 0 to 3
        invariant Cells(cur[..]) == Glider(was, x, y, w, h, 3 * py)
      {
        for px := 0 to 3
          invariant Cells(cur[..]) == Glider(was, x, y, w, h, 3 * py + px)
        {
          GliderSteps(was, x, y, w, h, py, px);
          PlaneSet(cur, Wrap(x + px, w), Wrap(y + py, h), InGlider(3 * py + px));
        }
      }
    }

    method InjectRandomBlock(x: nat, y: nat, w: nat, h: nat)
      requires Valid() && Window(w, h)
      modifies cur, this`seed
      ensures Valid() && seed == Rands(old(seed), 16)
      ensures Cells(cur[..]) == Block(old(Cells(cur[..])), old(seed), x, y, w, h, 16)
    {
      hide Cells, Put, Wrap, Rand, Rands, Block;
      ghost var was, s := Cells(cur[..]), seed;
      BlockSteps(was, s, x, y, w, h, 0, 0);
      for py := 0 to 4
        invariant Valid() && seed == Rands(s, 4 * py)
        invariant Cells(cur[..]) == Block(was, s, x, y, w, h, 4 * py)
      {
        for px := 0 to 4
          invariant Valid() && seed == Rands(s, 4 * py + px)
          invariant Cells(cur[..]) == Block(was, s, x, y, w, h, 4 * py + px)
        {
          BlockSteps(was, s, x, y, w, h, py, px);
          var r := LifeRand();
          PlaneSet(cur, Wrap(x + px, w), Wrap(y + py, h), r % 2 != 0);
        }
      }
    }

    /** Once in fifty updates something is thrown in. */
    method Inject(w: nat, h: nat)
      requires Valid() && Window(w, h)
      modifies cur, this`seed
      ensures Valid() && (Cells(cur[..]), seed) == Injected(old(Cells(cur[..])), old(seed), w, h)
    {
      hide Cells, Rand, Glider, Block;
      ghost var s := seed;
      assert Rands(s, 1) == Rand(s) && Rands(s, 2) == Rand(Rands(s, 1));
      assert Rands(s, 3) == Rand(Rands(s, 2)) && Rands(s, 4) == Rand(Rands(s, 3));
      var r := LifeRand();
      if r % 100 < 2 {
        var rx := LifeRand();
        var ry := LifeRand();
        var what := LifeRand();
        if what % 2 == 0 {
          InjectGlider(rx % w, ry % h, w, h);
        } else {
          InjectRandomBlock(rx % w, ry % h, w, h);
        }
      }
    }

    method Wipe(p: array<byte>, from: nat)
      requires IsPlane(p) && from <= MAX_DIM
      modifies p
      ensures forall i :: 0 <= i < PLANE ==> p[i] == if i < ROW_BYTES * from then old(p[i]) else 0
    {
      for i := ROW_BYTES * from to PLANE
        invariant forall k :: 0 <= k < PLANE ==> p[k] == if ROW_BYTES * from <= k < i then 0 else old(p[k])
      {
        p[i] := 0;
      }
    }

    /** The next generation, cell by cell in row order, into the scratch plane. */
    method Compute(w: nat, h: nat)
      requires Valid() && Window(w, h)
      modifies nxt
      ensures Cells(nxt[..]) == Evolved(Generation(), w, h)
    {
      hide Cells, NextAlive, Neighbours;
      ghost var e := Evolved(Generation(), w, h);
      Wipe(nxt, 0);
      WipedIsEmpty(nxt[..], e);
      for y := 0 to h
        invariant Cells(nxt[..]) == First(e, ROW_CELLS * y)
      {
        for x := 0 to w
          invariant Cells(nxt[..]) == First(e, ROW_CELLS * y + x)
        {
          var neighbors := CountNeighbors(cur, x, y, w, h);
          var alive := PlaneGet(cur, x, y);
          var next := if alive then neighbors == 2 || neighbors == 3 else neighbors == 3;
          PlaneSet(nxt, x, y, next);
          FirstGrows(Generation(), x, y, w, h, next);
        }
        RowEnds(Generation(), y, w, h);
      }
      AllOfIt(Generation(), w, h);
    }

    /** Whole rows of the scratch plane, and nothing below the window. */
    method Commit(h: nat)
      requires Valid() && h <= MAX_DIM
      modifies cur
      ensures forall i :: 0 <= i < PLANE ==> cur[i] == if i < ROW_BYTES * h then nxt[i] else 0
    {
      for i := 0 to ROW_BYTES * h
        invariant forall k :: 0 <= k < i ==> cur[k] == nxt[k]
      {
        cur[i] := nxt[i];
      }
      Wipe(cur, h);
    }

    /** life_update: nothing on an empty window; else one generation of the board, injected or
        not, inside the window clamped to the plane, and every bit outside it dead. */
    method Update(width: int, height: int)
      requires Valid()
      modifies cur, nxt, this`seed
      ensures Valid()
      ensures if width <= 0 || height <= 0 then Generation() == old(Generation()) && seed == old(seed)
        else
          var w, h := Min(width, MAX_DIM), Min(height, MAX_DIM);
          Generation() == Evolved(Injected(old(Generation()), old(seed), w, h).0, w, h)
          && seed == Injected(old(Generation()), old(seed), w, h).1
    {
      hide Cells, Evolved, Injected;
      if width <= 0 || height <= 0 {
        return;
      }
      var w := if width > MAX_DIM then MAX_DIM else width;
      var h := if height > MAX_DIM then MAX_DIM else height;
      Inject(w, h);
      ghost var b := Generation();
      Compute(w, h);
      Commit(h);
      Committed(nxt[..], cur[..], b, w, h);
    }
  }

  /** The first n cells of a board, the others dead. */
  function First(b: Board, n: nat): Board
    requires n <= CELLS
  {
    seq(CELLS, k requires 0 <= k < CELLS => k < n && b[k])
  }

  lemma NothingAlive(p: bytes)
    requires |p| == PLANE && forall i :: 0 <= i < PLANE ==> p[i] == 0
    ensures Cells(p) == seq(CELLS, _ => false)
  {
    hide BitAt;
    forall n | 0 <= n < CELLS ensures Cells(p)[n] == false {
      NoBits(7 - n % 8);
    }
  }

  lemma WipedIsEmpty(p: bytes, e: Board)
    requires |p| == PLANE && forall i :: 0 <= i < PLANE ==> p[i] == 0
    ensures Cells(p) == First(e, 0)
  {
    hide Cells;
    NothingAlive(p);
  }

  lemma RowCell(x: nat, y: nat)
    requires x < ROW_CELLS
    ensures (ROW_CELLS * y + x) % ROW_CELLS == x && (ROW_CELLS * y + x) / ROW_CELLS == y
  {
  }

  lemma FirstGrows(b: Board, x: nat, y: nat, w: nat, h: nat, next: bool)
    requires Window(w, h) && x < w && y < h && next == Lives(b, x, y, w, h)
    ensures Put(First(Evolved(b, w, h), ROW_CELLS * y + x), x, y, next)
         == First(Evolved(b, w, h), ROW_CELLS * y + x + 1)
  {
    hide Lives;
    RowCell(x, y);
  }

  lemma RowEnds(b: Board, y: nat, w: nat, h: nat)
    requires Window(w, h) && y < h
    ensures First(Evolved(b, w, h), ROW_CELLS * y + w) == First(Evolved(b, w, h), ROW_CELLS * (y + 1))
  {
    hide Lives;
    var e := Evolved(b, w, h);
    forall n | ROW_CELLS * y + w <= n < ROW_CELLS * (y + 1) ensures !e[n] {
      RowCell(n - ROW_CELLS * y, y);
    }
  }

  lemma AllOfIt(b: Board, w: nat, h: nat)
    requires Window(w, h)
    ensures First(Evolved(b, w, h), ROW_CELLS * h) == Evolved(b, w, h)
  {
    hide Lives;
    var e := Evolved(b, w, h);
    forall n | ROW_CELLS * h <= n < CELLS ensures !e[n] {
      assert n / ROW_CELLS >= h;
    }
  }

  lemma Committed(nxt: bytes, cur: bytes, b: Board, w: nat, h: nat)
    requires |nxt| == |cur| == PLANE && Window(w, h) && Cells(nxt) == Evolved(b, w, h)
    requires forall i :: 0 <= i < PLANE ==> cur[i] == if i < ROW_BYTES * h then nxt[i] else 0
    ensures Cells(cur) == Evolved(b, w, h)
  {
    hide BitAt, Lives;
    forall n | 0 <= n < CELLS ensures Cells(cur)[n] == Evolved(b, w, h)[n] {
      NoBits(7 - n % 8);
      assert Cells(nxt)[n] == Evolved(b, w, h)[n];
      if n / 8 >= ROW_BYTES * h { assert n / ROW_CELLS >= h; }
    }
  }

  // ---- what a generation keeps ----

  /** Nothing outside the window is alive after an update, padding included. */
  lemma NothingOutside(b: Board, w: nat, h: nat, x: nat, y: nat)
    requires Window(w, h) && x < ROW_CELLS && y < MAX_DIM
    ensures At(Evolved(b, w, h), x, y) == (x < w && y < h && Lives(b, x, y, w, h))
  {
    hide Lives;
    RowCell(x, y);
  }

  lemma {:induction false} NeighbourExists(b: Board, x: nat, y: nat, w: nat, h: nat, k: nat)
    requires Window(w, h) && k <= 9 && Neighbours(b, x, y, w, h, k) > 0
    ensures exists j :: 0 <= j < k && Around(b, x, y, w, h, j)
  {
    hide Around;
    if !(k - 1 != 4 && Around(b, x, y, w, h, k - 1)) {
      NeighbourExists(b, x, y, w, h, k - 1);
    }
  }

  /** One of the cells a block of `side` by `side` thrown in at (x0, y0) is clamped onto. */
  predicate InBlock(x0: nat, y0: nat, w: nat, h: nat, side: nat, n: nat, x: nat, y: nat)
    requires Window(w, h) && side > 0
  {
    exists k :: 0 <= k < n && OnCell(x0, y0, w, h, side, k, x, y)
  }

  predicate OnCell(x0: nat, y0: nat, w: nat, h: nat, side: nat, k: nat, x: nat, y: nat)
    requires Window(w, h) && side > 0
  {
    x == Wrap(x0 + k % side, w) && y == Wrap(y0 + k / side, h)
  }

  /** An update with this seed throws something onto the cell. */
  predicate Thrown(seed: nat, w: nat, h: nat, x: nat, y: nat)
    requires Window(w, h)
  {
    && Rands(seed, 1) % 100 < 2
    && var glider := Rands(seed, 4) % 2 == 0;
    InBlock(Rands(seed, 2) % w, Rands(seed, 3) % h, w, h, if glider then 3 else 4, if glider then 9 else 16, x, y)
  }

  lemma PutElsewhere(b: Board, x: nat, y: nat, v: bool, nx: nat, ny: nat)
    requires x < ROW_CELLS && y < MAX_DIM && nx < ROW_CELLS && ny < MAX_DIM && (nx != x || ny != y)
    ensures At(Put(b, x, y, v), nx, ny) == At(b, nx, ny)
  {
  }

  lemma {:induction false} GliderElsewhere(b: Board, x0: nat, y0: nat, w: nat, h: nat, k: nat, x: nat, y: nat)
    requires Window(w, h) && k <= 9 && x < ROW_CELLS && y < MAX_DIM && !InBlock(x0, y0, w, h, 3, k, x, y)
    ensures At(Glider(b, x0, y0, w, h, k), x, y) == At(b, x, y)
  {
    hide Wrap, At, InGlider, Put;
    if k > 0 {
      assert !OnCell(x0, y0, w, h, 3, k - 1, x, y);
      GliderElsewhere(b, x0, y0, w, h, k - 1, x, y);
      PutElsewhere(Glider(b, x0, y0, w, h, k - 1), Wrap(x0 + (k - 1) % 3, w), Wrap(y0 + (k - 1) / 3, h),
        InGlider(k - 1), x, y);
    }
  }

  lemma {:induction false} BlockElsewhere(b: Board, seed: nat, x0: nat, y0: nat, w: nat, h: nat, k: nat, x: nat, y: nat)
    requires Window(w, h) && k <= 16 && x < ROW_CELLS && y < MAX_DIM && !InBlock(x0, y0, w, h, 4, k, x, y)
    ensures At(Block(b, seed, x0, y0, w, h, k), x, y) == At(b, x, y)
  {
    hide Wrap, At, Rands, Put;
    if k > 0 {
      assert !OnCell(x0, y0, w, h, 4, k - 1, x, y);
      BlockElsewhere(b, seed, x0, y0, w, h, k - 1, x, y);
      PutElsewhere(Block(b, seed, x0, y0, w, h, k - 1), Wrap(x0 + (k - 1) % 4, w), Wrap(y0 + (k - 1) / 4, h),
        Rands(seed, k) % 2 != 0, x, y);
    }
  }

  /** Throwing something in touches no cell but those it lands on. */
  lemma InjectedElsewhere(b: Board, seed: nat, w: nat, h: nat, x: nat, y: nat)
    requires Window(w, h) && x < ROW_CELLS && y < MAX_DIM && !Thrown(seed, w, h, x, y)
    ensures At(Injected(b, seed, w, h).0, x, y) == At(b, x, y)
  {
    hide At, Rands, Glider, Block, InBlock;
    if Rands(seed, 1) % 100 < 2 {
      var x0, y0, s := Rands(seed, 2) % w, Rands(seed, 3) % h, Rands(seed, 4);
      if s % 2 == 0 {
        GliderElsewhere(b, x0, y0, w, h, 9, x, y);
      } else {
        BlockElsewhere(b, s, x0, y0, w, h, 16, x, y);
      }
    }
  }

  /** Whatever windows two updates are given and whatever the second throws in, a cell alive
      after the second has a neighbour that was alive after the first, and so inside the first
      window, or was just thrown in: no cell of an older, wider generation comes back. */
  lemma NoResurrection(b: Board, w1: nat, h1: nat, seed: nat, w2: nat, h2: nat, x: nat, y: nat)
    returns (nx: nat, ny: nat)
    requires Window(w1, h1) && Window(w2, h2) && x < ROW_CELLS && y < MAX_DIM
    requires At(Evolved(Injected(Evolved(b, w1, h1), seed, w2, h2).0, w2, h2), x, y)
    ensures nx < w2 && ny < h2 && At(Injected(Evolved(b, w1, h1), seed, w2, h2).0, nx, ny)
    ensures exists j :: 0 <= j < 9 && nx == (x + j % 3 - 1) % w2 && ny == (y + j / 3 - 1) % h2
    ensures (nx < w1 && ny < h1 && At(Evolved(b, w1, h1), nx, ny)) || Thrown(seed, w2, h2, nx, ny)
  {
    hide Evolved, Neighbours, Injected, Thrown;
    var e := Evolved(b, w1, h1);
    var i := Injected(e, seed, w2, h2).0;
    NothingOutside(i, w2, h2, x, y);
    NeighbourExists(i, x, y, w2, h2, 9);
    var j :| 0 <= j < 9 && Around(i, x, y, w2, h2, j);
    nx, ny := (x + j % 3 - 1) % w2, (y + j / 3 - 1) % h2;
    if !Thrown(seed, w2, h2, nx, ny) {
      InjectedElsewhere(e, seed, w2, h2, nx, ny);
      NothingOutside(b, w1, h1, nx, ny);
    }
  }

  // ---- the window is a torus ----

  predicate ShiftedCell(b: Board, w: nat, h: nat, dx: nat, dy: nat, n: nat)
    requires Window(w, h)
  {
    n % ROW_CELLS < w && n / ROW_CELLS < h && At(b, (n % ROW_CELLS + dx) % w, (n / ROW_CELLS + dy) % h)
  }

  /** The window turned round by dx columns and dy rows. */
  function Shifted(b: Board, w: nat, h: nat, dx: nat, dy: nat): Board
    requires Window(w, h)
  {
    seq(CELLS, n requires 0 <= n < CELLS => ShiftedCell(b, w, h, dx, dy, n))
  }

  lemma ShiftedAt(b: Board, w: nat, h: nat, dx: nat, dy: nat, x: nat, y: nat)
    requires Window(w, h) && x < w && y < h
    ensures At(Shifted(b, w, h, dx, dy), x, y) == At(b, (x + dx) % w, (y + dy) % h)
  {
    RowCell(x, y);
  }

  lemma ModOnce(a: int, c: int, w: nat)
    requires w > 0
    ensures (a % w + c) % w == (a + c) % w
  {
    var r := a % w + c;
    assert a == (a / w) * w + a % w && r == (r / w) * w + r % w;
    assert (a / w + r / w) * w == (a / w) * w + (r / w) * w;
    DivMod(a + c, a / w + r / w, r % w, w);
  }

  lemma ShiftSwaps(x: int, o: int, d: int, w: nat)
    requires w > 0
    ensures ((x + o) % w + d) % w == ((x + d) % w + o) % w
  {
    ghost var sum := x + o + d;
    ModOnce(x + o, d, w);
    assert ((x + o) % w + d) % w == sum % w;
    ModOnce(x + d, o, w);
    assert ((x + d) % w + o) % w == sum % w;
  }

  lemma {:induction false} ShiftedNeighbours(b: Board, w: nat, h: nat, dx: nat, dy: nat, x: nat, y: nat, k: nat)
    requires Window(w, h) && x < w && y < h && k <= 9
    ensures Neighbours(Shifted(b, w, h, dx, dy), x, y, w, h, k) == Neighbours(b, (x + dx) % w, (y + dy) % h, w, h, k)
  {
    hide Shifted, At;
    if k > 0 {
      var j := k - 1;
      ShiftedNeighbours(b, w, h, dx, dy, x, y, j);
      ShiftedAt(b, w, h, dx, dy, (x + j % 3 - 1) % w, (y + j / 3 - 1) % h);
      ShiftSwaps(x, j % 3 - 1, dx, w);
      ShiftSwaps(y, j / 3 - 1, dy, h);
    }
  }

  /** Turning the window round and playing one generation is playing it and turning round: the
      world has no edge and no corner. */
  lemma GenerationHasNoEdge(b: Board, w: nat, h: nat, dx: nat, dy: nat)
    requires Window(w, h)
    ensures Evolved(Shifted(b, w, h, dx, dy), w, h) == Shifted(Evolved(b, w, h), w, h, dx, dy)
  {
    hide Neighbours, At;
    forall n | 0 <= n < CELLS
      ensures Evolved(Shifted(b, w, h, dx, dy), w, h)[n] == Shifted(Evolved(b, w, h), w, h, dx, dy)[n]
    {
      var x, y := n % ROW_CELLS, n / ROW_CELLS;
      if x < w && y < h {
        ShiftedNeighbours(b, w, h, dx, dy, x, y, 9);
        ShiftedAt(b, w, h, dx, dy, x, y);
        NothingOutside(b, w, h, (x + dx) % w, (y + dy) % h);
      }
    }
  }
}
