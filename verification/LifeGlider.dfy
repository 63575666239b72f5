/**
 * What the rule makes of the glider that is thrown in: on a field with nothing else on it, it
 * walks one cell down and one to the right every four generations, across the edges too.
 */
module LifeGlider {
  import opened Life
  import opened Numbers

  // ---- the rule, spelt out ----

  function One(alive: bool): nat { if alive then 1 else 0 }

  /** The living among the eight cells around column x, row y, given the columns and rows next
      to it. */
  function Eight(b: Board, l: nat, x: nat, r: nat, u: nat, y: nat, d: nat): nat
    requires l < ROW_CELLS && x < ROW_CELLS && r < ROW_CELLS && u < MAX_DIM && y < MAX_DIM && d < MAX_DIM
  {
    One(At(b, l, u)) + One(At(b, x, u)) + One(At(b, r, u)) + One(At(b, l, y)) + One(At(b, r, y))
    + One(At(b, l, d)) + One(At(b, x, d)) + One(At(b, r, d))
  }

  predicate Rule(n: nat, alive: bool) { n == 3 || (n == 2 && alive) }

  /** A cell of the window is alive in the next generation when three of the eight around it are,
      or two and it is itself. */
  lemma RuleOfLife(b: Board, w: nat, h: nat, x: nat, y: nat)
    requires Window(w, h) && x < w && y < h
    ensures At(Evolved(b, w, h), x, y)
         == Rule(Eight(b, (x - 1) % w, x, (x + 1) % w, (y - 1) % h, y, (y + 1) % h), At(b, x, y))
  {
    hide At, Evolved;
    NothingOutside(b, w, h, x, y);
    UpperHalf(b, w, h, x, y);
    LowerHalf(b, w, h, x, y);
  }

  lemma UpperHalf(b: Board, w: nat, h: nat, x: nat, y: nat)
    requires Window(w, h) && x < w && y < h
    ensures Neighbours(b, x, y, w, h, 5)
         == One(At(b, (x - 1) % w, (y - 1) % h)) + One(At(b, x, (y - 1) % h)) + One(At(b, (x + 1) % w, (y - 1) % h))
            + One(At(b, (x - 1) % w, y))
  {
    hide At, Neighbours, One;
    Inside(x, w);
    Inside(y, h);
    NextNeighbour(b, w, h, x, y, 0);
    NextNeighbour(b, w, h, x, y, 1);
    NextNeighbour(b, w, h, x, y, 2);
    NextNeighbour(b, w, h, x, y, 3);
    NextNeighbour(b, w, h, x, y, 4);
  }

  lemma LowerHalf(b: Board, w: nat, h: nat, x: nat, y: nat)
    requires Window(w, h) && x < w && y < h
    ensures Neighbours(b, x, y, w, h, 9) == Neighbours(b, x, y, w, h, 5)
      + One(At(b, (x + 1) % w, y)) + One(At(b, (x - 1) % w, (y + 1) % h)) + One(At(b, x, (y + 1) % h))
      + One(At(b, (x + 1) % w, (y + 1) % h))
  {
    hide At, Neighbours, One;
    Inside(x, w);
    Inside(y, h);
    NextNeighbour(b, w, h, x, y, 5);
    NextNeighbour(b, w, h, x, y, 6);
    NextNeighbour(b, w, h, x, y, 7);
    NextNeighbour(b, w, h, x, y, 8);
  }

  lemma NextNeighbour(b: Board, w: nat, h: nat, x: nat, y: nat, k: nat)
    requires Window(w, h) && k < 9
    ensures Neighbours(b, x, y, w, h, 0) == 0
    ensures Neighbours(b, x, y, w, h, k + 1) == Neighbours(b, x, y, w, h, k)
      + if k == 4 then 0 else One(At(b, (x + k % 3 - 1) % w, (y + k / 3 - 1) % h))
  {
    hide At;
  }

  lemma Inside(x: nat, w: nat)
    requires x < w
    ensures x % w == x
  {
  }

  // ---- a small shape on an empty field ----

  /** Three rows of three cells. */
  datatype Shape = Shape(a1: bool, a2: bool, a3: bool, b1: bool, b2: bool, b3: bool, c1: bool, c2: bool, c3: bool)

  /** Column i, row j of a shape that has an empty column to its left and an empty row above it. */
  predicate InShape(p: Shape, i: int, j: int) {
    if j == 1 then InRow(p.a1, p.a2, p.a3, i)
    else if j == 2 then InRow(p.b1, p.b2, p.b3, i)
    else j == 3 && InRow(p.c1, p.c2, p.c3, i)
  }

  predicate InRow(c1: bool, c2: bool, c3: bool, i: int) { if i == 1 then c1 else if i == 2 then c2 else i == 3 && c3 }

  /** The window shows the shape, its corner at column x0 and row y0, and nothing else. */
  ghost predicate Drawn(b: Board, p: Shape, x0: int, y0: int, w: nat, h: nat)
    requires Window(w, h)
  {
    forall x: nat, y: nat :: x < w && y < h ==> At(b, x, y) == InShape(p, (x - x0) % w, (y - y0) % h)
  }

  function EightOf(p: Shape, i: int, j: int): nat {
    One(InShape(p, i - 1, j - 1)) + One(InShape(p, i, j - 1)) + One(InShape(p, i + 1, j - 1))
    + One(InShape(p, i - 1, j)) + One(InShape(p, i + 1, j))
    + One(InShape(p, i - 1, j + 1)) + One(InShape(p, i, j + 1)) + One(InShape(p, i + 1, j + 1))
  }

  predicate Fits(p: Shape, q: Shape, dx: int, dy: int, i: int, j: int) {
    Rule(EightOf(p, i, j), InShape(p, i, j)) == InShape(q, i - dx, j - dy)
  }

  /** With nothing around it the shape becomes q, dx columns and dy rows further on. */
  ghost predicate Becomes(p: Shape, q: Shape, dx: int, dy: int) {
    forall i, j :: Fits(p, q, dx, dy, i, j)
  }

  /** One step across the edge of a window of at least five columns makes no difference. */
  lemma ShapeWraps(p: Shape, i: int, j: int, w: nat, h: nat)
    requires w >= 5 && h >= 5 && -1 <= i <= w && -1 <= j <= h
    ensures InShape(p, i % w, j % h) == InShape(p, i, j)
  {
    Once(i, w);
    Once(j, h);
  }

  lemma Once(i: int, w: nat)
    requires w >= 5 && -1 <= i <= w
    ensures i % w == if i == -1 then w - 1 else if i == w then 0 else i
  {
  }

  lemma StepAway(x: int, x0: int, d: int, w: nat)
    requires w > 0
    ensures ((x + d) % w - x0) % w == ((x - x0) % w + d) % w
  {
    ghost var sum := x + d - x0;
    ModOnce(x + d, -x0, w);
    assert ((x + d) % w - x0) % w == sum % w;
    ModOnce(x - x0, d, w);
    assert ((x - x0) % w + d) % w == sum % w;
  }

  lemma CellNear(b: Board, p: Shape, x0: int, y0: int, w: nat, h: nat, x: nat, y: nat, dx: int, dy: int,
                 i: int, j: int, x1: nat, y1: nat)
    requires Window(w, h) && w >= 5 && h >= 5 && Drawn(b, p, x0, y0, w, h) && x < w && y < h
    requires -1 <= dx <= 1 && -1 <= dy <= 1 && i == (x - x0) % w && j == (y - y0) % h
    requires x1 == (x + dx) % w && y1 == (y + dy) % h
    ensures x1 < w && y1 < h && At(b, x1, y1) == InShape(p, i + dx, j + dy)
  {
    hide InShape, At;
    StepAway(x, x0, dx, w);
    StepAway(y, y0, dy, h);
    ShapeWraps(p, i + dx, j + dy, w, h);
  }

  lemma EightDrawn(b: Board, p: Shape, x0: int, y0: int, w: nat, h: nat, x: nat, y: nat)
    requires Window(w, h) && w >= 5 && h >= 5 && Drawn(b, p, x0, y0, w, h) && x < w && y < h
    ensures Eight(b, (x - 1) % w, x, (x + 1) % w, (y - 1) % h, y, (y + 1) % h)
         == EightOf(p, (x - x0) % w, (y - y0) % h)
  {
    hide InShape, At, Drawn, One;
    Inside(x, w);
    Inside(y, h);
    var l, r, u, d := (x - 1) % w, (x + 1) % w, (y - 1) % h, (y + 1) % h;
    var i, j := (x - x0) % w, (y - y0) % h;
    CellNear(b, p, x0, y0, w, h, x, y, -1, -1, i, j, l, u);
    CellNear(b, p, x0, y0, w, h, x, y, 0, -1, i, j, x, u);
    CellNear(b, p, x0, y0, w, h, x, y, 1, -1, i, j, r, u);
    CellNear(b, p, x0, y0, w, h, x, y, -1, 0, i, j, l, y);
    CellNear(b, p, x0, y0, w, h, x, y, 1, 0, i, j, r, y);
    CellNear(b, p, x0, y0, w, h, x, y, -1, 1, i, j, l, d);
    CellNear(b, p, x0, y0, w, h, x, y, 0, 1, i, j, x, d);
    CellNear(b, p, x0, y0, w, h, x, y, 1, 1, i, j, r, d);
  }

  /** What a shape becomes with nothing around it, it becomes anywhere on the field. */
  lemma NextDrawn(b: Board, p: Shape, q: Shape, dx: int, dy: int, x0: int, y0: int, w: nat, h: nat)
    requires Window(w, h) && w >= 5 && h >= 5 && Drawn(b, p, x0, y0, w, h)
    requires 0 <= dx <= 1 && 0 <= dy <= 1 && Becomes(p, q, dx, dy)
    ensures Drawn(Evolved(b, w, h), q, x0 + dx, y0 + dy, w, h)
  {
    hide InShape, At, Evolved, Becomes;
    forall x: nat, y: nat | x < w && y < h
      ensures At(Evolved(b, w, h), x, y) == InShape(q, (x - (x0 + dx)) % w, (y - (y0 + dy)) % h)
    {
      NextCell(b, p, q, dx, dy, x0, y0, w, h, x, y);
    }
  }

  lemma NextCell(b: Board, p: Shape, q: Shape, dx: int, dy: int, x0: int, y0: int, w: nat, h: nat, x: nat, y: nat)
    requires Window(w, h) && w >= 5 && h >= 5 && Drawn(b, p, x0, y0, w, h) && x < w && y < h
    requires 0 <= dx <= 1 && 0 <= dy <= 1 && Becomes(p, q, dx, dy)
    ensures At(Evolved(b, w, h), x, y) == InShape(q, (x - (x0 + dx)) % w, (y - (y0 + dy)) % h)
  {
    hide InShape, At, Evolved, Eight, EightOf, Rule;
    RuleOfLife(b, w, h, x, y);
    EightDrawn(b, p, x0, y0, w, h, x, y);
    var i, j := (x - x0) % w, (y - y0) % h;
    Back(x, x0, dx, w);
    Back(y, y0, dy, h);
    ShapeWraps(q, i - dx, j - dy, w, h);
    assert Fits(p, q, dx, dy, i, j);
  }

  lemma Back(x: int, x0: int, d: int, w: nat)
    requires w > 0
    ensures (x - (x0 + d)) % w == ((x - x0) % w - d) % w
  {
    ModOnce(x - x0, -d, w);
  }

  // ---- the four phases ----

  /** The shape that is thrown in. */
  const THROWN := Shape(GLIDER[0], GLIDER[1], GLIDER[2], GLIDER[3], GLIDER[4],
                        GLIDER[5], GLIDER[6], GLIDER[7], GLIDER[8])
  const PHASE0 := Shape(false, true, false, false, false, true, true, true, true)
  const PHASE1 := Shape(true, false, true, false, true, true, false, true, false)
  const PHASE2 := Shape(false, false, true, true, false, true, false, true, true)
  const PHASE3 := Shape(true, false, false, false, true, true, true, true, false)

  lemma Phase1()
    ensures Becomes(PHASE0, PHASE1, 0, 1)
  {
  }

  lemma Phase2()
    ensures Becomes(PHASE1, PHASE2, 0, 0)
  {
  }

  lemma Phase3()
    ensures Becomes(PHASE2, PHASE3, 1, 0)
  {
  }

  lemma Phase4()
    ensures Becomes(PHASE3, PHASE0, 0, 0)
  {
  }

  function Generations(b: Board, w: nat, h: nat, n: nat): Board
    requires Window(w, h)
  {
    if n == 0 then b else Evolved(Generations(b, w, h, n - 1), w, h)
  }

  lemma FourGenerations(b: Board, x0: int, y0: int, w: nat, h: nat)
    requires Window(w, h) && w >= 5 && h >= 5 && Drawn(b, THROWN, x0, y0, w, h)
    ensures Drawn(Evolved(Evolved(Evolved(Evolved(b, w, h), w, h), w, h), w, h), THROWN, x0 + 1, y0 + 1, w, h)
  {
    hide Drawn, Becomes, Evolved;
    Phase1();
    Phase2();
    Phase3();
    Phase4();
    var b1 := Evolved(b, w, h);
    var b2 := Evolved(b1, w, h);
    var b3 := Evolved(b2, w, h);
    NextDrawn(b, PHASE0, PHASE1, 0, 1, x0, y0, w, h);
    NextDrawn(b1, PHASE1, PHASE2, 0, 0, x0, y0 + 1, w, h);
    NextDrawn(b2, PHASE2, PHASE3, 1, 0, x0, y0 + 1, w, h);
    NextDrawn(b3, PHASE3, PHASE0, 0, 0, x0 + 1, y0 + 1, w, h);
  }

  /** In any window of five cells or more each way, for as long as nothing else is thrown in. */
  lemma {:induction false} GliderWalks(b: Board, x0: int, y0: int, w: nat, h: nat, k: nat)
    requires Window(w, h) && w >= 5 && h >= 5 && Drawn(b, THROWN, x0, y0, w, h)
    ensures Drawn(Generations(b, w, h, 4 * k), THROWN, x0 + k, y0 + k, w, h)
  {
    hide Drawn, Evolved;
    if k > 0 {
      GliderWalks(b, x0, y0, w, h, k - 1);
      var c := Generations(b, w, h, 4 * (k - 1));
      FourGenerations(c, x0 + (k - 1), y0 + (k - 1), w, h);
      assert Generations(b, w, h, 4 * k - 3) == Evolved(c, w, h);
      assert Generations(b, w, h, 4 * k - 2) == Evolved(Evolved(c, w, h), w, h);
      assert Generations(b, w, h, 4 * k - 1) == Evolved(Evolved(Evolved(c, w, h), w, h), w, h);
    }
  }

  // ---- thrown onto an empty field ----

  /** The cells of a glider are put where they belong, unless two of its columns or rows would
      wrap round: the code's clamping puts those onto the first one. */
  lemma {:induction false} GliderCells(b: Board, x0: nat, y0: nat, w: nat, h: nat, k: nat, x: nat, y: nat)
    requires Window(w, h) && w >= 5 && h >= 5 && x0 + 2 <= w && y0 + 2 <= h && k <= 9 && x < w && y < h
    ensures var i, j := (x - x0) % w, (y - y0) % h;
      At(Glider(b, x0, y0, w, h, k), x, y)
      == if i < 3 && j < 3 && 3 * j + i < k then InGlider(3 * j + i) else At(b, x, y)
  {
    hide At, Put, Wrap, InGlider;
    if k > 0 {
      var m := k - 1;
      Grid((x - x0) % w, (y - y0) % h, m, 3);
      GliderCells(b, x0, y0, w, h, m, x, y);
      WrapIsMod(x, x0, m % 3, w);
      WrapIsMod(y, y0, m / 3, h);
      PutAt(Glider(b, x0, y0, w, h, m), Wrap(x0 + m % 3, w), Wrap(y0 + m / 3, h), InGlider(m), x, y);
    }
  }

  /** Which cell of a grid of n columns comes m-th. */
  lemma Grid(i: nat, j: nat, m: nat, n: nat)
    requires n > 0
    ensures m % n == i && m / n == j <==> i < n && n * j + i == m
  {
    if i < n && n * j + i == m { DivMod(m, j, i, n); }
  }

  lemma WrapIsMod(x: nat, x0: nat, d: nat, w: nat)
    requires w >= 5 && x < w && x0 + 2 <= w && d < 3
    ensures x == Wrap(x0 + d, w) <==> (x - x0) % w == d
  {
    OnceBelow(x - x0, w);
  }

  lemma OnceBelow(i: int, w: nat)
    requires 0 <= i + w && i < w
    ensures i % w == if i < 0 then i + w else i
  {
  }

  lemma PutAt(b: Board, x0: nat, y0: nat, v: bool, x: nat, y: nat)
    requires x0 < ROW_CELLS && y0 < MAX_DIM && x < ROW_CELLS && y < MAX_DIM
    ensures At(Put(b, x0, y0, v), x, y) == if x == x0 && y == y0 then v else At(b, x, y)
  {
  }

  /** A glider thrown onto an empty field is drawn there, and walks: four generations on it is
      one further down and one further right, and so on for ever. */
  lemma ThrownWalks(b: Board, x0: nat, y0: nat, w: nat, h: nat, k: nat)
    requires Window(w, h) && w >= 5 && h >= 5 && x0 + 2 <= w && y0 + 2 <= h
    requires forall x: nat, y: nat :: x < w && y < h ==> !At(b, x, y)
    ensures Drawn(Generations(Glider(b, x0, y0, w, h, 9), w, h, 4 * k), THROWN, x0 - 1 + k, y0 - 1 + k, w, h)
  {
    hide Generations, Drawn, Glider;
    ThrownWholeExactly(b, x0, y0, w, h);
    GliderWalks(Glider(b, x0, y0, w, h, 9), x0 - 1, y0 - 1, w, h, k);
  }

  /** One thrown into the last column or row comes out torn: the code's wrap puts the two columns
      or rows past the edge both onto the first. */
  lemma ThrownWholeExactly(b: Board, x0: nat, y0: nat, w: nat, h: nat)
    requires Window(w, h) && w >= 5 && h >= 5 && x0 < w && y0 < h
    requires forall x: nat, y: nat :: x < w && y < h ==> !At(b, x, y)
    ensures Drawn(Glider(b, x0, y0, w, h, 9), THROWN, x0 - 1, y0 - 1, w, h) <==> x0 + 2 <= w && y0 + 2 <= h
  {
    hide At, InShape, Glider;
    if x0 + 2 <= w && y0 + 2 <= h {
      forall x: nat, y: nat | x < w && y < h
        ensures At(Glider(b, x0, y0, w, h, 9), x, y) == InShape(THROWN, (x - (x0 - 1)) % w, (y - (y0 - 1)) % h)
      {
        ThrownCell(b, x0, y0, w, h, x, y);
      }
    } else if x0 + 2 > w {
      LeftOut(b, x0, y0, w, h, 1, (y0 + 1) % h);
      Torn(x0, 2, w);
      Back(1, x0, -1, w);
      Back((y0 + 1) % h, y0, -1, h);
      Torn(y0, 1, h);
      ThrownShape(2, 1, w, h);
    } else {
      LeftOut(b, x0, y0, w, h, x0, 1);
      Torn(x0, 0, w);
      Torn(y0, 2, h);
      Back(x0, x0, -1, w);
      Back(1, y0, -1, h);
      ThrownShape(0, 2, w, h);
    }
  }

  lemma Torn(x0: nat, d: nat, w: nat)
    requires w >= 5 && x0 < w && d <= 2
    ensures ((x0 + d) % w - x0) % w == d
    ensures x0 == w - 1 && d == 2 ==> (x0 + d) % w == 1
    ensures d == 0 ==> (x0 + d) % w == x0
  {
    OnceBelow(x0 + d - w, w);
    OnceBelow((x0 + d) % w - x0, w);
  }

  lemma LeftOut(b: Board, x0: nat, y0: nat, w: nat, h: nat, x: nat, y: nat)
    requires Window(w, h) && w >= 5 && h >= 5 && x0 < w && y0 < h && x < w && y < h
    requires (x == 1 && x0 + 1 == w) || (y == 1 && y0 + 1 == h)
    ensures At(Glider(b, x0, y0, w, h, 9), x, y) == At(b, x, y)
  {
    hide At, Glider;
    GliderElsewhere(b, x0, y0, w, h, 9, x, y);
  }

  lemma ThrownCell(b: Board, x0: nat, y0: nat, w: nat, h: nat, x: nat, y: nat)
    requires Window(w, h) && w >= 5 && h >= 5 && x0 + 2 <= w && y0 + 2 <= h && x < w && y < h && !At(b, x, y)
    ensures At(Glider(b, x0, y0, w, h, 9), x, y) == InShape(THROWN, (x - (x0 - 1)) % w, (y - (y0 - 1)) % h)
  {
    hide At, InShape, Glider, InGlider;
    ghost var i, j, i1, j1 := (x - x0) % w, (y - y0) % h, (x - (x0 - 1)) % w, (y - (y0 - 1)) % h;
    assert At(Glider(b, x0, y0, w, h, 9), x, y) == (i < 3 && j < 3 && InGlider(3 * j + i)) by {
      GliderCells(b, x0, y0, w, h, 9, x, y);
    }
    assert i1 == (i + 1) % w by { Back(x, x0, -1, w); }
    assert j1 == (j + 1) % h by { Back(y, y0, -1, h); }
    ThrownShape(i, j, w, h);
  }

  lemma ThrownShape(i: int, j: int, w: nat, h: nat)
    requires w >= 5 && h >= 5 && 0 <= i < w && 0 <= j < h
    ensures InShape(THROWN, (i + 1) % w, (j + 1) % h) == (i < 3 && j < 3 && InGlider(3 * j + i))
  {
    Once(i + 1, w);
    Once(j + 1, h);
  }

  // ---- what an update throws in ----

  /** The generator is the one of Numerical Recipes: the first draws after seed 0. */
  lemma KnownDraws()
    ensures Rands(0, 1) == 0x3C6EF35F && Rands(0, 2) == 0x47502932 && Rands(0, 3) == 0xD1CCF6E9
  {
    hide Rand;
    FirstDraws();
    assert Rands(0, 1) == Rand(0);
    assert Rands(0, 2) == Rand(Rands(0, 1));
    assert Rands(0, 3) == Rand(Rands(0, 2));
  }

  lemma FirstDraws()
    ensures Rand(0) == 0x3C6EF35F && Rand(0x3C6EF35F) == 0x47502932 && Rand(0x47502932) == 0xD1CCF6E9
  {
  }

  lemma {:induction false} RandsAdd(seed: nat, a: nat, b: nat)
    ensures Rands(Rands(seed, a), b) == Rands(seed, a + b)
  {
    hide Rand;
    if b > 0 { RandsAdd(seed, a, b - 1); }
  }

  lemma {:induction false} BlockCells(b: Board, seed: nat, x0: nat, y0: nat, w: nat, h: nat, k: nat, x: nat, y: nat)
    requires Window(w, h) && w >= 5 && h >= 5 && x0 + 3 <= w && y0 + 3 <= h && k <= 16 && x < w && y < h
    ensures var i, j := (x - x0) % w, (y - y0) % h;
      At(Block(b, seed, x0, y0, w, h, k), x, y)
      == if i < 4 && j < 4 && 4 * j + i < k then Rands(seed, 4 * j + i + 1) % 2 != 0 else At(b, x, y)
  {
    hide At, Put, Wrap, Rands;
    if k > 0 {
      var m := k - 1;
      Grid((x - x0) % w, (y - y0) % h, m, 4);
      BlockCells(b, seed, x0, y0, w, h, m, x, y);
      WrapIsModWide(x, x0, m % 4, w);
      WrapIsModWide(y, y0, m / 4, h);
      PutAt(Block(b, seed, x0, y0, w, h, m), Wrap(x0 + m % 4, w), Wrap(y0 + m / 4, h), Rands(seed, k) % 2 != 0, x, y);
    }
  }

  lemma WrapIsModWide(x: nat, x0: nat, d: nat, w: nat)
    requires w >= 5 && x < w && x0 + 3 <= w && d < 4
    ensures x == Wrap(x0 + d, w) <==> (x - x0) % w == d
  {
    OnceBelow(x - x0, w);
  }

  /** Two updates in a hundred throw something in, at a place drawn anew: every other time a glider,
      else a block whose sixteen cells are as many draws. What lands clear of the last columns
      and rows lands cell by cell as drawn. */
  lemma InjectedCells(b: Board, seed: nat, w: nat, h: nat, x: nat, y: nat)
    requires Window(w, h) && w >= 5 && h >= 5 && x < w && y < h && Rands(seed, 1) % 100 < 2
    ensures var x0, y0, glider := Rands(seed, 2) % w, Rands(seed, 3) % h, Rands(seed, 4) % 2 == 0;
      var (c, s) := Injected(b, seed, w, h);
      var i, j := (x - x0) % w, (y - y0) % h;
      && s == Rands(seed, if glider then 4 else 20)
      && (x0 + 3 <= w && y0 + 3 <= h ==>
            At(c, x, y) == if glider && i < 3 && j < 3 then GLIDER[3 * j + i]
                           else if !glider && i < 4 && j < 4 then Rands(seed, 5 + 4 * j + i) % 2 != 0
                           else At(b, x, y))
  {
    hide At, Rands, Glider, Block;
    var x0, y0, s := Rands(seed, 2) % w, Rands(seed, 3) % h, Rands(seed, 4);
    RandsAdd(seed, 4, 16);
    if x0 + 3 <= w && y0 + 3 <= h {
      var i, j := (x - x0) % w, (y - y0) % h;
      RandsAdd(seed, 4, 4 * j + i + 1);
      if s % 2 == 0 {
        GliderCells(b, x0, y0, w, h, 9, x, y);
      } else {
        BlockCells(b, s, x0, y0, w, h, 16, x, y);
      }
    }
  }
}
