/** A 32-bit bitmap read as a set of small numbers. */
module Window {
  type bitmap = bv32

  const WINDOW := 32

  /** A position as a shift amount. */
  function Pos(i: nat): bv5
    requires i < WINDOW
  {
    i as bv5
  }

  /** Bit i is set. */
  predicate Has(w: bitmap, i: nat)
    requires i < WINDOW
  {
    HasAt(w, Pos(i))
  }

  predicate HasAt(w: bitmap, i: bv5) { (w >> i) & 1 == 1 }

  /** `win & (1 << i)` is zero. */
  predicate Clear(w: bitmap, i: nat)
    requires i < WINDOW
  {
    ClearAt(w, Pos(i))
  }

  predicate ClearAt(w: bitmap, i: bv5) { w & (1 << i) == 0 }

  /** `win << d` */
  function ShiftUp(w: bitmap, d: nat): bitmap
    requires d < WINDOW
  {
    ShiftUpAt(w, Pos(d))
  }

  function ShiftUpAt(w: bitmap, d: bv5): bitmap { w << d }

  /** `win | (1 << i)` */
  function With(w: bitmap, i: nat): bitmap
    requires i < WINDOW
  {
    WithAt(w, Pos(i))
  }

  function WithAt(w: bitmap, i: bv5): bitmap { w | (1 << i) }

  lemma Position(i: nat)
    requires i < WINDOW
    ensures Pos(i) as int == i
  {
  }

  lemma PositionOrder(a: bv5, b: bv5)
    ensures a >= b <==> a as int >= b as int
    ensures a == b <==> a as int == b as int
  {
  }

  lemma PositionMinus(a: bv5, b: bv5)
    requires a >= b
    ensures (a - b) as int == a as int - b as int
  {
  }

  lemma PositionsCompare(i: nat, d: nat)
    requires i < WINDOW && d < WINDOW
    ensures Pos(i) >= Pos(d) <==> i >= d
    ensures Pos(i) == Pos(d) <==> i == d
    ensures i >= d ==> Pos(i) - Pos(d) == Pos(i - d)
  {
    Position(i);
    Position(d);
    PositionOrder(Pos(i), Pos(d));
    if i >= d {
      Position(i - d);
      PositionMinus(Pos(i), Pos(d));
      PositionOrder(Pos(i) - Pos(d), Pos(i - d));
    }
  }

  lemma ClearMeans(w: bitmap, k: bv5)
    ensures ClearAt(w, k) <==> !HasAt(w, k)
  {
  }

  lemma ShiftMeans(w: bitmap, d: bv5, i: bv5)
    ensures HasAt(ShiftUpAt(w, d), i) <==> i >= d && HasAt(w, i - d)
  {
  }

  lemma WithMeans(w: bitmap, k: bv5, i: bv5)
    ensures HasAt(WithAt(w, k), i) <==> i == k || HasAt(w, i)
  {
  }

  /** The test the code makes is membership. */
  lemma ClearTest(w: bitmap, k: nat)
    requires k < WINDOW
    ensures Clear(w, k) <==> !Has(w, k)
  {
    hide HasAt, ClearAt, Pos;
    ClearMeans(w, Pos(k));
  }

  /** Shifting adds d to every member, dropping those that leave the window. */
  lemma ShiftMembers(w: bitmap, d: nat, i: nat)
    requires d < WINDOW && i < WINDOW
    ensures Has(ShiftUp(w, d), i) <==> i >= d && Has(w, i - d)
  {
    hide HasAt, ShiftUpAt, Pos;
    ShiftMeans(w, Pos(d), Pos(i));
    PositionsCompare(i, d);
  }

  /** Or-ing a bit in adds one member. */
  lemma WithMember(w: bitmap, k: nat, i: nat)
    requires k < WINDOW && i < WINDOW
    ensures Has(With(w, k), i) <==> i == k || Has(w, i)
  {
    hide HasAt, WithAt, Pos;
    WithMeans(w, Pos(k), Pos(i));
    PositionsCompare(i, k);
  }

  lemma Constants(i: nat)
    requires i < WINDOW
    ensures !Has(0, i) && Has(0xFFFF_FFFF, i)
    ensures Has(1, i) <==> i == 0
  {
    hide HasAt, Pos;
    ConstantsAt(Pos(i));
    Position(i);
    PositionOrder(Pos(i), 0);
  }

  lemma ConstantsAt(i: bv5)
    ensures !HasAt(0, i) && HasAt(0xFFFF_FFFF, i) && (HasAt(1, i) <==> i == 0)
  {
  }
}
