/** Bit operations on unsigned integers, bit by bit. */
module BitMask {
  function Digit(on: bool): nat { if on then 1 else 0 }

  predicate Odd(x: nat) { x % 2 == 1 }

  /** x | y */
  function Or(x: nat, y: nat): nat
    decreases x + y
  {
    if x == 0 && y == 0 then 0 else Digit(Odd(x) || Odd(y)) + 2 * Or(x / 2, y / 2)
  }

  /** x & y */
  function And(x: nat, y: nat): nat
    decreases x + y
  {
    if x == 0 && y == 0 then 0 else Digit(Odd(x) && Odd(y)) + 2 * And(x / 2, y / 2)
  }

  /** x & ~y */
  function AndNot(x: nat, y: nat): nat
    decreases x + y
  {
    if x == 0 && y == 0 then 0 else Digit(Odd(x) && !Odd(y)) + 2 * AndNot(x / 2, y / 2)
  }

  /** Whether bit `b` of `x` is set. */
  predicate Bit(x: nat, b: nat)
    decreases b
  {
    if b == 0 then Odd(x) else Bit(x / 2, b - 1)
  }

  lemma {:induction false} ZeroBits(b: nat)
    ensures !Bit(0, b)
  {
    if b > 0 {
      ZeroBits(b - 1);
    }
  }

  lemma LowBit(on: bool, high: nat)
    ensures Odd(Digit(on) + 2 * high) <==> on
    ensures (Digit(on) + 2 * high) / 2 == high
  {
  }

  lemma {:induction false} OrBit(x: nat, y: nat, b: nat)
    ensures Bit(Or(x, y), b) <==> Bit(x, b) || Bit(y, b)
    decreases b
  {
    if x == 0 && y == 0 {
      ZeroBits(b);
    } else {
      LowBit(Odd(x) || Odd(y), Or(x / 2, y / 2));
      if b > 0 {
        OrBit(x / 2, y / 2, b - 1);
      }
    }
  }

  lemma {:induction false} AndBit(x: nat, y: nat, b: nat)
    ensures Bit(And(x, y), b) <==> Bit(x, b) && Bit(y, b)
    decreases b
  {
    if x == 0 && y == 0 {
      ZeroBits(b);
    } else {
      LowBit(Odd(x) && Odd(y), And(x / 2, y / 2));
      if b > 0 {
        AndBit(x / 2, y / 2, b - 1);
      }
    }
  }

  lemma {:induction false} AndNotBit(x: nat, y: nat, b: nat)
    ensures Bit(AndNot(x, y), b) <==> Bit(x, b) && !Bit(y, b)
    decreases b
  {
    if x == 0 && y == 0 {
      ZeroBits(b);
    } else {
      LowBit(Odd(x) && !Odd(y), AndNot(x / 2, y / 2));
      if b > 0 {
        AndNotBit(x / 2, y / 2, b - 1);
      }
    }
  }

  /** A number is its bits. */
  lemma {:induction false} SameBits(x: nat, y: nat)
    requires forall b: nat :: Bit(x, b) <==> Bit(y, b)
    ensures x == y
    decreases x + y
  {
    assert Bit(x, 0) <==> Bit(y, 0);
    if x != 0 || y != 0 {
      forall b: nat
        ensures Bit(x / 2, b) <==> Bit(y / 2, b)
      {
        assert Bit(x, b + 1) <==> Bit(y, b + 1);
      }
      SameBits(x / 2, y / 2);
    }
  }

  /** The test that every OR loop makes on each value. */
  predicate Within(x: nat, mask: nat) { AndNot(x, mask) == 0 }

  lemma WithinMask(x: nat, mask: nat, b: nat)
    requires Within(x, mask) && Bit(x, b)
    ensures Bit(mask, b)
  {
  }

  lemma BitsOfMask(x: nat, mask: nat)
    requires forall b: nat :: Bit(x, b) ==> Bit(mask, b)
    ensures Within(x, mask)
  {
    forall b: nat
      ensures Bit(AndNot(x, mask), b) <==> Bit(0, b)
    {
      AndNotBit(x, mask, b);
      ZeroBits(b);
    }
    SameBits(AndNot(x, mask), 0);
  }

  /** A value passes exactly when each of its bits is a bit of the mask. */
  lemma WithinIsSubset(x: nat, mask: nat)
    ensures Within(x, mask) ==> forall b: nat :: Bit(x, b) ==> Bit(mask, b)
    ensures (forall b: nat :: Bit(x, b) ==> Bit(mask, b)) ==> Within(x, mask)
  {
    if Within(x, mask) {
      forall b: nat | Bit(x, b)
        ensures Bit(mask, b)
      {
        WithinMask(x, mask, b);
      }
    }
    if forall b: nat :: Bit(x, b) ==> Bit(mask, b) {
      BitsOfMask(x, mask);
    }
  }

  // ---------- Lists of values ----------

  predicate AllWithin(values: seq<nat>, mask: nat) { forall x :: x in values ==> Within(x, mask) }

  /** The OR of all values. */
  function OrAll(values: seq<nat>): nat {
    if values == [] then 0 else Or(OrAll(values[..|values| - 1]), values[|values| - 1])
  }

  /** A bit is set in the OR exactly when some value has it. */
  lemma {:induction false} OrAllBit(values: seq<nat>, b: nat)
    ensures Bit(OrAll(values), b) <==> exists x :: x in values && Bit(x, b)
  {
    if values == [] {
      ZeroBits(b);
    } else {
      var init, last := values[..|values| - 1], values[|values| - 1];
      OrAllBit(init, b);
      OrBit(OrAll(init), last, b);
      assert last in values && forall x :: x in values <==> x in init || x == last;
    }
  }

  /** The OR depends only on which values occur: not on their order, nor on how often they occur. */
  lemma OrAllOfSameValues(u: seq<nat>, w: seq<nat>)
    requires forall x :: x in u <==> x in w
    ensures OrAll(u) == OrAll(w)
  {
    forall b: nat
      ensures Bit(OrAll(u), b) <==> Bit(OrAll(w), b)
    {
      OrAllBit(u, b);
      OrAllBit(w, b);
    }
    SameBits(OrAll(u), OrAll(w));
  }

  /** The masking that follows the OR loop changes nothing. */
  lemma OrAllMasked(values: seq<nat>, mask: nat)
    requires AllWithin(values, mask)
    ensures And(OrAll(values), mask) == OrAll(values)
  {
    forall b: nat
      ensures Bit(And(OrAll(values), mask), b) <==> Bit(OrAll(values), b)
    {
      AndBit(OrAll(values), mask, b);
      OrAllBit(values, b);
      if x :| x in values && Bit(x, b) {
        WithinMask(x, mask, b);
      }
    }
    SameBits(And(OrAll(values), mask), OrAll(values));
  }
}
