// Rounding in settlement: what an order froze covers all that its fills take and what its end
// gives back.
module Settlement {
  import opened Wrappers
  import opened Multiples
  import opened OrderStatus
  import opened Freeze

  datatype Fill = Fill(price: int, quantity: int)

  function FilledBy(fills: seq<Fill>): int {
    if fills == [] then 0 else FilledBy(fills[..|fills| - 1]) + fills[|fills| - 1].quantity
  }

  // What a fill is worth in the frozen asset, before rounding.
  function Worth(side: Side, f: Fill): int {
    if side == Buy then f.price * f.quantity else Amount(f.quantity)
  }

  function Value(side: Side, fills: seq<Fill>): int {
    if fills == [] then 0 else Value(side, fills[..|fills| - 1]) + Worth(side, fills[|fills| - 1])
  }

  // What the fills take from the frozen amount: each rounded down.
  function Consumed(unit: Unit, side: Side, fills: seq<Fill>): int {
    if fills == [] then 0
    else Consumed(unit, side, fills[..|fills| - 1]) + RoundDown(unit, Worth(side, fills[|fills| - 1]))
  }

  // A sell order, or a buy order with a limit price that froze its whole value; fills of positive
  // size at the limit or better, together no more than the order.
  ghost predicate Settles(o: Order, fills: seq<Fill>) {
    && o.side != NoSide && o.quantity > 0
    && (o.side == Buy ==> o.price.Some? && o.price.value > 0
                          && (o.frozenAmount == None || o.frozenAmount == Some(o.price.value * o.quantity)))
    && (forall i :: 0 <= i < |fills| ==> FillFits(o, fills[i]))
    && FilledBy(fills) <= o.quantity
  }

  ghost predicate FillFits(o: Order, f: Fill) {
    f.quantity > 0 && f.price > 0 && (o.side == Buy ==> o.price.Some? && f.price <= o.price.value)
  }

  // The worth of some quantity of the order at its own price.
  function AtLimit(o: Order, quantity: int): int {
    if o.side == Buy && o.price.Some? then o.price.value * quantity else Amount(quantity)
  }

  function Locked(unit: Unit, o: Order): int { RoundUp(unit, AtLimit(o, o.quantity)) }

  // The unrounded amount that the end of the order releases.
  function Remainder(o: Order, filled: int): int {
    var left := if o.quantity - filled < 0 then 0 else o.quantity - filled;
    if left == 0 || o.quantity <= 0 then 0
    else if o.side == Buy && o.frozenAmount.Some? then DivRound(o.frozenAmount.value * left, o.quantity)
    else AtLimit(o, left)
  }

  function Released(unit: Unit, o: Order, filled: int): int { RoundDown(unit, Remainder(o, filled)) }

  // These are what placing the order locks and what ending it releases.
  lemma LockedAndReleased(rules: Rules, o: Order, fills: seq<Fill>)
    requires Settles(o, fills) && rules.pair(o.symbol).Some?
    ensures var asset := if o.side == Buy then rules.pair(o.symbol).value.quote else rules.pair(o.symbol).value.base;
            var unit := rules.unit(asset);
            var freeze := ComputeFreeze(rules, o.side, o.symbol, o.price, o.quantity, o.frozenAmount);
            var left := RemainingFreeze(rules, o.(filled := FilledBy(fills)));
            && freeze.Some? && freeze.value.asset == asset && RoundUp(unit, freeze.value.amount) == Locked(unit, o)
            && left.Some? && (left.value.asset == asset || left.value.amount == 0)
            && RoundDown(unit, left.value.amount) == Released(unit, o, FilledBy(fills))
  {
  }

  lemma Positive(a: int, b: int)
    requires a > 0 && b > 0
    ensures a * b > 0
  {
  }

  lemma {:induction false} TermsOfConsumed(unit: Unit, o: Order, fills: seq<Fill>)
    requires forall i :: 0 <= i < |fills| ==> FillFits(o, fills[i])
    ensures Consumed(unit, o.side, fills) % unit == 0
    ensures Consumed(unit, o.side, fills) <= Value(o.side, fills) <= Consumed(unit, o.side, fills) + |fills| * unit
    ensures 0 <= FilledBy(fills)
    ensures o.side == Buy ==> o.price.Some? || fills == []
    ensures Value(o.side, fills) <= AtLimit(o, FilledBy(fills))
  {
    if fills == [] {
      assert 0 * unit == 0;
      assert AtLimit(o, 0) == 0;
    } else {
      var n := |fills| - 1;
      var f := fills[n];
      assert forall i :: 0 <= i < n ==> fills[..n][i] == fills[i];
      TermsOfConsumed(unit, o, fills[..n]);
      assert FillFits(o, f);
      WorthAtLimit(o, f, FilledBy(fills[..n]));
      FloorIs(unit, Worth(o.side, f));
      SumOfMultiples(unit, Consumed(unit, o.side, fills[..n]), RoundDown(unit, Worth(o.side, f)));
      assert (n + 1) * unit == n * unit + unit;
    }
  }

  lemma WorthAtLimit(o: Order, f: Fill, before: int)
    requires FillFits(o, f)
    ensures 0 <= Worth(o.side, f)
    ensures AtLimit(o, before) + Worth(o.side, f) <= AtLimit(o, before + f.quantity)
  {
  }

  // The division gives the exact value rounded to the division grid.
  lemma DivisionIsNear(n: int, d: int, b: int)
    requires d > 0 && b >= 0 && n == d * b
    ensures var r := DivRound(n, d);
            r % DIVISION_GRID == 0 && r >= 0 && 2 * r <= 2 * b + DIVISION_GRID && 2 * b < 2 * r + DIVISION_GRID
  {
    var g := DIVISION_GRID;
    var step := d * g;
    ProductGrows(d, b, 0);
    var h := (2 * n + step) / (2 * step);
    var r := h * g;
    MultipleHasNoRest(g, h);
    assert 2 * step * h <= 2 * n + step < 2 * step * h + 2 * step;
    assert 2 * step * h == d * (2 * r) by { assert 2 * (d * g) * h == d * (2 * (h * g)); }
    assert 2 * n + step == d * (2 * b + g);
    assert 2 * step == d * (2 * g);
    assert d * (2 * r) + d * (2 * g) == d * (2 * r + 2 * g);
    assert d * (2 * b + g + 1) == d * (2 * b + g) + d;
    if 2 * r > 2 * b + g { ProductGrows(d, 2 * r, 2 * b + g + 1); }
    if 2 * b + g >= 2 * r + 2 * g { ProductGrows(d, 2 * b + g, 2 * r + 2 * g); }
  }

  // The remainder is near its exact value, and not above the next booked amount.
  lemma RemainderIsNear(unit: Unit, o: Order, fills: seq<Fill>)
    requires Settles(o, fills) && unit % DIVISION_GRID == 0
    ensures var r, b := Remainder(o, FilledBy(fills)), AtLimit(o, o.quantity - FilledBy(fills));
            && 0 <= b && 0 <= r <= Ceil(unit, b) && 2 * b <= 2 * r + DIVISION_GRID
  {
    var left := o.quantity - FilledBy(fills);
    var r, b := Remainder(o, FilledBy(fills)), AtLimit(o, left);
    if o.side == Buy { ProductGrows(o.price.value, left, 0); }
    CeilIs(unit, b);
    if o.side == Buy && o.frozenAmount.Some? && left > 0 {
      DividedIsNear(unit, o.price.value, o.quantity, left);
    }
  }

  lemma DividedIsNear(unit: Unit, price: int, quantity: int, left: int)
    requires price > 0 && quantity > 0 && left > 0 && unit % DIVISION_GRID == 0
    ensures var r, b := DivRound((price * quantity) * left, quantity), price * left;
            0 <= r <= Ceil(unit, b) && 2 * b <= 2 * r + DIVISION_GRID
  {
    var b := price * left;
    Positive(price, left);
    assert (price * quantity) * left == quantity * b;
    DivisionIsNear((price * quantity) * left, quantity, b);
    NotAboveCeil(unit, DivRound((price * quantity) * left, quantity), b);
  }

  lemma NotAboveCeil(unit: Unit, r: int, b: int)
    requires unit % DIVISION_GRID == 0 && r % DIVISION_GRID == 0 && 2 * r <= 2 * b + DIVISION_GRID
    ensures r <= Ceil(unit, b)
  {
    CeilIs(unit, b);
    MultipleOfMultiple(DIVISION_GRID, unit, Ceil(unit, b));
    if r > Ceil(unit, b) { MultiplesApart(DIVISION_GRID, Ceil(unit, b), r); }
  }

  lemma SplitAtLimit(o: Order, filled: int)
    ensures AtLimit(o, filled) + AtLimit(o, o.quantity - filled) == AtLimit(o, o.quantity)
  {
  }

  // For any fills at the limit or better and one release of the rest, what was locked covers all
  // that is consumed and released, although the release goes through a rounded division.
  lemma LockCoversSettlement(unit: Unit, o: Order, fills: seq<Fill>)
    requires Settles(o, fills) && unit % DIVISION_GRID == 0
    ensures Consumed(unit, o.side, fills) + Released(unit, o, FilledBy(fills)) <= Locked(unit, o)
    ensures Released(unit, o, FilledBy(fills)) >= 0
  {
    var filled := FilledBy(fills);
    var c, r, b := Consumed(unit, o.side, fills), Remainder(o, filled), AtLimit(o, o.quantity - filled);
    TermsOfConsumed(unit, o, fills);
    RemainderIsNear(unit, o, fills);
    SplitAtLimit(o, filled);
    var whole := AtLimit(o, o.quantity);
    CeilIs(unit, whole);
    // What the lock leaves beside the consumption is booked in whole units and at least b.
    var beside := Ceil(unit, whole) - c;
    NegatedMultiple(unit, c);
    SumOfMultiples(unit, Ceil(unit, whole), -c);
    CeilIsSmallest(unit, beside, b);
    FloorIs(unit, r);
    if o.side == Buy { Positive(o.price.value, o.quantity); }
  }

  // What better prices than the limit save.
  function Improvement(o: Order, fills: seq<Fill>): int {
    AtLimit(o, FilledBy(fills)) - Value(o.side, fills)
  }

  // What stays frozen at the end is at most the price improvement and fewer than n + 3 units for
  // n fills.
  lemma DustIsSmall(unit: Unit, o: Order, fills: seq<Fill>)
    requires Settles(o, fills) && unit % DIVISION_GRID == 0
    ensures Locked(unit, o) - Consumed(unit, o.side, fills) - Released(unit, o, FilledBy(fills))
            < Improvement(o, fills) + (|fills| + 3) * unit
    ensures 0 <= Improvement(o, fills)
  {
    var filled := FilledBy(fills);
    var c, r, b := Consumed(unit, o.side, fills), Remainder(o, filled), AtLimit(o, o.quantity - filled);
    TermsOfConsumed(unit, o, fills);
    RemainderIsNear(unit, o, fills);
    SplitAtLimit(o, filled);
    CeilIs(unit, AtLimit(o, o.quantity));
    FloorIs(unit, r);
    assert (|fills| + 3) * unit == |fills| * unit + 3 * unit;
    if o.side == Buy { Positive(o.price.value, o.quantity); }
  }

  ghost predicate AlwaysCovered(unit: Unit) {
    forall o: Order, fills: seq<Fill> {:trigger Settles(o, fills)} ::
      Settles(o, fills) ==> Consumed(unit, o.side, fills) + Released(unit, o, FilledBy(fills)) <= Locked(unit, o)
  }

  // The bound holds for all orders exactly when an asset is booked with no more digits than the
  // division keeps.
  lemma CoveredExactlyWhen(unit: Unit)
    requires unit % DIVISION_GRID == 0 || DIVISION_GRID % unit == 0
    ensures AlwaysCovered(unit) <==> unit % DIVISION_GRID == 0
  {
    if unit % DIVISION_GRID == 0 {
      forall o: Order, fills: seq<Fill> | Settles(o, fills)
        ensures Consumed(unit, o.side, fills) + Released(unit, o, FilledBy(fills)) <= Locked(unit, o)
      {
        LockCoversSettlement(unit, o, fills);
      }
    } else {
      FineUnitsReleaseTooMuch(unit);
    }
  }

  // Half a step of the division grid, released in full, is released twice.
  lemma FineUnitsReleaseTooMuch(unit: Unit)
    requires DIVISION_GRID % unit == 0 && unit % DIVISION_GRID != 0
    ensures !AlwaysCovered(unit)
  {
    var half := DIVISION_GRID / 2;
    var o := Order(1, 1, "", "", Buy, Some(50), Some(50 * ONE), ONE, 0, Pending, 0);
    var fills: seq<Fill> := [];
    assert Settles(o, fills);
    assert AtLimit(o, o.quantity) == half;
    assert Remainder(o, 0) == DIVISION_GRID;
    FloorIs(unit, DIVISION_GRID);
    FloorIsLargest(unit, DIVISION_GRID, DIVISION_GRID);
    CeilIs(unit, half);
    if Ceil(unit, half) >= DIVISION_GRID {
      if unit > half { MultipleBelow(unit); }
    }
  }

  lemma MultipleBelow(unit: Unit)
    requires DIVISION_GRID % unit == 0 && unit % DIVISION_GRID != 0
    ensures 2 * unit <= DIVISION_GRID
  {
  }
}
