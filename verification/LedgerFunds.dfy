// Many open orders of many users over one ledger: when what is frozen covers what all of them
// still need.
module LedgerFunds {
  import opened Wrappers
  import opened Multiples
  import opened Sums
  import opened OrderStatus
  import opened Freeze
  import opened Settlement
  import opened Ledger
  import G = LedgerGuards
  import L = LedgerRuns

  // An order as it was placed, the fills that matching makes of it and how many of them have been
  // booked, and what it locked beyond all that its fills take and has not given back yet.
  datatype Plan = Plan(order: Order, fills: seq<Fill>, done: nat, spare: nat)

  type Plans = map<nat, Plan>

  function AssetOf(rules: Rules, o: Order): string {
    match rules.pair(o.symbol)
    case None => ""
    case Some(pair) => if o.side == Buy then pair.quote else pair.base
  }

  function KeyOf(rules: Rules, o: Order): (nat, string) { (o.user, AssetOf(rules, o)) }

  function FreezeOf(rules: Rules, o: Order): Option<FreezeSpec> {
    ComputeFreeze(rules, o.side, o.symbol, o.price, o.quantity, o.frozenAmount)
  }

  // What placing the order locks.
  function LockOf(rules: Rules, o: Order): int {
    match FreezeOf(rules, o)
    case None => 0
    case Some(spec) => RoundUp(rules.unit(spec.asset), spec.amount)
  }

  // What the end of the order asks to be given back, by the filled quantity stored with it.
  function GivesBack(rules: Rules, o: Order): int {
    match RemainingFreeze(rules, o)
    case None => 0
    case Some(spec) => if spec.amount == 0 then 0 else RoundDown(rules.unit(spec.asset), spec.amount)
  }

  // All that the fills take.
  function Taken(rules: Rules, o: Order, fills: seq<Fill>): int {
    Consumed(rules.unit(AssetOf(rules, o)), o.side, fills)
  }

  ghost predicate Real(fills: seq<Fill>) {
    forall i :: 0 <= i < |fills| ==> fills[i].price > 0 && fills[i].quantity > 0
  }

  ghost predicate Planned(rules: Rules, p: Plan) {
    FreezeOf(rules, p.order).Some? && Real(p.fills) && p.done <= |p.fills|
  }

  // What must be frozen for the order: all that its other fills will take, and what it has spare.
  function Due(unit: Unit, p: Plan): int
    requires p.done <= |p.fills|
  {
    Consumed(unit, p.order.side, p.fills) - Consumed(unit, p.order.side, p.fills[..p.done]) + p.spare
  }

  ghost function Claim(rules: Rules, key: (nat, string)): (nat, Plan) -> int {
    (id: nat, p: Plan) =>
      if KeyOf(rules, p.order) == key && p.done <= |p.fills| then Due(rules.unit(key.1), p) else 0
  }

  ghost function Claims(rules: Rules, plans: Plans, key: (nat, string)): int { Sum(plans, Claim(rules, key)) }

  function FrozenOf(a: Accounts, key: (nat, string)): int { if key in a then a[key].frozen else 0 }

  ghost predicate AllPlanned(rules: Rules, plans: Plans) { forall id :: id in plans ==> Planned(rules, plans[id]) }

  // The accounts of all orders exist, and nothing in them is negative.
  ghost predicate Kept(rules: Rules, a: Accounts, plans: Plans) {
    && NonNegative(a) && AllPlanned(rules, plans)
    && forall id :: id in plans ==> KeyOf(rules, plans[id].order) in a
  }

  ghost predicate Covered(rules: Rules, a: Accounts, plans: Plans) {
    forall key: (nat, string) :: Claims(rules, plans, key) <= FrozenOf(a, key)
  }

  // What is frozen is what is claimed, to the last unit.
  ghost predicate Exact(rules: Rules, a: Accounts, plans: Plans) {
    && Kept(rules, a, plans)
    && forall key: (nat, string) :: Claims(rules, plans, key) == FrozenOf(a, key)
  }

  // ---- One order ----

  lemma AmountsArePositive(rules: Rules, o: Order)
    requires FreezeOf(rules, o).Some?
    ensures FreezeOf(rules, o).value.asset == AssetOf(rules, o) && o.quantity > 0
    ensures FreezeOf(rules, o).value.amount > 0 && LockOf(rules, o) > 0
  {
    if o.side == Buy && o.frozenAmount == None { Positive(o.price.value, o.quantity); }
    CeilIs(rules.unit(AssetOf(rules, o)), FreezeOf(rules, o).value.amount);
  }

  lemma DividedIsPositive(n: int, d: int)
    requires n >= 0 && d > 0
    ensures DivRound(n, d) >= 0
  {
    var step := d * DIVISION_GRID;
    ProductGrows(DIVISION_GRID, (2 * n + step) / (2 * step), 0);
  }

  lemma RemainderIsPositive(rules: Rules, o: Order)
    requires FreezeOf(rules, o).Some?
    ensures var spec := RemainingFreeze(rules, o);
            && spec.Some? && spec.value.amount >= 0 && (spec.value.amount == 0 || spec.value.asset == AssetOf(rules, o))
    ensures GivesBack(rules, o) >= 0
  {
    AmountsArePositive(rules, o);
    var left := if o.quantity - o.filled < 0 then 0 else o.quantity - o.filled;
    if left > 0 && o.side == Buy {
      if o.frozenAmount.Some? {
        Positive(o.frozenAmount.value, left);
        DividedIsPositive(o.frozenAmount.value * left, o.quantity);
      } else {
        Positive(o.price.value, left);
      }
    }
    var spec := RemainingFreeze(rules, o).value;
    FloorIs(rules.unit(spec.asset), spec.amount);
  }

  lemma WorthIsPositive(unit: Unit, side: Side, f: Fill)
    requires f.price > 0 && f.quantity > 0
    ensures RoundDown(unit, Worth(side, f)) >= 0
  {
    Positive(f.price, f.quantity);
    FloorIs(unit, Worth(side, f));
  }

  lemma {:induction false} ConsumedGrows(unit: Unit, side: Side, fills: seq<Fill>, k: nat)
    requires k <= |fills| && Real(fills)
    ensures 0 <= Consumed(unit, side, fills[..k]) <= Consumed(unit, side, fills)
    decreases |fills|
  {
    if fills != [] {
      var n := |fills| - 1;
      WorthIsPositive(unit, side, fills[n]);
      assert forall i :: 0 <= i < n ==> fills[..n][i] == fills[i];
      if k <= n {
        ConsumedGrows(unit, side, fills[..n], k);
        assert fills[..n][..k] == fills[..k];
      } else {
        ConsumedGrows(unit, side, fills[..n], n);
        assert fills[..k] == fills && fills[..n][..n] == fills[..n];
      }
    }
  }

  // The next fill takes its part of what is due.
  lemma NextFill(unit: Unit, p: Plan)
    requires Real(p.fills) && p.done < |p.fills|
    ensures Due(unit, p) - Due(unit, p.(done := p.done + 1)) ==
              RoundDown(unit, Worth(p.order.side, p.fills[p.done])) >= 0
  {
    var f := p.fills[p.done];
    WorthIsPositive(unit, p.order.side, f);
    assert p.fills[..p.done + 1][..p.done] == p.fills[..p.done] && p.fills[..p.done + 1][p.done] == f;
  }

  // ---- All plans ----

  lemma ClaimsAreSums(rules: Rules, plans: Plans, key: (nat, string))
    requires AllPlanned(rules, plans)
    ensures Claims(rules, plans, key) >= 0
    ensures forall id :: id in plans && KeyOf(rules, plans[id].order) == key ==>
              plans[id].spare <= Due(rules.unit(key.1), plans[id]) <= Claims(rules, plans, key)
  {
    forall id | id in plans && KeyOf(rules, plans[id].order) == key
      ensures plans[id].spare <= Due(rules.unit(key.1), plans[id]) == Claim(rules, key)(id, plans[id])
    {
      assert Planned(rules, plans[id]);
      ConsumedGrows(rules.unit(key.1), plans[id].order.side, plans[id].fills, plans[id].done);
    }
    SumBounds(plans, Claim(rules, key));
  }

  // Another plan for the same order moves the claims on its account only.
  lemma ClaimsMove(rules: Rules, plans: Plans, id: nat, p: Plan, key: (nat, string))
    requires id in plans && p.order == plans[id].order && Planned(rules, p) && Planned(rules, plans[id])
    ensures Claims(rules, plans[id := p], key) == Claims(rules, plans, key) +
              if KeyOf(rules, p.order) == key
              then Due(rules.unit(key.1), p) - Due(rules.unit(key.1), plans[id]) else 0
  {
    SumUpdate(plans, id, p, Claim(rules, key));
  }

  lemma NewClaim(rules: Rules, plans: Plans, id: nat, p: Plan, key: (nat, string))
    requires id !in plans && Planned(rules, p)
    ensures Claims(rules, plans[id := p], key) ==
            Claims(rules, plans, key) + if KeyOf(rules, p.order) == key then Due(rules.unit(key.1), p) else 0
  {
    SumUpdate(plans, id, p, Claim(rules, key));
  }

  // ---- Fills ----

  function Booked(plans: Plans, id: nat): Plans {
    if id in plans then plans[id := plans[id].(done := plans[id].done + 1)] else plans
  }

  ghost predicate NextIs(rules: Rules, plans: Plans, id: nat, pair: Pair, f: Fill) {
    && id in plans && plans[id].done < |plans[id].fills| && plans[id].fills[plans[id].done] == f
    && rules.pair(plans[id].order.symbol) == Some(pair)
  }

  lemma TakeIsExact(rules: Rules, a: Accounts, plans: Plans, id: nat) returns (after: Accounts)
    requires Exact(rules, a, plans) && id in plans && plans[id].done < |plans[id].fills|
    ensures var p := plans[id]; var key := KeyOf(rules, p.order);
            ConsumeFrozen(a, p.order.user, key.1, RoundDown(rules.unit(key.1), Worth(p.order.side, p.fills[p.done])))
              == Ok(after)
    ensures Exact(rules, after, Booked(plans, id))
  {
    var p := plans[id];
    var p' := p.(done := p.done + 1);
    var key, plans' := KeyOf(rules, p.order), plans[id := p'];
    var amount := RoundDown(rules.unit(key.1), Worth(p.order.side, p.fills[p.done]));
    assert Planned(rules, p);
    NextFill(rules.unit(key.1), p);
    assert AllPlanned(rules, plans');
    ClaimsMove(rules, plans, id, p', key);
    ClaimsAreSums(rules, plans', key);
    assert amount <= FrozenOf(a, key);
    after := ConsumeFrozen(a, p.order.user, key.1, amount).value;
    forall k: (nat, string) ensures Claims(rules, plans', k) == FrozenOf(after, k) {
      ClaimsMove(rules, plans, id, p', k);
    }
  }

  // Whatever is credited, nothing that is frozen changes.
  lemma CreditIsExact(rules: Rules, a: Accounts, plans: Plans, user: nat, asset: string, delta: int)
    requires Exact(rules, a, plans) && AdjustBalance(a, user, asset, delta).Ok?
    ensures Exact(rules, AdjustBalance(a, user, asset, delta).value, plans)
  {
    var after := AdjustBalance(a, user, asset, delta).value;
    assert forall k: (nat, string) :: FrozenOf(after, k) == FrozenOf(a, k);
  }

  lemma SideIsExact(rules: Rules, a: Accounts, plans: Plans, id: nat, pair: Pair, f: Fill) returns (after: Accounts)
    requires Exact(rules, a, plans) && NextIs(rules, plans, id, pair, f)
    ensures var o := plans[id].order;
            Settle(rules, a, o.user, o.side, pair, f.price * f.quantity, Amount(f.quantity)) == Ok(after)
    ensures Exact(rules, after, Booked(plans, id))
  {
    var o := plans[id].order;
    assert Planned(rules, plans[id]);
    Positive(f.price, f.quantity);
    var given := TakeIsExact(rules, a, plans, id);
    var asset := if o.side == Buy then pair.base else pair.quote;
    var v := if o.side == Buy then Amount(f.quantity) else f.price * f.quantity;
    FloorIs(rules.unit(asset), v);
    var delta := RoundDown(rules.unit(asset), v);
    CreditIsExact(rules, given, Booked(plans, id), o.user, asset, delta);
    after := AdjustBalance(given, o.user, asset, delta).value;
  }

  lemma StillNext(rules: Rules, plans: Plans, i: nat, j: nat, pair: Pair, f: Fill)
    requires i != j && NextIs(rules, plans, j, pair, f)
    ensures NextIs(rules, Booked(plans, i), j, pair, f) && Booked(plans, i)[j] == plans[j]
  {
  }

  lemma BothAreExact(rules: Rules, a: Accounts, plans: Plans, i: nat, j: nat, pair: Pair, f: Fill)
      returns (half: Accounts, both: Accounts)
    requires Exact(rules, a, plans) && i != j && NextIs(rules, plans, i, pair, f) && NextIs(rules, plans, j, pair, f)
    ensures var o, p := plans[i].order, plans[j].order;
            && Settle(rules, a, o.user, o.side, pair, f.price * f.quantity, Amount(f.quantity)) == Ok(half)
            && Settle(rules, half, p.user, p.side, pair, f.price * f.quantity, Amount(f.quantity)) == Ok(both)
    ensures Exact(rules, both, Booked(Booked(plans, i), j))
  {
    half := SideIsExact(rules, a, plans, i, pair, f);
    StillNext(rules, plans, i, j, pair, f);
    both := SideIsExact(rules, half, Booked(plans, i), j, pair, f);
  }

  // ---- Releases ----

  // What is given back comes out of what the order has spare.
  function Spent(plans: Plans, id: nat, amount: int): Plans {
    if id in plans && amount > 0
    then plans[id := plans[id].(spare := if amount < plans[id].spare then plans[id].spare - amount else 0)]
    else plans
  }

  // The order has what it gives back to spare, or nothing else is claimed from its account.
  ghost predicate Spares(rules: Rules, plans: Plans, id: nat, amount: int) {
    id in plans ==>
      amount <= plans[id].spare || Claims(rules, plans, KeyOf(rules, plans[id].order)) == plans[id].spare
  }

  function Freed(a: Accounts, key: (nat, string), amount: int): Accounts
    requires key in a
  {
    var given := if a[key].frozen < amount then a[key].frozen else amount;
    a[key := Account(a[key].balance + given, a[key].frozen - given)]
  }

  lemma ReleaseIs(rules: Rules, a: Accounts, o: Order)
    requires NonNegative(a) && FreezeOf(rules, o).Some? && KeyOf(rules, o) in a
    ensures ReleaseRemaining(rules, a, o) == Ok(Freed(a, KeyOf(rules, o), GivesBack(rules, o)))
    ensures GivesBack(rules, o) >= 0
  {
    RemainderIsPositive(rules, o);
    var key := KeyOf(rules, o);
    if GivesBack(rules, o) == 0 || a[key].frozen == 0 { assert a[key := a[key]] == a; }
  }

  lemma SpentClaims(rules: Rules, plans: Plans, id: nat, amount: nat, key: (nat, string))
    requires AllPlanned(rules, plans) && id in plans
    ensures AllPlanned(rules, Spent(plans, id, amount))
    ensures Claims(rules, Spent(plans, id, amount), key) == Claims(rules, plans, key) -
              if KeyOf(rules, plans[id].order) != key then 0
              else if amount < plans[id].spare then amount else plans[id].spare
  {
    var p := plans[id].(spare := if amount < plans[id].spare then plans[id].spare - amount else 0);
    assert Planned(rules, plans[id]) && Planned(rules, p);
    ClaimsMove(rules, plans, id, p, key);
    assert plans[id := p] == Spent(plans, id, amount) || plans[id := p] == plans;
  }

  // A release keeps what is claimed frozen exactly when the order has to spare what it gives back.
  lemma ReleaseKeepsExactlyWhen(rules: Rules, a: Accounts, plans: Plans, id: nat, amount: nat)
    requires Exact(rules, a, plans) && id in plans
    ensures var key := KeyOf(rules, plans[id].order);
            var after, plans' := Freed(a, key, amount), Spent(plans, id, amount);
            && Kept(rules, after, plans')
            && (Spares(rules, plans, id, amount) ==> Exact(rules, after, plans'))
            && (!Spares(rules, plans, id, amount) ==> FrozenOf(after, key) < Claims(rules, plans', key))
  {
    var key := KeyOf(rules, plans[id].order);
    var after, plans' := Freed(a, key, amount), Spent(plans, id, amount);
    ClaimsAreSums(rules, plans, key);
    SpentClaims(rules, plans, id, amount, key);
    if Spares(rules, plans, id, amount) {
      forall k: (nat, string) ensures Claims(rules, plans', k) == FrozenOf(after, k) {
        SpentClaims(rules, plans, id, amount, k);
      }
    }
  }

  // ---- The database ----

  // The ledger's order is the planned one, as far as placing it fixed it.
  ghost predicate Tracks(o: Order, p: Plan) {
    o == p.order.(filled := o.filled, status := o.status, version := o.version)
  }

  ghost predicate AllTracked(orders: map<nat, Order>, plans: Plans) {
    orders.Keys == plans.Keys && forall id :: id in plans ==> Tracks(orders[id], plans[id])
  }

  ghost predicate Funded(rules: Rules, db: DB, plans: Plans) {
    AllTracked(db.orders, plans) && Exact(rules, db.accounts, plans)
  }

  lemma TrackedAlike(rules: Rules, o: Order, p: Plan)
    requires Tracks(o, p)
    ensures KeyOf(rules, o) == KeyOf(rules, p.order) && FreezeOf(rules, o) == FreezeOf(rules, p.order)
  {
  }

  // Placed: an order, with the fills that matching will make of it.  Traded: any trade event.
  // Told: any match event.  Dropped: the reconciler rejects an order it takes for stale.  Beside:
  // what touches no frozen funds.
  datatype Move = Placed(id: nat, placement: Placement, fills: seq<Fill>)
                | Traded(trade: TradeApply)
                | Told(event: MatchApply)
                | Dropped(id: nat)
                | Beside(step: L.Step)

  function StepOf(move: Move): L.Step {
    match move
    case Placed(id, p, _) => L.Place(id, p)
    case Traded(t) => L.Trade(t)
    case Told(ev) => L.Event(ev)
    case Dropped(id) => L.RejectStale(id)
    case Beside(step) => step
  }

  function OrderOf(id: nat, p: Placement): Order {
    Order(id, p.user, p.client, p.symbol, p.side, p.price, p.frozenAmount, p.quantity, 0, Pending, 0)
  }

  // The placement is new and its user can pay for it.
  predicate Places(rules: Rules, db: DB, id: nat, p: Placement) {
    var o := OrderOf(id, p);
    && id !in db.orders && (p.user, p.client) !in db.clients && FreezeOf(rules, o).Some?
    && KeyOf(rules, o) in db.accounts && LockOf(rules, o) <= db.accounts[KeyOf(rules, o)].balance
  }

  // The trade is new, well-formed, and between known orders.
  predicate Books(rules: Rules, db: DB, t: TradeApply) {
    && 0 < t.tradeId <= MAX_TRADE_ID && t.tradeId !in db.trades && rules.pair(t.symbol).Some?
    && t.price.Some? && t.price.value > 0 && t.quantity.Some? && t.quantity.value > 0
    && t.maker in db.orders && t.taker in db.orders
  }

  // The event is a new cancellation of an order that has not ended otherwise.
  predicate Cancels(db: DB, ev: MatchApply) {
    && ev.eventType == ORDER_CANCELED && ev.Key() !in db.processed
    && ev.orderId in db.orders && db.orders[ev.orderId].symbol == ev.symbol
    && db.orders[ev.orderId].status != Filled && db.orders[ev.orderId].status != Rejected
  }

  predicate IsPending(db: DB, id: nat) { id in db.orders && db.orders[id].status == Pending }

  // Trades come as matching made them: each is the next fill of two orders, one of which pays in
  // the one asset of the pair and one in the other.
  ghost predicate May(rules: Rules, db: DB, plans: Plans, move: Move) {
    match move
    case Placed(id, p, fills) => Real(fills)
    case Traded(t) =>
      Books(rules, db, t) ==>
        var pair, f := rules.pair(t.symbol).value, Fill(t.price.value, t.quantity.value);
        && t.maker != t.taker && NextIs(rules, plans, t.maker, pair, f) && NextIs(rules, plans, t.taker, pair, f)
        && KeyOf(rules, plans[t.maker].order) != KeyOf(rules, plans[t.taker].order)
    case Told(_) => true
    case Dropped(_) => true
    case Beside(step) => step.AskCancel? || step.Resend? || step.Adjust?
  }

  // What a booked fill gives back: something only if the order counts as filled by then.
  function FillGives(rules: Rules, o: Order, quantity: int): int {
    if o.status == Filled then GivesBack(rules, G.FillOf(o, quantity)) else 0
  }

  // The order with the filled quantity that the event carries, if it carries one.
  function CanceledOrder(o: Order, ev: MatchApply): Order {
    o.(filled := if ev.filled.Some? then ev.filled.value else o.filled)
  }

  function PlansAfter(rules: Rules, db: DB, plans: Plans, move: Move): Plans {
    match move
    case Placed(id, p, fills) =>
      var o := OrderOf(id, p);
      var over := LockOf(rules, o) - Taken(rules, o, fills);
      if Places(rules, db, id, p) then plans[id := Plan(o, fills, 0, if over > 0 then over else 0)] else plans
    case Traded(t) =>
      if Books(rules, db, t)
      then Spent(Spent(Booked(Booked(plans, t.maker), t.taker),
                       t.maker, FillGives(rules, db.orders[t.maker], t.quantity.value)),
                 t.taker, FillGives(rules, db.orders[t.taker], t.quantity.value))
      else plans
    case Told(ev) =>
      if Cancels(db, ev) then Spent(plans, ev.orderId, GivesBack(rules, CanceledOrder(db.orders[ev.orderId], ev)))
      else plans
    case Dropped(id) => if IsPending(db, id) then Spent(plans, id, GivesBack(rules, db.orders[id])) else plans
    case Beside(_) => plans
  }

  // A placement locks at least what its fills will take, and no order gives back more than it has
  // to spare, by its plan and the filled quantity that is stored or comes with the event.
  ghost predicate Modest(rules: Rules, db: DB, plans: Plans, move: Move) {
    match move
    case Placed(id, p, fills) =>
      Places(rules, db, id, p) ==> Taken(rules, OrderOf(id, p), fills) <= LockOf(rules, OrderOf(id, p))
    case Traded(t) =>
      Books(rules, db, t) ==>
        var booked := Booked(Booked(plans, t.maker), t.taker);
        && Spares(rules, booked, t.maker, FillGives(rules, db.orders[t.maker], t.quantity.value))
        && Spares(rules, booked, t.taker, FillGives(rules, db.orders[t.taker], t.quantity.value))
    case Told(ev) =>
      Cancels(db, ev) ==> Spares(rules, plans, ev.orderId, GivesBack(rules, CanceledOrder(db.orders[ev.orderId], ev)))
    case Dropped(id) => IsPending(db, id) ==> Spares(rules, plans, id, GivesBack(rules, db.orders[id]))
    case Beside(_) => true
  }

  // ---- Placing ----

  lemma PlacesExactly(rules: Rules, db: DB, id: nat, p: Placement)
    ensures InsertPending(rules, db, id, p).Ok? <==> Places(rules, db, id, p)
    ensures Places(rules, db, id, p) ==>
              var o := OrderOf(id, p);
              var db', key := InsertPending(rules, db, id, p).value, KeyOf(rules, o);
              && db'.orders == db.orders[id := o]
              && db'.accounts == db.accounts[key := Account(db.accounts[key].balance - LockOf(rules, o),
                                                            db.accounts[key].frozen + LockOf(rules, o))]
  {
    if FreezeOf(rules, OrderOf(id, p)).Some? { AmountsArePositive(rules, OrderOf(id, p)); }
  }

  lemma PlannedClaims(rules: Rules, plans: Plans, id: nat, p: Plan, key: (nat, string))
    requires id !in plans && Planned(rules, p) && p.done == 0
    ensures Claims(rules, plans[id := p], key) ==
            Claims(rules, plans, key) +
              if KeyOf(rules, p.order) == key then Taken(rules, p.order, p.fills) + p.spare else 0
  {
    NewClaim(rules, plans, id, p, key);
    assert p.fills[..0] == [];
  }

  lemma LockKeepsExactlyWhen(rules: Rules, a: Accounts, after: Accounts, plans: Plans, id: nat, p: Plan)
    requires Exact(rules, a, plans) && id !in plans && Planned(rules, p) && p.done == 0
    requires var key := KeyOf(rules, p.order);
             && key in a && LockOf(rules, p.order) <= a[key].balance
             && after == a[key := Account(a[key].balance - LockOf(rules, p.order),
                                          a[key].frozen + LockOf(rules, p.order))]
    requires var over := LockOf(rules, p.order) - Taken(rules, p.order, p.fills);
             p.spare == if over > 0 then over else 0
    ensures Taken(rules, p.order, p.fills) <= LockOf(rules, p.order) ==> Exact(rules, after, plans[id := p])
    ensures Taken(rules, p.order, p.fills) > LockOf(rules, p.order) ==> !Covered(rules, after, plans[id := p])
  {
    var key := KeyOf(rules, p.order);
    AmountsArePositive(rules, p.order);
    PlannedClaims(rules, plans, id, p, key);
    if Taken(rules, p.order, p.fills) <= LockOf(rules, p.order) {
      forall k: (nat, string) ensures Claims(rules, plans[id := p], k) == FrozenOf(after, k) {
        PlannedClaims(rules, plans, id, p, k);
      }
    } else {
      assert Claims(rules, plans[id := p], key) > FrozenOf(after, key);
    }
  }

  // What a move leaves: the orders are tracked, and the cover holds to the last unit, or not at all.
  ghost predicate Leaves(rules: Rules, db: DB, plans: Plans, modest: bool) {
    && AllTracked(db.orders, plans)
    && (modest ==> Exact(rules, db.accounts, plans)) && (!modest ==> !Covered(rules, db.accounts, plans))
  }

  lemma PlacedNext(rules: Rules, db: DB, id: nat, p: Placement) returns (after: DB)
    ensures after == L.Next(rules, db, L.Place(id, p))
    ensures !Places(rules, db, id, p) ==> after == db
    ensures Places(rules, db, id, p) ==>
              var o := OrderOf(id, p);
              var key := KeyOf(rules, o);
              && after.orders == db.orders[id := o]
              && after.accounts == db.accounts[key := Account(db.accounts[key].balance - LockOf(rules, o),
                                                              db.accounts[key].frozen + LockOf(rules, o))]
  {
    PlacesExactly(rules, db, id, p);
    after := L.Next(rules, db, L.Place(id, p));
  }

  lemma PlacedLeaves(rules: Rules, db: DB, plans: Plans, id: nat, p: Placement, fills: seq<Fill>, after: DB)
    requires Funded(rules, db, plans) && Real(fills)
    requires !Places(rules, db, id, p) ==> after == db
    requires Places(rules, db, id, p) ==>
               var o := OrderOf(id, p);
               var key := KeyOf(rules, o);
               && after.orders == db.orders[id := o]
               && after.accounts == db.accounts[key := Account(db.accounts[key].balance - LockOf(rules, o),
                                                               db.accounts[key].frozen + LockOf(rules, o))]
    ensures var move := Placed(id, p, fills);
            Leaves(rules, after, PlansAfter(rules, db, plans, move), Modest(rules, db, plans, move))
  {
    if Places(rules, db, id, p) { NewPlanLeaves(rules, db, plans, OrderOf(id, p), fills, after); }
  }

  lemma NewPlanLeaves(rules: Rules, db: DB, plans: Plans, o: Order, fills: seq<Fill>, after: DB)
    requires Funded(rules, db, plans) && Real(fills) && o.id !in db.orders && FreezeOf(rules, o).Some?
    requires KeyOf(rules, o) in db.accounts && LockOf(rules, o) <= db.accounts[KeyOf(rules, o)].balance
    requires after.orders == db.orders[o.id := o]
    requires var key := KeyOf(rules, o);
             after.accounts == db.accounts[key := Account(db.accounts[key].balance - LockOf(rules, o),
                                                          db.accounts[key].frozen + LockOf(rules, o))]
    ensures var over := LockOf(rules, o) - Taken(rules, o, fills);
            Leaves(rules, after, plans[o.id := Plan(o, fills, 0, if over > 0 then over else 0)], over >= 0)
  {
    var over := LockOf(rules, o) - Taken(rules, o, fills);
    LockKeepsExactlyWhen(rules, db.accounts, after.accounts, plans, o.id,
                         Plan(o, fills, 0, if over > 0 then over else 0));
  }

  // ---- Ending ----

  lemma ReleaseLeaves(rules: Rules, db: DB, plans: Plans, id: nat, o: Order, amount: int)
    requires Funded(rules, db, plans) && id in plans && Tracks(o, plans[id]) && amount == GivesBack(rules, o)
    ensures ReleaseOrder(rules, db.(orders := db.orders[id := o]), id).Ok?
    ensures var after := ReleaseOrder(rules, db.(orders := db.orders[id := o]), id).value;
            Leaves(rules, after, Spent(plans, id, amount), Spares(rules, plans, id, amount))
  {
    var key := KeyOf(rules, o);
    assert Planned(rules, plans[id]);
    TrackedAlike(rules, o, plans[id]);
    ReleaseIs(rules, db.accounts, o);
    ReleaseKeepsExactlyWhen(rules, db.accounts, plans, id, amount);
  }

  lemma CancelReleases(rules: Rules, db: DB, ev: MatchApply) returns (noted: DB, o: Order)
    requires Cancels(db, ev)
    ensures noted == db.(processed := db.processed + {ev.Key()})
    ensures o == CanceledOrder(db.orders[ev.orderId], ev).(status := Canceled, version := o.version)
    ensures L.Attempt(rules, db, L.Event(ev)) ==
            ReleaseOrder(rules, noted.(orders := db.orders[ev.orderId := o]), ev.orderId)
  {
    noted := db.(processed := db.processed + {ev.Key()});
    var was := db.orders[ev.orderId];
    var moved := if was.status == Canceled then SetFilled(noted, ev.orderId, ev.filled)
                 else SetStatus(noted, ev.orderId, Canceled, ev.filled);
    assert was.status == Canceled || CanTransition(was.status, Canceled);
    o := moved.orders[ev.orderId];
    assert db.orders[ev.orderId := was] == db.orders;
    assert moved == noted.(orders := db.orders[ev.orderId := o]);
  }

  lemma CanceledLeaves(rules: Rules, db: DB, plans: Plans, ev: MatchApply)
    requires Funded(rules, db, plans) && Cancels(db, ev)
    ensures L.Attempt(rules, db, L.Event(ev)).Ok?
    ensures Leaves(rules, L.Next(rules, db, L.Event(ev)), PlansAfter(rules, db, plans, Told(ev)),
                   Modest(rules, db, plans, Told(ev)))
  {
    var was := db.orders[ev.orderId];
    var noted, o := CancelReleases(rules, db, ev);
    assert Tracks(was, plans[ev.orderId]);
    assert RemainingFreeze(rules, o) == RemainingFreeze(rules, CanceledOrder(was, ev));
    ReleaseLeaves(rules, noted, plans, ev.orderId, o, GivesBack(rules, CanceledOrder(was, ev)));
  }

  // Every other match event leaves all accounts as they are.
  lemma ToldIsQuiet(rules: Rules, db: DB, ev: MatchApply)
    requires !Cancels(db, ev)
    ensures L.Next(rules, db, L.Event(ev)).accounts == db.accounts
  {
  }

  lemma MovedIsTracked(rules: Rules, db: DB, plans: Plans, ev: MatchApply)
    requires AllTracked(db.orders, plans)
    ensures AllTracked(L.Next(rules, db, L.Event(ev)).orders, plans)
  {
    L.StepMoves(rules, db, L.Event(ev));
    L.EventsKeepOrders(rules, db, L.MatchMessage(ev));
    forall id | id in plans ensures Tracks(L.Next(rules, db, L.Event(ev)).orders[id], plans[id]) {
      assert Tracks(db.orders[id], plans[id]) && L.MovesOne(db.orders[id], L.Next(rules, db, L.Event(ev)).orders[id]);
    }
  }

  lemma ToldLeaves(rules: Rules, db: DB, plans: Plans, ev: MatchApply)
    requires Funded(rules, db, plans)
    ensures Leaves(rules, L.Next(rules, db, L.Event(ev)), PlansAfter(rules, db, plans, Told(ev)),
                   Modest(rules, db, plans, Told(ev)))
  {
    if Cancels(db, ev) {
      CanceledLeaves(rules, db, plans, ev);
    } else {
      ToldIsQuiet(rules, db, ev);
      MovedIsTracked(rules, db, plans, ev);
    }
  }

  lemma DroppedLeaves(rules: Rules, db: DB, plans: Plans, id: nat)
    requires Funded(rules, db, plans)
    ensures Leaves(rules, L.Next(rules, db, L.RejectStale(id)), PlansAfter(rules, db, plans, Dropped(id)),
                   Modest(rules, db, plans, Dropped(id)))
    ensures IsPending(db, id) ==> L.Attempt(rules, db, L.RejectStale(id)).Ok?
  {
    if IsPending(db, id) {
      var rejected := SetStatus(db, id, Rejected, None);
      var o := rejected.orders[id];
      assert Tracks(db.orders[id], plans[id]);
      assert RemainingFreeze(rules, o) == RemainingFreeze(rules, db.orders[id]);
      assert rejected == db.(orders := db.orders[id := o]);
      ReleaseLeaves(rules, db, plans, id, o, GivesBack(rules, db.orders[id]));
    }
  }

  // ---- Trading ----

  // A fill that completes the order asks for nothing back: nothing of it remains.
  lemma CompleteGivesNothing(rules: Rules, o: Order)
    requires o.filled == o.quantity
    ensures GivesBack(rules, o) == 0
  {
  }

  lemma FillIs(rules: Rules, db: DB, plans: Plans, id: nat, quantity: int)
    requires AllTracked(db.orders, plans) && Kept(rules, db.accounts, plans) && id in plans && quantity > 0
    ensures var o := db.orders[id];
            TradeFill(rules, db, id, quantity) ==
            Ok(db.(orders := db.orders[id := G.FillOf(o, quantity)],
                   accounts := Freed(db.accounts, KeyOf(rules, plans[id].order), FillGives(rules, o, quantity))))
    ensures FillGives(rules, db.orders[id], quantity) >= 0
  {
    var o := db.orders[id];
    var key := KeyOf(rules, plans[id].order);
    assert Planned(rules, plans[id]) && Tracks(o, plans[id]);
    TrackedAlike(rules, G.FillOf(o, quantity), plans[id]);
    ReleaseIs(rules, db.accounts, G.FillOf(o, quantity));
    if G.FillOf(o, quantity).filled == o.quantity { CompleteGivesNothing(rules, G.FillOf(o, quantity)); }
    assert db.accounts[key := db.accounts[key]] == db.accounts;
  }

  lemma SettledAsPlanned(rules: Rules, db: DB, plans: Plans, t: TradeApply, pair: Pair, half: Accounts, both: Accounts)
    requires AllTracked(db.orders, plans) && t.maker in plans && t.taker in plans
    requires t.price.Some? && t.quantity.Some?
    requires var o, p := plans[t.maker].order, plans[t.taker].order;
             var notional, quantity := t.price.value * t.quantity.value, Amount(t.quantity.value);
             && Settle(rules, db.accounts, o.user, o.side, pair, notional, quantity) == Ok(half)
             && Settle(rules, half, p.user, p.side, pair, notional, quantity) == Ok(both)
    ensures SettleBoth(rules, db, t, pair) == Ok(db.(accounts := both))
  {
    assert Tracks(db.orders[t.maker], plans[t.maker]) && Tracks(db.orders[t.taker], plans[t.taker]);
  }

  lemma BookedTracks(orders: map<nat, Order>, plans: Plans, id: nat)
    requires AllTracked(orders, plans) && id in plans
    ensures AllTracked(orders, Booked(plans, id))
  {
    forall i | i in Booked(plans, id) ensures Tracks(orders[i], Booked(plans, id)[i]) {
      assert Tracks(orders[i], plans[i]);
    }
  }

  lemma FilledTracks(orders: map<nat, Order>, plans: Plans, id: nat, quantity: int, amount: int)
    requires AllTracked(orders, plans) && id in plans
    ensures AllTracked(orders[id := G.FillOf(orders[id], quantity)], Spent(plans, id, amount))
  {
    var plans' := Spent(plans, id, amount);
    forall i | i in plans' ensures Tracks(orders[id := G.FillOf(orders[id], quantity)][i], plans'[i]) {
      assert Tracks(orders[i], plans[i]);
    }
  }

  // The two releases of a trade touch different accounts: the cover holds exactly when both spare
  // what they give back.
  lemma BothReleasesKeepExactlyWhen(rules: Rules, a: Accounts, plans: Plans, i: nat, j: nat, x: nat, y: nat)
    requires Exact(rules, a, plans) && i in plans && j in plans && i != j
    requires KeyOf(rules, plans[i].order) != KeyOf(rules, plans[j].order)
    ensures var k, l := KeyOf(rules, plans[i].order), KeyOf(rules, plans[j].order);
            && Kept(rules, Freed(a, k, x), Spent(plans, i, x)) && l in Freed(a, k, x)
            && var after, plans' := Freed(Freed(a, k, x), l, y), Spent(Spent(plans, i, x), j, y);
               if Spares(rules, plans, i, x) && Spares(rules, plans, j, y) then Exact(rules, after, plans')
               else !Covered(rules, after, plans')
  {
    var k, l := KeyOf(rules, plans[i].order), KeyOf(rules, plans[j].order);
    var half, plans1 := Freed(a, k, x), Spent(plans, i, x);
    var after, plans2 := Freed(half, l, y), Spent(plans1, j, y);
    ReleaseKeepsExactlyWhen(rules, a, plans, i, x);
    SpentClaims(rules, plans, i, x, l);
    SpentClaims(rules, plans1, j, y, k);
    assert plans1[j] == plans[j];
    if Spares(rules, plans, i, x) {
      assert Spares(rules, plans1, j, y) <==> Spares(rules, plans, j, y);
      ReleaseKeepsExactlyWhen(rules, half, plans1, j, y);
      if !Spares(rules, plans, j, y) { assert FrozenOf(after, l) < Claims(rules, plans2, l); }
    } else {
      assert FrozenOf(after, k) < Claims(rules, plans2, k);
    }
  }

  lemma TradeCommits(rules: Rules, db: DB, t: TradeApply, settled: DB, half: DB, last: DB)
    requires Books(rules, db, t)
    requires SettleBoth(rules, db.(trades := db.trades + {t.tradeId}), t, rules.pair(t.symbol).value) == Ok(settled)
    requires TradeFill(rules, settled, t.maker, t.quantity.value) == Ok(half)
    requires TradeFill(rules, half, t.taker, t.quantity.value) == Ok(last)
    ensures L.Attempt(rules, db, L.Trade(t)) == Ok(last)
  {
  }

  // The accounts once both sides of the trade are settled.
  lemma TradeSettles(rules: Rules, db: DB, plans: Plans, t: TradeApply) returns (both: Accounts)
    requires Funded(rules, db, plans) && May(rules, db, plans, Traded(t)) && Books(rules, db, t)
    ensures SettleBoth(rules, db.(trades := db.trades + {t.tradeId}), t, rules.pair(t.symbol).value)
            == Ok(db.(trades := db.trades + {t.tradeId}, accounts := both))
    ensures AllTracked(db.orders, Booked(Booked(plans, t.maker), t.taker))
    ensures Exact(rules, both, Booked(Booked(plans, t.maker), t.taker))
  {
    var pair, f := rules.pair(t.symbol).value, Fill(t.price.value, t.quantity.value);
    var half;
    half, both := BothAreExact(rules, db.accounts, plans, t.maker, t.taker, pair, f);
    SettledAsPlanned(rules, db.(trades := db.trades + {t.tradeId}), plans, t, pair, half, both);
    BookedTracks(db.orders, plans, t.maker);
    BookedTracks(db.orders, Booked(plans, t.maker), t.taker);
  }

  lemma TradedLeaves(rules: Rules, db: DB, plans: Plans, t: TradeApply)
    requires Funded(rules, db, plans) && May(rules, db, plans, Traded(t)) && Books(rules, db, t)
    ensures L.Attempt(rules, db, L.Trade(t)).Ok?
    ensures Leaves(rules, L.Next(rules, db, L.Trade(t)), PlansAfter(rules, db, plans, Traded(t)),
                   Modest(rules, db, plans, Traded(t)))
  {
    var i, j, q := t.maker, t.taker, t.quantity.value;
    var both := TradeSettles(rules, db, plans, t);
    var booked, settled := Booked(Booked(plans, i), j), db.(trades := db.trades + {t.tradeId}, accounts := both);
    var x, y := FillGives(rules, db.orders[i], q), FillGives(rules, db.orders[j], q);
    FillIs(rules, settled, booked, i, q);
    var half := TradeFill(rules, settled, i, q).value;
    FilledTracks(db.orders, booked, i, q, x);
    assert half.orders[j] == db.orders[j];
    assert AllPlanned(rules, booked);
    assert Tracks(db.orders[j], booked[j]) && Planned(rules, booked[j]);
    TrackedAlike(rules, G.FillOf(db.orders[j], q), booked[j]);
    RemainderIsPositive(rules, G.FillOf(db.orders[j], q));
    BothReleasesKeepExactlyWhen(rules, both, booked, i, j, x, y);
    assert Spent(booked, i, x)[j] == booked[j];
    FillIs(rules, half, Spent(booked, i, x), j, q);
    FilledTracks(half.orders, Spent(booked, i, x), j, q, y);
    TradeCommits(rules, db, t, settled, half, TradeFill(rules, half, j, q).value);
  }

  lemma IllTradeChangesNothing(rules: Rules, db: DB, t: TradeApply)
    requires !Books(rules, db, t)
    ensures L.Next(rules, db, L.Trade(t)) == db
  {
  }

  lemma BesideLeaves(rules: Rules, db: DB, plans: Plans, step: L.Step)
    requires Funded(rules, db, plans) && May(rules, db, plans, Beside(step))
    ensures Funded(rules, L.Next(rules, db, step), plans)
  {
    if step.Adjust? && AdjustBalance(db.accounts, step.user, step.asset, step.delta).Ok? {
      CreditIsExact(rules, db.accounts, plans, step.user, step.asset, step.delta);
    }
  }

  lemma MoveLeaves(rules: Rules, db: DB, plans: Plans, move: Move)
    requires Funded(rules, db, plans) && May(rules, db, plans, move)
    ensures Leaves(rules, L.Next(rules, db, StepOf(move)), PlansAfter(rules, db, plans, move),
                   Modest(rules, db, plans, move))
  {
    match move
    case Placed(id, p, fills) =>
      var after := PlacedNext(rules, db, id, p);
      PlacedLeaves(rules, db, plans, id, p, fills, after);
    case Traded(t) =>
      if Books(rules, db, t) { TradedLeaves(rules, db, plans, t); } else { IllTradeChangesNothing(rules, db, t); }
    case Told(ev) => ToldLeaves(rules, db, plans, ev);
    case Dropped(id) => DroppedLeaves(rules, db, plans, id);
    case Beside(step) => BesideLeaves(rules, db, plans, step);
  }

  // ---- Runs ----

  datatype State = State(db: DB, plans: Plans)

  const NOTHING_YET := State(DB(map[], {}, map[], {}, {}, []), map[])

  function AfterMove(rules: Rules, s: State, move: Move): State {
    State(L.Next(rules, s.db, StepOf(move)), PlansAfter(rules, s.db, s.plans, move))
  }

  function After(rules: Rules, moves: seq<Move>): State {
    if moves == [] then NOTHING_YET else AfterMove(rules, After(rules, moves[..|moves| - 1]), moves[|moves| - 1])
  }

  ghost predicate IsRun(rules: Rules, moves: seq<Move>) {
    moves != [] ==>
      var n := |moves| - 1;
      var before := After(rules, moves[..n]);
      IsRun(rules, moves[..n]) && May(rules, before.db, before.plans, moves[n])
  }

  ghost predicate AlwaysCovered(rules: Rules, moves: seq<Move>) {
    && (moves != [] ==> AlwaysCovered(rules, moves[..|moves| - 1]))
    && Covered(rules, After(rules, moves).db.accounts, After(rules, moves).plans)
  }

  ghost predicate AlwaysModest(rules: Rules, moves: seq<Move>) {
    moves != [] ==>
      var n := |moves| - 1;
      var before := After(rules, moves[..n]);
      AlwaysModest(rules, moves[..n]) && Modest(rules, before.db, before.plans, moves[n])
  }

  // Over every run of placements, trades, match events, rejections, deposits and withdrawals, in any
  // order and over any number of orders and users: what is frozen always covers what all orders
  // still need exactly when every placement locks what its fills will take and no order gives back
  // more than it has to spare.
  lemma {:induction false} FundedExactlyWhen(rules: Rules, moves: seq<Move>)
    requires IsRun(rules, moves)
    ensures AlwaysCovered(rules, moves) <==> AlwaysModest(rules, moves)
    ensures AlwaysModest(rules, moves) ==> Funded(rules, After(rules, moves).db, After(rules, moves).plans)
  {
    if moves == [] {
      assert forall key: (nat, string) :: Claims(rules, map[], key) == 0;
    } else {
      var n := |moves| - 1;
      FundedExactlyWhen(rules, moves[..n]);
      if AlwaysModest(rules, moves[..n]) {
        var before := After(rules, moves[..n]);
        MoveLeaves(rules, before.db, before.plans, moves[n]);
      }
    }
  }

  // So after every such run each trade that comes goes through, and so does each cancellation: no
  // order lacks funds because of the others.
  lemma NoOrderStarves(rules: Rules, moves: seq<Move>, move: Move)
    requires IsRun(rules, moves + [move]) && AlwaysModest(rules, moves)
    ensures var db := After(rules, moves).db;
            && (move.Traded? && Books(rules, db, move.trade) ==> L.Attempt(rules, db, StepOf(move)).Ok?)
            && (move.Told? && Cancels(db, move.event) ==> L.Attempt(rules, db, StepOf(move)).Ok?)
            && (move.Dropped? && IsPending(db, move.id) ==> L.Attempt(rules, db, StepOf(move)).Ok?)
  {
    assert (moves + [move])[..|moves|] == moves;
    FundedExactlyWhen(rules, moves);
    var before := After(rules, moves);
    if move.Traded? && Books(rules, before.db, move.trade) {
      TradedLeaves(rules, before.db, before.plans, move.trade);
    }
    if move.Told? && Cancels(before.db, move.event) {
      CanceledLeaves(rules, before.db, before.plans, move.event);
    }
    if move.Dropped? && IsPending(before.db, move.id) { DroppedLeaves(rules, before.db, before.plans, move.id); }
  }

  // ---- When an order has to spare what it gives back ----

  lemma QuotientGrows(d: int, a: int, b: int)
    requires d > 0 && a <= b
    ensures a / d <= b / d
  {
    if a / d > b / d { ProductGrows(d, a / d, b / d + 1); }
  }

  lemma FloorGrows(d: int, a: int, b: int)
    requires d > 0 && a <= b
    ensures Floor(d, a) <= Floor(d, b)
  {
    FloorIs(d, a);
    FloorIsLargest(d, Floor(d, a), b);
  }

  lemma DividedGrows(a: int, b: int, d: int)
    requires 0 <= a <= b && d > 0
    ensures DivRound(a, d) <= DivRound(b, d)
  {
    var step := d * DIVISION_GRID;
    QuotientGrows(2 * step, 2 * a + step, 2 * b + step);
  }

  // The more is stored as filled, the less is given back.
  lemma GivesBackLess(rules: Rules, o: Order, more: int)
    requires FreezeOf(rules, o).Some? && o.filled <= more
    ensures GivesBack(rules, o.(filled := more)) <= GivesBack(rules, o)
  {
    RemainderIsPositive(rules, o);
    RemainderIsPositive(rules, o.(filled := more));
    AmountsArePositive(rules, o);
    if more < o.quantity {
      var x, y := o.quantity - more, o.quantity - o.filled;
      if o.side == Buy && o.frozenAmount.Some? {
        ProductGrows(o.frozenAmount.value, y, x);
        ProductGrows(o.frozenAmount.value, x, 0);
        DividedGrows(o.frozenAmount.value * x, o.frozenAmount.value * y, o.quantity);
      } else if o.side == Buy {
        ProductGrows(o.price.value, y, x);
      }
      var a, b := RemainingFreeze(rules, o.(filled := more)).value, RemainingFreeze(rules, o).value;
      assert a.amount <= b.amount;
      FloorGrows(rules.unit(AssetOf(rules, o)), a.amount, b.amount);
    }
  }

  // A limit order, or a sell order, locks what its fills will take.
  lemma LimitLocksEnough(rules: Rules, o: Order, fills: seq<Fill>)
    requires Settles(o, fills) && rules.pair(o.symbol).Some?
    ensures FreezeOf(rules, o).Some? && Taken(rules, o, fills) <= LockOf(rules, o)
  {
    var unit := rules.unit(AssetOf(rules, o));
    LockedAndReleased(rules, o, fills);
    TermsOfConsumed(unit, o, fills);
    var whole := AtLimit(o, o.quantity);
    if o.side == Buy { ProductGrows(o.price.value, o.quantity, FilledBy(fills)); }
    CeilIs(unit, whole);
  }

  // It can spare its first release if no less is stored as filled than all that matching filled.
  lemma FilledInTimeSpares(rules: Rules, plans: Plans, id: nat, o: Order)
    requires id in plans && Tracks(o, plans[id]) && Settles(plans[id].order, plans[id].fills)
    requires rules.pair(o.symbol).Some? && rules.unit(AssetOf(rules, o)) % DIVISION_GRID == 0
    requires plans[id].spare == LockOf(rules, o) - Taken(rules, o, plans[id].fills)
    requires FilledBy(plans[id].fills) <= o.filled
    ensures Spares(rules, plans, id, GivesBack(rules, o))
  {
    var p, unit := plans[id], rules.unit(AssetOf(rules, o));
    var told := o.(filled := FilledBy(p.fills));
    LockedAndReleased(rules, p.order, p.fills);
    LockCoversSettlement(unit, p.order, p.fills);
    assert RemainingFreeze(rules, told) == RemainingFreeze(rules, p.order.(filled := FilledBy(p.fills)));
    GivesBackLess(rules, told, o.filled);
    assert GivesBack(rules, told) <= Released(unit, p.order, FilledBy(p.fills));
  }
}
