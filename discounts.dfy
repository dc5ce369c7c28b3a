/**
 * Discounts bought with points: a fixed catalog, a stored count of remaining
 * uses per discount, and the redeem click that spends the points and uses
 * one up.
 */
module Discounts {
  import opened Wrappers
  import Points

  datatype Discount = Discount(id: string, title: string, description: string, cost: int, uses: int)

  const Catalog: seq<Discount> := [
    Discount("smoothie", "20% auf Smoothies", "Frische Bowls & Smoothies im City Store.", 12, 3),
    Discount("gear", "5 EUR Rabatt auf Bike-Gear", "Perfekt fuer das naechste Abenteuer.", 18, 2),
    Discount("tickets", "2-for-1 Kinotickets", "Nur donnerstags einloesbar.", 30, 1)
  ]

  /** The stored counts: a discount without a stored number still has its catalog count. */
  type Uses = map<string, int>

  /** `getRemainingUses`. */
  function RemainingUses(uses: Uses, item: Discount): (n: int)
    ensures item.id in uses ==> n == uses[item.id]
    ensures item.id !in uses ==> n == item.uses
  {
    if item.id in uses then uses[item.id] else item.uses
  }

  /** The label of a redeem button that can no longer be used. */
  const SoldOutLabel := "Ausverkauft"
  const RedeemLabel := "Einlösen"

  datatype Button = Button(enabled: bool, caption: string)

  /** The redeem button `renderDiscounts` draws for a discount. */
  function ButtonFor(uses: Uses, item: Discount): (b: Button)
    ensures b.enabled <==> RemainingUses(uses, item) > 0
    ensures b.caption == SoldOutLabel <==> RemainingUses(uses, item) <= 0
    ensures b.caption == RedeemLabel <==> RemainingUses(uses, item) > 0
  {
    if RemainingUses(uses, item) <= 0 then Button(false, SoldOutLabel) else Button(true, RedeemLabel)
  }

  /** A fresh store shows every catalog discount as available. */
  lemma FreshStoreAllAvailable(item: Discount)
    requires item in Catalog
    ensures ButtonFor(map[], item).enabled
  {
  }

  /**
   * `handleRedeem` as written: nothing happens when no use is left; otherwise
   * the points are spent if the balance covers them, and the count drops by
   * one whatever the outcome of the spend, because the guard tests the
   * returned result object, which is always truthy.
   */
  function Redeemed(uses: Uses, item: Discount, ledger: Points.LedgerState, now: int, draw: Points.TxDraw)
    : (r: (Uses, Points.LedgerState))
  {
    var remaining := RemainingUses(uses, item);
    if remaining <= 0 then (uses, ledger)
    else
      var spent := Points.Deducted(ledger, item.cost, item.title, false, now, draw, []);
      (uses[item.id := remaining - 1], spent.0)
  }

  /** What the code as written does: a use is consumed on every click with one left, paid or not. */
  lemma RedeemedEffect(uses: Uses, item: Discount, ledger: Points.LedgerState, now: int, draw: Points.TxDraw)
    ensures var (u, l) := Redeemed(uses, item, ledger, now, draw);
      && (RemainingUses(uses, item) <= 0 ==> u == uses && l == ledger)
      && (RemainingUses(uses, item) > 0 ==>
            && RemainingUses(u, item) == RemainingUses(uses, item) - 1
            && (forall id :: id != item.id ==> (id in u <==> id in uses) && (id in uses ==> u[id] == uses[id]))
            && (ledger.balance >= item.cost ==> l.balance == ledger.balance - item.cost)
            && (ledger.balance < item.cost ==> l == ledger))
  {
  }

  /** The defect: with no points at all, a smoothie discount is still used up. */
  lemma UnpaidRedeemConsumesUse(ledger: Points.LedgerState, now: int, draw: Points.TxDraw)
    requires ledger.balance == 0
    ensures var (u, l) := Redeemed(map[], Catalog[0], ledger, now, draw);
      && RemainingUses(u, Catalog[0]) == 2
      && l == ledger
  {
  }

  /**
   * `handleRedeem` as intended: the count drops by one only when the points
   * were spent.
   */
  function RedeemedPaid(uses: Uses, item: Discount, ledger: Points.LedgerState, now: int, draw: Points.TxDraw)
    : (r: (Uses, Points.LedgerState))
  {
    var remaining := RemainingUses(uses, item);
    if remaining <= 0 then (uses, ledger)
    else
      var spent := Points.Deducted(ledger, item.cost, item.title, false, now, draw, []);
      if spent.1.success then (uses[item.id := remaining - 1], spent.0) else (uses, ledger)
  }

  /**
   * With the intended guard, a use is consumed exactly when the discount's
   * cost is taken from the balance and logged; otherwise nothing changes.
   */
  lemma RedeemedPaidConsumesOnlyWhenPaid(uses: Uses, item: Discount, ledger: Points.LedgerState, now: int, draw: Points.TxDraw)
    ensures var (u, l) := RedeemedPaid(uses, item, ledger, now, draw);
      if RemainingUses(uses, item) > 0 && ledger.balance >= item.cost then
        && RemainingUses(u, item) == RemainingUses(uses, item) - 1
        && (forall id :: id != item.id ==> (id in u <==> id in uses) && (id in uses ==> u[id] == uses[id]))
        && l.balance == ledger.balance - item.cost
        && l.transactions[0].kind == Points.Spend && l.transactions[0].amount == item.cost
        && l.transactions[0].reason == Points.SpendReasonFor(item.title)
      else u == uses && l == ledger
  {
  }

  /** The stored counts, read and written by the redeem click. */
  class DiscountStore {
    var uses: Uses

    /** An empty store: every discount at its catalog count. */
    constructor ()
      ensures uses == map[]
    {
      uses := map[];
    }

    /** `handleRedeem`, as written. */
    method HandleRedeem(item: Discount, ledger: Points.Ledger, now: int, draw: Points.TxDraw)
      requires ledger.Valid()
      modifies this, ledger
      ensures ledger.Valid()
      ensures (uses, ledger.State()) == Redeemed(old(uses), item, old(ledger.State()), now, draw)
    {
      var remaining := RemainingUses(uses, item);
      if remaining <= 0 {
        return;
      }
      var result := ledger.DeductPoints(item.cost, item.title, false, now, draw, []);
      // the result object is truthy whether or not the spend succeeded
      uses := uses[item.id := remaining - 1];
    }

    /** `handleRedeem` with the guard testing `success`. */
    method HandleRedeemPaid(item: Discount, ledger: Points.Ledger, now: int, draw: Points.TxDraw)
      requires ledger.Valid()
      modifies this, ledger
      ensures ledger.Valid()
      ensures (uses, ledger.State()) == RedeemedPaid(old(uses), item, old(ledger.State()), now, draw)
    {
      var remaining := RemainingUses(uses, item);
      if remaining <= 0 {
        return;
      }
      var result := ledger.DeductPoints(item.cost, item.title, false, now, draw, []);
      if result.success {
        uses := uses[item.id := remaining - 1];
      }
    }
  }
}
