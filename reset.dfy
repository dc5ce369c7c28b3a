/**
 * The demo reset: every stored key of the ledger, the discount counts and
 * the groups is removed, and the transaction log is saved empty.
 */
module Reset {
  import Points
  import Discounts
  import Groups

  /** `handleReset`. */
  method HandleReset(ledger: Points.Ledger, discounts: Discounts.DiscountStore, groups: Groups.GroupStore)
    modifies ledger, discounts, groups
    ensures ledger.Valid() && ledger.State() == Points.Cleared()
    ensures discounts.uses == map[]
    ensures groups.groups == []
  {
    ledger.Reset();
    discounts.uses := map[];
    groups.groups := [];
  }
}
