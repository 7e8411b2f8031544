/** What one dispense call promises, outcome by outcome, and how the ledger
    operations relate to each other. */
module DispenseProperties {
  import opened Dates
  import opened MedicineRecord
  import opened PharmacySystem

  /** An id that was never added is reported as not found and nothing moves. */
  lemma UnknownIdNotFound(p: Pharmacy, id: string, qty: int, today: Date)
    requires id !in p.inventory
    ensures Dispense(p, id, qty, today) == Step(NotFound(id), p)
  {
  }

  /** Expiry is checked before stock: an expired drug is refused as expired
      whatever the requested quantity, even one the stock could cover. */
  lemma ExpiredReportedBeforeStock(p: Pharmacy, id: string, qty: int, today: Date)
    requires id in p.inventory && IsExpired(p.inventory[id], today)
    ensures Dispense(p, id, qty, today) == Step(Expired(p.inventory[id].name, p.inventory[id].expiry), p)
  {
  }

  /** A fresh drug with too little stock is refused, reporting its name and both numbers. */
  lemma ShortStockRefused(p: Pharmacy, id: string, qty: int, today: Date)
    requires id in p.inventory && !IsExpired(p.inventory[id], today)
    requires p.inventory[id].quantity < qty
    ensures Dispense(p, id, qty, today) == Step(InsufficientStock(p.inventory[id].name, p.inventory[id].quantity, qty), p)
  {
  }

  /** A successful dispense takes exactly the requested units from that one
      record, keeps every other record, and extends the log by exactly one
      entry priced at unit price times quantity. */
  lemma SuccessfulDispense(p: Pharmacy, id: string, qty: int, today: Date)
    requires id in p.inventory && !IsExpired(p.inventory[id], today)
    requires qty <= p.inventory[id].quantity
    ensures var s := Dispense(p, id, qty, today);
      var drug := p.inventory[id];
      && s.outcome.Dispensed?
      && s.after.inventory.Keys == p.inventory.Keys
      && s.after.inventory[id].quantity == drug.quantity - qty
      && s.after.inventory[id].(quantity := drug.quantity) == drug
      && (forall k :: k in p.inventory && k != id ==> s.after.inventory[k] == p.inventory[k])
      && |s.after.salesLog| == |p.salesLog| + 1
      && s.after.salesLog[..|p.salesLog|] == p.salesLog
      && s.after.salesLog[|p.salesLog|] == Txn(today, drug.name, qty, drug.price * qty)
      && s.outcome.receipt == Receipt(drug.name, drug.dosage, qty, drug.price * qty, drug.quantity - qty)
  {
  }

  /** No dispense can drive any stock negative: the stock check refuses every
      request larger than the stock on hand, whatever its sign. */
  lemma DispenseKeepsStockNonNegative(p: Pharmacy, id: string, qty: int, today: Date)
    requires StockNonNegative(p)
    ensures StockNonNegative(Dispense(p, id, qty, today).after)
  {
  }

  /** A negative request is not rejected: it passes the stock check and
      raises the stock by its magnitude, logging a negative sale. */
  lemma NegativeRequestRaisesStock(p: Pharmacy, id: string, qty: int, today: Date)
    requires id in p.inventory && !IsExpired(p.inventory[id], today)
    requires qty < 0 <= p.inventory[id].quantity
    ensures var s := Dispense(p, id, qty, today);
      && s.outcome.Dispensed?
      && s.after.inventory[id].quantity > p.inventory[id].quantity
      && s.after.salesLog[|p.salesLog|].qty < 0
  {
  }

  /** Dispensing never re-files a record under another id. */
  lemma DispenseKeepsWellKeyed(p: Pharmacy, id: string, qty: int, today: Date)
    requires WellKeyed(p)
    ensures WellKeyed(Dispense(p, id, qty, today).after)
  {
  }

  /** A lookup right after an add finds the added record; lookups of other
      ids see what they saw before. */
  lemma CheckStockAfterAdd(p: Pharmacy, m: Medicine, id: string)
    ensures CheckStock(AddMedicine(p, m), id) ==
      (if id == m.drugId then Some(m) else CheckStock(p, id))
  {
  }

  /** Re-adding the record already stored under its id changes nothing. */
  lemma AddStoredRecordIsNoOp(p: Pharmacy, m: Medicine)
    requires m.drugId in p.inventory && p.inventory[m.drugId] == m
    ensures AddMedicine(p, m) == p
  {
    assert AddMedicine(p, m).inventory == p.inventory;
  }

  /** Adding a record with enough fresh stock makes the next dispense of it succeed. */
  lemma DispenseAfterAdd(p: Pharmacy, m: Medicine, qty: int, today: Date)
    requires !IsExpired(m, today) && qty <= m.quantity
    ensures var s := Dispense(AddMedicine(p, m), m.drugId, qty, today);
      s.outcome.Dispensed? && s.after.inventory[m.drugId].quantity == m.quantity - qty
  {
  }
}
