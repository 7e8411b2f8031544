/** The ledger: an inventory keyed by drug id and an append-only sales log,
    with the add, lookup and dispense operations. State is a value; every
    operation returns the new state instead of mutating the old one. */
module PharmacySystem {
  import opened Dates
  import opened MedicineRecord

  datatype Option<T> = None | Some(value: T)

  /** One line of the sales log. `total` is in cents. */
  datatype Txn = Txn(date: Date, drug: string, qty: int, total: int)

  datatype Pharmacy = Pharmacy(inventory: map<string, Medicine>, salesLog: seq<Txn>)

  /** What a successful dispense hands back: the fields of the printed receipt. */
  datatype Receipt = Receipt(
    name: string,
    dosage: string,
    quantity: int,
    totalCost: int,
    remaining: int)

  /** The four ways a dispense request can end. The failures carry what
      their notice reports: the unknown id, or the drug's name with its
      expiry date or with the stock on hand and the quantity asked for. */
  datatype Outcome =
    | NotFound(id: string)
    | Expired(name: string, expiredOn: Date)
    | InsufficientStock(name: string, have: int, needed: int)
    | Dispensed(receipt: Receipt)

  datatype Step = Step(outcome: Outcome, after: Pharmacy)

  /** Every record is filed under its own drug id. */
  predicate WellKeyed(p: Pharmacy) {
    forall k :: k in p.inventory ==> p.inventory[k].drugId == k
  }

  /** Every record has a non-negative stock level. */
  predicate StockNonNegative(p: Pharmacy) {
    forall k :: k in p.inventory ==> p.inventory[k].quantity >= 0
  }

  function Empty(): (p: Pharmacy)
    ensures |p.inventory| == 0 && |p.salesLog| == 0
    ensures WellKeyed(p) && StockNonNegative(p)
  {
    Pharmacy(map[], [])
  }

  /** Insert or overwrite the entry keyed by the record's own id (last write
      wins). Every other entry and the sales log are left alone. */
  function AddMedicine(p: Pharmacy, m: Medicine): (p': Pharmacy)
    ensures m.drugId in p'.inventory && p'.inventory[m.drugId] == m
    ensures p'.inventory.Keys == p.inventory.Keys + {m.drugId}
    ensures forall k :: k in p.inventory && k != m.drugId ==> p'.inventory[k] == p.inventory[k]
    ensures p'.salesLog == p.salesLog
    ensures WellKeyed(p) ==> WellKeyed(p')
    ensures StockNonNegative(p) && m.quantity >= 0 ==> StockNonNegative(p')
  {
    p.(inventory := p.inventory[m.drugId := m])
  }

  /** Look a drug up by id. */
  function CheckStock(p: Pharmacy, id: string): (r: Option<Medicine>)
    ensures r.Some? <==> id in p.inventory
    ensures r.Some? ==> r.value == p.inventory[id]
  {
    if id in p.inventory then Some(p.inventory[id]) else None
  }

  /** The record after `qty` units have been taken from it. */
  function Withdraw(m: Medicine, qty: int): (m': Medicine)
    ensures m'.quantity + qty == m.quantity
    ensures m'.(quantity := m.quantity) == m
  {
    m.(quantity := m.quantity - qty)
  }

  /** Dispense `qty` units of drug `id` on day `today`. The checks run in a
      fixed order: existence, then expiry, then stock. Only when all pass is
      the stock reduced and one entry appended to the sales log. */
  function Dispense(p: Pharmacy, id: string, qty: int, today: Date): (s: Step)
    ensures s.outcome.Dispensed? <==>
      id in p.inventory && !IsExpired(p.inventory[id], today) && qty <= p.inventory[id].quantity
    ensures !s.outcome.Dispensed? <==> s.after == p
    ensures s.after.inventory.Keys == p.inventory.Keys
    ensures p.salesLog <= s.after.salesLog
  {
    match CheckStock(p, id)
    case None => Step(NotFound(id), p)
    case Some(drug) =>
      if IsExpired(drug, today) then
        Step(Expired(drug.name, drug.expiry), p)
      else if drug.quantity < qty then
        Step(InsufficientStock(drug.name, drug.quantity, qty), p)
      else
        var drug' := Withdraw(drug, qty);
        var total := drug.price * qty;
        var p' := Pharmacy(p.inventory[id := drug'],
                           p.salesLog + [Txn(today, drug.name, qty, total)]);
        Step(Dispensed(Receipt(drug.name, drug.dosage, qty, total, drug'.quantity)), p')
  }
}
