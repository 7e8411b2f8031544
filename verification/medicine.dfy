/** One drug's record: identity, strength, unit price, stock on hand and
    expiry date, plus the expiry check. */
module MedicineRecord {
  import opened Dates

  /** `price` is in cents; `quantity` is an unbounded integer because the
      record itself never checks its sign. */
  datatype Medicine = Medicine(
    drugId: string,
    name: string,
    dosage: string,
    price: int,
    quantity: int,
    expiry: Date)

  /** The drug is expired when `today` is strictly after its expiry date:
      on the expiry date itself it may still be dispensed. */
  function IsExpired(m: Medicine, today: Date): (r: bool)
    ensures r ==> today != m.expiry
    ensures Valid(today) && Valid(m.expiry) ==> (r <==> Packed(today) > Packed(m.expiry))
  {
    if Valid(today) && Valid(m.expiry) then
      AfterIffPackedGreater(today, m.expiry);
      After(today, m.expiry)
    else
      After(today, m.expiry)
  }

  /** Not expired on the expiry date itself, nor on any day before it. */
  lemma NotExpiredUpToExpiry(m: Medicine, today: Date)
    requires today == m.expiry || After(m.expiry, today)
    ensures !IsExpired(m, today)
  {
    if today != m.expiry {
      AfterTrichotomy(m.expiry, today);
    }
  }

  /** Once expired, a drug stays expired on every later day. */
  lemma ExpiredStaysExpired(m: Medicine, today: Date, later: Date)
    requires IsExpired(m, today)
    requires After(later, today)
    ensures IsExpired(m, later)
  {
    AfterTransitive(later, today, m.expiry);
  }
}
