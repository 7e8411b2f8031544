/** The repository's demonstration run, replayed on the model: two drugs are
    added, then one sale succeeds, one is refused as expired and one as
    short of stock. Prices are in cents. */
module Demo {
  import opened Dates
  import opened MedicineRecord
  import opened PharmacySystem

  const Amoxicillin := Medicine("RX001", "Amoxicillin", "500mg", 1250, 100, Date(2028, 12, 31))
  const Paracetamol := Medicine("RX002", "Paracetamol", "650mg", 500, 50, Date(2022, 1, 1))

  /** On any day after 2022-01-01 up to and including 2028-12-31. */
  lemma DemoOutcomes(today: Date)
    requires After(today, Date(2022, 1, 1)) && !After(today, Date(2028, 12, 31))
    ensures var stocked := AddMedicine(AddMedicine(Empty(), Amoxicillin), Paracetamol);
      var s1 := Dispense(stocked, "RX001", 10, today);
      var s2 := Dispense(s1.after, "RX002", 5, today);
      var s3 := Dispense(s2.after, "RX001", 200, today);
      && s1.outcome == Dispensed(Receipt("Amoxicillin", "500mg", 10, 12500, 90))
      && s2.outcome == Expired("Paracetamol", Date(2022, 1, 1))
      && s3.outcome == InsufficientStock("Amoxicillin", 90, 200)
      && s3.after.inventory["RX001"].quantity == 90
      && s3.after.inventory["RX002"].quantity == 50
      && s3.after.salesLog == [Txn(today, "Amoxicillin", 10, 12500)]
  {
    var stocked := AddMedicine(AddMedicine(Empty(), Amoxicillin), Paracetamol);
    assert "RX001" != "RX002";
    assert stocked.inventory["RX001"] == Amoxicillin;
    assert !IsExpired(Amoxicillin, today);
  }
}
