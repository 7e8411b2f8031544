# Pharmacy ledger — a Dafny model

This project models the in-memory pharmacy ledger of `Index.py`: medicine
records keyed by drug id, an append-only sales log, and the three ledger
operations `add_medicine`, `check_stock` and `dispense_medicine`, together
with the expiry check `Medicine.is_expired` underneath.

The ledger is a value, `Pharmacy(inventory: map<string, Medicine>, salesLog: seq<Txn>)`,
and each operation is a pure function returning the new value. `Dispense`
returns a `Step(outcome, after)`. The outcome is one of `NotFound(id)`,
`Expired(name, expiredOn)`, `InsufficientStock(name, have, needed)` or
`Dispensed(receipt)`. These replace the Python method's `None` return and
its console messages. Each one carries the data its message reports.

Modelling choices:

- Dates are `(year, month, day)` values. They are compared field by field,
  which is how Python's `datetime.date` orders them. "Today" is a parameter
  of `IsExpired` and `Dispense`, not a clock read.
- Prices and totals are integer cents. Quantities are unbounded `int`. The
  source accepts a negative requested quantity, and the model does too (see
  `DispenseProperties.NegativeRequestRaisesStock`).
- Records are values in a map, so the dispensed record is replaced by a copy
  with the reduced quantity. The source instead mutates the shared object.

Modules: `Dates` (the date order), `MedicineRecord` (the record and its
expiry check), `PharmacySystem` (state and operations), `DispenseProperties`
(what one call promises), `DispenseRuns` (what a sequence of calls
promises), `Demo` (the repository's demonstration run).

Index.py:56 refuses exactly the dispenses whose request exceeds the stock
on hand, so no dispense can make a stock level negative, whatever the sign
of the request (`DispenseProperties.DispenseKeepsStockNonNegative`,
`DispenseRuns.RunKeepsStockNonNegative`). The line does not reject a
negative request, though, and Index.py:61 then raises the stock instead of
lowering it (`DispenseProperties.NegativeRequestRaisesStock`).

## Model

| member | source | states |
|---|---|---|
| MedicineRecord.IsExpired | Index.py:13-15 | expired never holds on the expiry date itself; for valid dates, expired iff today's packed (year, month, day) number exceeds the expiry's |
| MedicineRecord.NotExpiredUpToExpiry | Index.py:13-15 | a drug is not expired on its expiry date or on any earlier day |
| MedicineRecord.ExpiredStaysExpired | Index.py:13-15 | once expired, a drug stays expired on every later day |
| Dates.AfterIffPackedGreater | Index.py:15 | on valid dates, the field-by-field "strictly after" order agrees with comparing the packed date numbers |
| PharmacySystem.Empty | Index.py:21-23 | a new ledger has no records and an empty sales log, and satisfies both ledger invariants |
| PharmacySystem.AddMedicine | Index.py:25-27 | the record is stored under its own id, overwriting any earlier one; the key set grows by that id only; every other entry and the sales log are unchanged; the key-matches-id invariant is kept, and the non-negative-stock invariant is kept when the added record's quantity is non-negative |
| PharmacySystem.CheckStock | Index.py:30-34 | returns a record iff the id is in the inventory, and then exactly the stored record |
| PharmacySystem.Withdraw | Index.py:61 | the new quantity plus the withdrawn amount equals the old quantity; every other field is unchanged |
| PharmacySystem.Dispense | Index.py:36-70 | succeeds iff the id is present, the drug is not expired and the request does not exceed stock; the state is unchanged iff the call fails; the key set is kept; the old log is a prefix of the new one |
| DispenseProperties.UnknownIdNotFound | Index.py:43-48 | an unknown id gives NotFound carrying that id and leaves inventory and log unchanged |
| DispenseProperties.ExpiredReportedBeforeStock | Index.py:50-58 | an expired drug gives Expired, carrying its name and expiry date, for every requested quantity (including ones the stock could cover), with no state change |
| DispenseProperties.ShortStockRefused | Index.py:55-58 | a non-expired drug with stock below the request gives InsufficientStock(name, have, needed) with no state change |
| DispenseProperties.SuccessfulDispense | Index.py:60-76 | on success, that record's quantity drops by exactly the request and its other fields stay; other records and the key set are unchanged; the log grows by exactly one entry (today, drug name, qty, price × qty) after the old log; the receipt carries name, dosage, qty, total and remaining stock |
| DispenseProperties.DispenseKeepsStockNonNegative | Index.py:56-61 | for any request, of either sign, non-negative stock everywhere stays non-negative after the dispense |
| DispenseProperties.NegativeRequestRaisesStock | Index.py:56-61 | a negative request on a non-expired drug with non-negative stock passes the stock check, succeeds, raises the stock and logs a negative quantity |
| DispenseProperties.DispenseKeepsWellKeyed | Index.py:60-61 | dispensing keeps every record filed under its own drug id |
| DispenseProperties.CheckStockAfterAdd | Index.py:25-34 | a lookup after an add finds the added record under its id; other ids are looked up as before |
| DispenseProperties.AddStoredRecordIsNoOp | Index.py:25-27 | re-adding the record already stored under its id leaves the ledger unchanged |
| DispenseProperties.DispenseAfterAdd | Index.py:25-61 | after adding a non-expired record with enough stock, dispensing it succeeds and leaves its quantity minus the request |
| DispenseRuns.Run | Index.py:36-70 | a sequence of dispenses gives one outcome per request, keeps the key set, and only appends to the log |
| DispenseRuns.SalesTotalIsPriceTimesUnits | Index.py:62-68 | if every log entry is priced at one unit price, the summed totals equal that price times the summed quantities |
| DispenseRuns.RefusedRequestRepeats | Index.py:43-58 | repeating a refused request n times gives the same refusal n times and leaves the ledger unchanged |
| DispenseRuns.RunConservesUnits | Index.py:60-70 | over a run against one drug, remaining stock plus units logged equals the starting stock; each new entry is a sale of that drug today at its unit price, so takings are price × units; there is one entry per success; other records are unchanged |
| DispenseRuns.RunKeepsStockNonNegative | Index.py:56-61 | a run of requests of any sign keeps every stock level non-negative |
| Demo.DemoOutcomes | Index.py:88-101 | the demonstration sequence (Amoxicillin 100 at 12.50, Paracetamol 50 expired 2022-01-01): dispensing 10 succeeds with total 125.00 and 90 left; 5 Paracetamol gives Expired(Paracetamol, 2022-01-01); 200 Amoxicillin gives InsufficientStock(Amoxicillin, 90, 200); afterwards the stocks are 90 and 50 and the log holds the one sale |

## Left out

- Console output: every `print` in `add_medicine` and `dispense_medicine`, including the receipt formatting at Index.py:72-77. The outcome value carries the same data instead.
- Date parsing with `strptime` (Index.py:11) and its failure on a malformed date string. A record holds an already-parsed `Date`. `Dates.Valid` describes the dates a parsed value can hold.
- The clock: `datetime.date.today()` is read twice in the source, at Index.py:15 and Index.py:65, and the two reads could straddle midnight. The model passes one `today` to each dispense call.
- Floating-point prices and the two-decimal rounding of the printed total (Index.py:62, 75). Prices and totals are exact integer cents.
- Object aliasing: the source decrements the quantity on the caller's `Medicine` object (Index.py:61), so the caller sees the change too. The model updates a value in the map.
- `Medicine.__str__` (Index.py:17-18), which is only formatting.
- The `__main__` block (Index.py:83-101) is not modelled as a program. Its expected outcomes are stated as the `Demo.DemoOutcomes` lemma, for any day on which Paracetamol is expired and Amoxicillin is not.
- Python truthiness in `if not drug` (Index.py:46): a `Medicine` object is always truthy, so only a missing id fails there. The model tests for absence directly.
