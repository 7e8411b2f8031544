/** Several dispense calls in a row against one drug id, and what they
    promise together: refused calls can be repeated without effect, and
    every unit that leaves the stock shows up in the sales log. */
module DispenseRuns {
  import opened Dates
  import opened PharmacySystem

  /** The outcomes of dispensing each quantity of `qtys` in turn, and the
      final state. */
  function Run(p: Pharmacy, id: string, qtys: seq<int>, today: Date): (r: (seq<Outcome>, Pharmacy))
    ensures |r.0| == |qtys|
    ensures p.salesLog <= r.1.salesLog
    ensures r.1.inventory.Keys == p.inventory.Keys
    decreases |qtys|
  {
    if qtys == [] then ([], p)
    else
      var s := Dispense(p, id, qtys[0], today);
      var rest := Run(s.after, id, qtys[1..], today);
      ([s.outcome] + rest.0, rest.1)
  }

  function SumQty(log: seq<Txn>): int {
    if log == [] then 0 else log[0].qty + SumQty(log[1..])
  }

  function SumTotal(log: seq<Txn>): int {
    if log == [] then 0 else log[0].total + SumTotal(log[1..])
  }

  function CountDispensed(outs: seq<Outcome>): nat {
    if outs == [] then 0 else (if outs[0].Dispensed? then 1 else 0) + CountDispensed(outs[1..])
  }

  /** Every entry's total is its quantity times one unit price. */
  predicate PricedAt(log: seq<Txn>, price: int) {
    forall i :: 0 <= i < |log| ==> log[i].total == price * log[i].qty
  }

  /** Every entry is a sale of one drug on one day at one unit price. */
  predicate SalesOf(log: seq<Txn>, name: string, price: int, today: Date) {
    && PricedAt(log, price)
    && forall i :: 0 <= i < |log| ==> log[i].drug == name && log[i].date == today
  }

  lemma {:induction false} SalesTotalIsPriceTimesUnits(log: seq<Txn>, price: int)
    requires PricedAt(log, price)
    ensures SumTotal(log) == price * SumQty(log)
  {
    if log != [] {
      SalesTotalIsPriceTimesUnits(log[1..], price);
      assert SumTotal(log) == price * log[0].qty + price * SumQty(log[1..]);
    }
  }

  /** A refused request changes nothing, so repeating it any number of times
      gives the same refusal every time and leaves the ledger as it was. */
  lemma {:induction false} RefusedRequestRepeats(p: Pharmacy, id: string, qty: int, today: Date, n: nat)
    requires !Dispense(p, id, qty, today).outcome.Dispensed?
    ensures Run(p, id, seq(n, _ => qty), today) ==
      (seq(n, _ => Dispense(p, id, qty, today).outcome), p)
  {
    var s := Dispense(p, id, qty, today);
    var qtys := seq(n, _ => qty);
    if n == 0 {
      assert qtys == [] && seq(n, _ => s.outcome) == [];
    } else {
      RefusedRequestRepeats(p, id, qty, today, n - 1);
      assert qtys[0] == qty && qtys[1..] == seq(n - 1, _ => qty);
      assert s.after == p;
      assert [s.outcome] + seq(n - 1, _ => s.outcome) == seq(n, _ => s.outcome);
    }
  }

  /** Units are conserved across a run against one drug: the stock that
      remains plus the units recorded in the new log entries equals the stock
      at the start. Each new entry is one sale of that drug priced at its
      unit price, so the takings are price times units sold; there is one
      entry per successful call; and the other records are untouched. */
  lemma {:induction false} RunConservesUnits(p: Pharmacy, id: string, qtys: seq<int>, today: Date)
    requires id in p.inventory
    ensures var (outs, p') := Run(p, id, qtys, today);
      var drug := p.inventory[id];
      var sold := p'.salesLog[|p.salesLog|..];
      && p'.inventory[id].quantity + SumQty(sold) == drug.quantity
      && p'.inventory[id].(quantity := drug.quantity) == drug
      && SalesOf(sold, drug.name, drug.price, today)
      && SumTotal(sold) == drug.price * SumQty(sold)
      && |sold| == CountDispensed(outs)
      && (forall k :: k in p.inventory && k != id ==> p'.inventory[k] == p.inventory[k])
    decreases |qtys|
  {
    var drug := p.inventory[id];
    var (outs, p') := Run(p, id, qtys, today);
    var sold := p'.salesLog[|p.salesLog|..];
    if qtys == [] {
      assert sold == [];
    } else {
      var s := Dispense(p, id, qtys[0], today);
      RunConservesUnits(s.after, id, qtys[1..], today);
      var rest := Run(s.after, id, qtys[1..], today);
      assert outs == [s.outcome] + rest.0 && p' == rest.1;
      var later := p'.salesLog[|s.after.salesLog|..];
      assert CountDispensed(outs) == (if s.outcome.Dispensed? then 1 else 0) + CountDispensed(rest.0) by {
        assert outs[1..] == rest.0;
      }
      if s.outcome.Dispensed? {
        assert s.after.salesLog == p.salesLog + [Txn(today, drug.name, qtys[0], drug.price * qtys[0])];
        assert sold == [s.after.salesLog[|p.salesLog|]] + later;
        assert sold[1..] == later;
      } else {
        assert s.after == p;
        assert sold == later;
      }
      SalesTotalIsPriceTimesUnits(sold, drug.price);
    }
  }

  /** Every stock level stays non-negative through a run of any requests. */
  lemma {:induction false} RunKeepsStockNonNegative(p: Pharmacy, id: string, qtys: seq<int>, today: Date)
    requires StockNonNegative(p)
    ensures StockNonNegative(Run(p, id, qtys, today).1)
    decreases |qtys|
  {
    if qtys != [] {
      var s := Dispense(p, id, qtys[0], today);
      assert StockNonNegative(s.after) by {
        if s.outcome.Dispensed? {
          assert s.after.inventory == p.inventory[id := Withdraw(p.inventory[id], qtys[0])];
        }
      }
      RunKeepsStockNonNegative(s.after, id, qtys[1..], today);
    }
  }
}
