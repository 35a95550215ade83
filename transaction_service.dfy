/**
 * `TransactionService`'s ledger walks for one item: the id-ordered transaction list, the running
 * totals up to a transaction, the rewrite of every later exit's unit cost to the running average,
 * and the replay that checks an edit or a deletion never takes the stock below zero.
 */
module TransactionService {
  import opened Wrappers
  import opened Decimals
  import opened Dates
  import opened Sorting
  import opened Models
  import opened StockService

  /** `validate_stock_availability`: the item's stock over all dates covers the request. */
  function ValidateStockAvailability(ledger: seq<Record>, sku: string, quantidade: real): (valid: bool) {
    StockQuantity(ledger, sku, None) >= quantidade
  }

  /** A request the check accepts stays accepted when it asks for less. */
  lemma AvailabilityMonotone(ledger: seq<Record>, sku: string, q: real, smaller: real)
    requires ValidateStockAvailability(ledger, sku, q) && smaller <= q
    ensures ValidateStockAvailability(ledger, sku, smaller)
  {
  }

  /** Stock 10: asking for 5 or for exactly 10 is accepted, asking for 15 is refused. */
  lemma AvailabilityExample(today: Date)
    ensures var ledger := [Record(1, Entry, "TEST001", 10.0, 5.0, today, 1, None, None)];
            && ValidateStockAvailability(ledger, "TEST001", 5.0)
            && ValidateStockAvailability(ledger, "TEST001", 10.0)
            && !ValidateStockAvailability(ledger, "TEST001", 15.0)
  {
    var e := Record(1, Entry, "TEST001", 10.0, 5.0, today, 1, None, None);
    StockAfterAppend([], e, "TEST001", None);
    StockWithoutTransactions([], "TEST001", None);
    assert [] + [e] == [e];
  }

  function OfSku(ledger: seq<Record>, sku: string): (rs: seq<Record>)
    ensures forall r | r in rs :: r.sku == sku && r in ledger
    ensures forall r | r in ledger && r.sku == sku :: r in rs
  {
    if ledger == [] then []
    else (if ledger[0].sku == sku then [ledger[0]] else []) + OfSku(ledger[1..], sku)
  }

  function IdKey(r: Record): Key {
    [Num(r.id as real)]
  }

  lemma IdKeyOrder(a: Record, b: Record)
    ensures KeyLess(IdKey(a), IdKey(b)) <==> a.id < b.id
  {
    if a.id != b.id {
      assert IdKey(a)[0] != IdKey(b)[0];
    }
  }

  predicate IdOrdered(rs: seq<Record>) {
    forall i, j :: 0 <= i < j < |rs| ==> rs[i].id <= rs[j].id
  }

  /**
   * `_get_all_transactions_for_sku`, as far as its order goes: the item's entries and exits
   * together, sorted by transaction id.
   */
  function AllTransactionsForSku(ledger: seq<Record>, sku: string): (txs: seq<Record>)
    ensures multiset(txs) == multiset(OfSku(ledger, sku))
    ensures IdOrdered(txs)
    ensures forall r | r in txs :: r.sku == sku && r in ledger
  {
    var rs := OfSku(ledger, sku);
    SortPermutes(rs, IdKey, false);
    SortSorted(rs, IdKey, false);
    var txs := SortBy(rs, IdKey, false);
    forall i, j | 0 <= i < j < |txs|
      ensures txs[i].id <= txs[j].id
    {
      IdKeyOrder(txs[j], txs[i]);
    }
    assert forall r | r in txs :: r in multiset(rs);
    txs
  }

  /** The four running sums the cost walk carries. */
  datatype Totals = Totals(entradaQtde: real, entradaValor: real, saidaQtde: real, saidaValor: real)

  function AddTo(t: Totals, r: Record): Totals {
    if r.kind == Entry then t.(entradaQtde := t.entradaQtde + r.quantidade, entradaValor := t.entradaValor + r.quantidade * r.valorUnit)
    else t.(saidaQtde := t.saidaQtde + r.quantidade, saidaValor := t.saidaValor + r.quantidade * r.valorUnit)
  }

  /** The sums over the transactions whose id is at most `tid`, each kind apart. */
  function TotalsUpTo(txs: seq<Record>, tid: int): Totals {
    Totals(
      SumQty(txs, (r: Record) => r.kind == Entry && r.id <= tid),
      SumValue(txs, (r: Record) => r.kind == Entry && r.id <= tid),
      SumQty(txs, (r: Record) => r.kind == Exit && r.id <= tid),
      SumValue(txs, (r: Record) => r.kind == Exit && r.id <= tid))
  }

  /**
   * `_calculate_stock_until_transaction`: every transaction with id at most `tid` added to the
   * entry or the exit sums; the rest skipped.
   */
  method CalculateStockUntilTransaction(txs: seq<Record>, tid: int) returns (t: Totals)
    ensures t == TotalsUpTo(txs, tid)
  {
    t := Totals(0.0, 0.0, 0.0, 0.0);
    var i := 0;
    while i < |txs|
      invariant 0 <= i <= |txs|
      invariant t == TotalsUpTo(txs[..i], tid)
    {
      var tx := txs[i];
      assert txs[..i + 1] == txs[..i] + [tx];
      SumsAppend(txs[..i], tx, (r: Record) => r.kind == Entry && r.id <= tid);
      SumsAppend(txs[..i], tx, (r: Record) => r.kind == Exit && r.id <= tid);
      if tx.id <= tid {
        t := AddTo(t, tx);
      }
      i := i + 1;
    }
    assert txs[..|txs|] == txs;
  }

  /** With a bound below every id, nothing is counted: the walk starts from empty sums. */
  lemma TotalsBeforeEveryId(txs: seq<Record>, tid: int)
    requires forall r | r in txs :: r.id > tid
    ensures TotalsUpTo(txs, tid) == Totals(0.0, 0.0, 0.0, 0.0)
  {
    SumsOfNothing(txs, (r: Record) => r.kind == Entry && r.id <= tid);
    SumsOfNothing(txs, (r: Record) => r.kind == Exit && r.id <= tid);
  }

  /**
   * With a bound at or above every id of a list of one item's transactions, the running sums are
   * the item's stock and stock value over all dates.
   */
  lemma TotalsAtLastId(txs: seq<Record>, sku: string, tid: int)
    requires forall r | r in txs :: r.sku == sku && r.id <= tid
    ensures TotalsUpTo(txs, tid).entradaQtde - TotalsUpTo(txs, tid).saidaQtde == StockQuantity(txs, sku, None)
    ensures TotalsUpTo(txs, tid).entradaValor - TotalsUpTo(txs, tid).saidaValor == NetValue(txs, sku, None)
  {
    SumsSameSelection(txs, (r: Record) => r.kind == Entry && r.id <= tid, (r: Record) => Counts(r, sku, Entry, None));
    SumsSameSelection(txs, (r: Record) => r.kind == Exit && r.id <= tid, (r: Record) => Counts(r, sku, Exit, None));
  }

  /** The average cost the running sums give: their net value over their stock, 0 without stock. */
  function RunningAverage(t: Totals): real {
    var estoque := t.entradaQtde - t.saidaQtde;
    if estoque > 0.0 then (t.entradaValor - t.saidaValor) / estoque else 0.0
  }

  /** The running average times the running stock is the running value, while there is stock. */
  lemma RunningAverageMeaning(t: Totals)
    ensures t.entradaQtde - t.saidaQtde > 0.0 ==>
              RunningAverage(t) * (t.entradaQtde - t.saidaQtde) == t.entradaValor - t.saidaValor
    ensures t.entradaQtde - t.saidaQtde <= 0.0 ==> RunningAverage(t) == 0.0
  {
  }

  /** The cost walk's state: the rewritten list so far, the running sums and the rewrite count. */
  datatype Walk = Walk(out: seq<Record>, totals: Totals, count: nat)

  /**
   * One step of `_update_subsequent_exit_costs`: a transaction at or before `tid` passes as it
   * is; a later entry is added to the sums; a later exit is charged the running average rounded
   * to cents, and the exit sums grow by its quantity at the unrounded average.
   */
  function Step(w: Walk, tx: Record, tid: int): Walk {
    if tx.id <= tid then w.(out := w.out + [tx])
    else if tx.kind == Entry then Walk(w.out + [tx], AddTo(w.totals, tx), w.count)
    else
      var custo := RunningAverage(w.totals);
      Walk(w.out + [tx.(valorUnit := Round2(custo))], TakeOut(w.totals, tx.quantidade, custo), w.count + 1)
  }

  /** The exit sums after `q` more leave the stock at unit cost `custo`. */
  function TakeOut(t: Totals, q: real, custo: real): Totals {
    t.(saidaQtde := t.saidaQtde + q, saidaValor := t.saidaValor + q * custo)
  }

  /** The walk over `txs` from the running sums `t0`. */
  function Recost(txs: seq<Record>, tid: int, t0: Totals): Walk {
    if txs == [] then Walk([], t0, 0)
    else Step(Recost(txs[..|txs| - 1], tid, t0), txs[|txs| - 1], tid)
  }

  /**
   * `_update_subsequent_exit_costs` on the id-ordered list: every exit after `tid` gets the
   * running average unit cost; the number of exits rewritten is returned.
   */
  method UpdateSubsequentExitCosts(a: array<Record>, tid: int, t0: Totals) returns (count: nat)
    modifies a
    ensures a[..] == Recost(old(a[..]), tid, t0).out
    ensures count == Recost(old(a[..]), tid, t0).count
  {
    ghost var txs := a[..];
    var totals := t0;
    count := 0;
    var i := 0;
    while i < a.Length
      invariant 0 <= i <= a.Length
      invariant Walk(a[..i], totals, count) == Recost(txs[..i], tid, t0)
      invariant forall k | i <= k < a.Length :: a[k] == txs[k]
    {
      var tx := a[i];
      ghost var w := Walk(a[..i], totals, count);
      RecostSnoc(txs, tid, t0, i);
      var newTx := tx;
      if tx.id <= tid {
        StepEarlier(w, tx, tid);
        assert Walk(w.out + [newTx], totals, count) == Step(w, tx, tid);
      } else {
        if tx.kind == Entry {
          totals := AddTo(totals, tx);
          StepLaterEntry(w, tx, tid);
          assert Walk(w.out + [newTx], totals, count) == Step(w, tx, tid);
        } else {
          var custo := RunningAverage(totals);
          newTx := tx.(valorUnit := Round2(custo));
          count := count + 1;
          totals := TakeOut(totals, tx.quantidade, custo);
          StepLaterExit(w, tx, tid);
          assert Walk(w.out + [newTx], totals, count) == Step(w, tx, tid);
        }
      }
      a[i] := newTx;
      assert a[..i + 1] == w.out + [newTx];
      assert Walk(a[..i + 1], totals, count) == Step(w, tx, tid);
      i := i + 1;
    }
    assert txs[..a.Length] == txs;
    assert a[..a.Length] == a[..];
  }

  /**
   * The body of `recalculate_subsequent_costs` for one item's id-ordered transactions: the sums
   * up to `tid`, then the later exits rewritten in a working copy.
   */
  method RecostFrom(txs: seq<Record>, tid: int) returns (out: seq<Record>, count: nat)
    ensures out == Recost(txs, tid, TotalsUpTo(txs, tid)).out
    ensures count == Recost(txs, tid, TotalsUpTo(txs, tid)).count
  {
    var totals := CalculateStockUntilTransaction(txs, tid);
    var a := new Record[|txs|](i requires 0 <= i < |txs| => txs[i]);
    assert a[..] == txs;
    count := UpdateSubsequentExitCosts(a, tid, totals);
    out := a[..];
  }

  lemma StepEarlier(w: Walk, tx: Record, tid: int)
    requires tx.id <= tid
    ensures Step(w, tx, tid) == Walk(w.out + [tx], w.totals, w.count)
  {
  }

  lemma StepLaterEntry(w: Walk, tx: Record, tid: int)
    requires tx.id > tid && tx.kind == Entry
    ensures Step(w, tx, tid) == Walk(w.out + [tx], AddTo(w.totals, tx), w.count)
  {
  }

  lemma StepLaterExit(w: Walk, tx: Record, tid: int)
    requires tx.id > tid && tx.kind == Exit
    ensures var custo := RunningAverage(w.totals);
            Step(w, tx, tid) == Walk(w.out + [tx.(valorUnit := Round2(custo))], TakeOut(w.totals, tx.quantidade, custo), w.count + 1)
  {
  }

  lemma RecostSnoc(txs: seq<Record>, tid: int, t0: Totals, i: nat)
    requires i < |txs|
    ensures Recost(txs[..i + 1], tid, t0) == Step(Recost(txs[..i], tid, t0), txs[i], tid)
  {
    assert txs[..i + 1][..i] == txs[..i];
  }

  /**
   * The walk keeps the list's length and every transaction at or before `tid` and every entry;
   * a later exit changes only its unit cost, to a value in cents.
   */
  lemma {:induction false} RecostChangesOnlyLaterExitCosts(txs: seq<Record>, tid: int, t0: Totals)
    ensures |Recost(txs, tid, t0).out| == |txs|
    ensures forall k | 0 <= k < |txs| && (txs[k].id <= tid || txs[k].kind == Entry) ::
              Recost(txs, tid, t0).out[k] == txs[k]
    ensures forall k | 0 <= k < |txs| && txs[k].id > tid && txs[k].kind == Exit ::
              && Recost(txs, tid, t0).out[k] == txs[k].(valorUnit := Recost(txs, tid, t0).out[k].valorUnit)
              && IsCents(Recost(txs, tid, t0).out[k].valorUnit)
  {
    if txs != [] {
      var init := txs[..|txs| - 1];
      var last := txs[|txs| - 1];
      var w := Recost(init, tid, t0);
      RecostChangesOnlyLaterExitCosts(init, tid, t0);
      assert Recost(txs, tid, t0).out == w.out + [StepOut(w, last, tid)] by {
        StepAppends(w, last, tid);
      }
      assert forall k | 0 <= k < |init| :: txs[k] == init[k];
    }
  }

  /** The line a step appends: a later exit at the running average, anything else as it is. */
  function StepOut(w: Walk, tx: Record, tid: int): (o: Record)
    ensures o == tx.(valorUnit := o.valorUnit)
    ensures tx.id <= tid || tx.kind == Entry ==> o == tx
    ensures tx.id > tid && tx.kind == Exit ==> IsCents(o.valorUnit)
  {
    if tx.id > tid && tx.kind == Exit then tx.(valorUnit := Round2(RunningAverage(w.totals))) else tx
  }

  lemma StepAppends(w: Walk, tx: Record, tid: int)
    ensures Step(w, tx, tid).out == w.out + [StepOut(w, tx, tid)]
  {
  }

  /** The exits after `tid`, in order. */
  function LaterExits(txs: seq<Record>, tid: int): seq<Record> {
    if txs == [] then []
    else LaterExits(txs[..|txs| - 1], tid)
         + (if txs[|txs| - 1].id > tid && txs[|txs| - 1].kind == Exit then [txs[|txs| - 1]] else [])
  }

  /** The walk's count is the number of exits after `tid`. */
  lemma {:induction false} RecostCount(txs: seq<Record>, tid: int, t0: Totals)
    ensures Recost(txs, tid, t0).count == |LaterExits(txs, tid)|
  {
    if txs != [] {
      var init := txs[..|txs| - 1];
      var last := txs[|txs| - 1];
      RecostCount(init, tid, t0);
      var w := Recost(init, tid, t0);
      if last.id <= tid {
        StepEarlier(w, last, tid);
      } else if last.kind == Entry {
        StepLaterEntry(w, last, tid);
      } else {
        StepLaterExit(w, last, tid);
      }
    }
  }

  /**
   * The running sums end as the start sums plus the later entries' quantity and value and the
   * later exits' quantity.
   */
  lemma {:induction false} RecostSums(txs: seq<Record>, tid: int, t0: Totals)
    ensures Recost(txs, tid, t0).totals.entradaQtde == t0.entradaQtde + SumQty(txs, (r: Record) => r.kind == Entry && r.id > tid)
    ensures Recost(txs, tid, t0).totals.entradaValor == t0.entradaValor + SumValue(txs, (r: Record) => r.kind == Entry && r.id > tid)
    ensures Recost(txs, tid, t0).totals.saidaQtde == t0.saidaQtde + SumQty(txs, (r: Record) => r.kind == Exit && r.id > tid)
  {
    if txs != [] {
      var init := txs[..|txs| - 1];
      var last := txs[|txs| - 1];
      RecostSums(init, tid, t0);
      assert txs == init + [last];
      SumsAppend(init, last, (r: Record) => r.kind == Entry && r.id > tid);
      SumsAppend(init, last, (r: Record) => r.kind == Exit && r.id > tid);
      var w := Recost(init, tid, t0);
      assert Recost(txs, tid, t0).totals == Step(w, last, tid).totals;
      StepTotals(w, last, tid);
    }
  }

  /** What one step adds to the entry sums and to the exit quantity. */
  lemma StepTotals(w: Walk, tx: Record, tid: int)
    ensures var t := Step(w, tx, tid).totals;
            var later := tx.id > tid;
            && t.entradaQtde == w.totals.entradaQtde + (if later && tx.kind == Entry then tx.quantidade else 0.0)
            && t.entradaValor == w.totals.entradaValor + (if later && tx.kind == Entry then tx.quantidade * tx.valorUnit else 0.0)
            && t.saidaQtde == w.totals.saidaQtde + (if later && tx.kind == Exit then tx.quantidade else 0.0)
  {
  }

  /** The walk over a prefix is the prefix of the walk. */
  lemma {:induction false} RecostPrefix(txs: seq<Record>, tid: int, t0: Totals, m: nat)
    requires m <= |txs|
    ensures |Recost(txs, tid, t0).out| == |txs|
    ensures Recost(txs[..m], tid, t0).out == Recost(txs, tid, t0).out[..m]
  {
    RecostChangesOnlyLaterExitCosts(txs, tid, t0);
    if m < |txs| {
      var init := txs[..|txs| - 1];
      assert txs[..m] == init[..m];
      RecostPrefix(init, tid, t0, m);
      RecostChangesOnlyLaterExitCosts(init, tid, t0);
    } else {
      assert txs[..m] == txs;
    }
  }

  /**
   * Taking stock out at the running average leaves the average where it was while some stock
   * remains.
   */
  lemma ExitKeepsAverage(t: Totals, q: real)
    requires t.entradaQtde - t.saidaQtde - q > 0.0
    ensures var c := RunningAverage(t);
            q >= 0.0 ==> RunningAverage(TakeOut(t, q, c)) == c
  {
    var c := RunningAverage(t);
    var s := t.entradaQtde - t.saidaQtde;
    if q >= 0.0 {
      var t' := TakeOut(t, q, c);
      RunningAverageMeaning(t);
      RunningAverageMeaning(t');
      assert c * s == t.entradaValor - t.saidaValor;
      assert t'.entradaValor - t'.saidaValor == c * (s - q);
      var c' := RunningAverage(t');
      assert c' * (s - q) == c * (s - q);
      FactorOrder(c', c, s - q);
      FactorOrder(c, c', s - q);
    }
  }

  /**
   * Two exits in a row after `tid` are charged the same unit cost when the first leaves some
   * stock behind.
   */
  lemma ConsecutiveExitsSameCost(txs: seq<Record>, tid: int, t0: Totals, k: nat)
    requires k + 1 < |txs|
    requires txs[k].id > tid && txs[k].kind == Exit && txs[k].quantidade >= 0.0
    requires txs[k + 1].id > tid && txs[k + 1].kind == Exit
    requires var t := Recost(txs[..k], tid, t0).totals;
             t.entradaQtde - t.saidaQtde - txs[k].quantidade > 0.0
    ensures |Recost(txs, tid, t0).out| == |txs|
    ensures Recost(txs, tid, t0).out[k].valorUnit == Recost(txs, tid, t0).out[k + 1].valorUnit
  {
    var w0 := Recost(txs[..k], tid, t0);
    var w2 := Recost(txs[..k + 2], tid, t0);
    assert w2 == Step(Step(w0, txs[k], tid), txs[k + 1], tid) by {
      RecostSnoc(txs, tid, t0, k);
      RecostSnoc(txs, tid, t0, k + 1);
    }
    assert |w0.out| == k by { RecostChangesOnlyLaterExitCosts(txs[..k], tid, t0); }
    TwoExitsSameCost(w0, txs[k], txs[k + 1], tid);
    RecostPrefix(txs, tid, t0, k + 2);
  }

  /** One step of the walk after another, both on later exits, the first leaving stock. */
  lemma TwoExitsSameCost(w0: Walk, a: Record, b: Record, tid: int)
    requires a.id > tid && a.kind == Exit && a.quantidade >= 0.0
    requires b.id > tid && b.kind == Exit
    requires w0.totals.entradaQtde - w0.totals.saidaQtde - a.quantidade > 0.0
    ensures var w2 := Step(Step(w0, a, tid), b, tid);
            |w2.out| == |w0.out| + 2 && w2.out[|w0.out|].valorUnit == w2.out[|w0.out| + 1].valorUnit
  {
    var w1 := Step(w0, a, tid);
    var c := RunningAverage(w0.totals);
    assert w1.out == w0.out + [a.(valorUnit := Round2(c))]
        && w1.totals == TakeOut(w0.totals, a.quantidade, c) by {
      StepLaterExit(w0, a, tid);
    }
    assert RunningAverage(w1.totals) == c by { ExitKeepsAverage(w0.totals, a.quantidade); }
    assert Step(w1, b, tid).out == w1.out + [b.(valorUnit := Round2(c))] by { StepLaterExit(w1, b, tid); }
  }

  datatype Operation = Delete | Edit

  /** The replay's result: whether the stock stayed non-negative, the stock, the failing id. */
  datatype SimResult = SimResult(valid: bool, stock: real, failedId: Option<int>)

  predicate Skipped(tx: Record, op: Operation, tid: Option<int>) {
    op == Delete && tid == Some(tx.id)
  }

  /** A transaction's effect on the replayed stock: the edited quantity for the edited one. */
  function Delta(tx: Record, op: Operation, tid: Option<int>, newQty: Option<real>): real {
    if Skipped(tx, op, tid) then 0.0
    else
      var q := if op == Edit && tid == Some(tx.id) && newQty.Some? then newQty.value else tx.quantidade;
      if tx.kind == Entry then q else -q
  }

  /** The replayed stock after the first `n` transactions. */
  function RunningStock(txs: seq<Record>, n: nat, op: Operation, tid: Option<int>, newQty: Option<real>): real
    requires n <= |txs|
  {
    if n == 0 then 0.0 else RunningStock(txs, n - 1, op, tid, newQty) + Delta(txs[n - 1], op, tid, newQty)
  }

  /** `_simulate_stock_after_operation` over the first `n` transactions, stopping at a failure. */
  function SimulateUpTo(txs: seq<Record>, n: nat, op: Operation, tid: Option<int>, newQty: Option<real>): SimResult
    requires n <= |txs|
  {
    if n == 0 then SimResult(true, 0.0, None)
    else
      var prev := SimulateUpTo(txs, n - 1, op, tid, newQty);
      var tx := txs[n - 1];
      if !prev.valid || Skipped(tx, op, tid) then prev
      else
        var s := prev.stock + Delta(tx, op, tid, newQty);
        if s < 0.0 then SimResult(false, s, Some(tx.id)) else SimResult(true, s, None)
  }

  function Simulate(txs: seq<Record>, op: Operation, tid: Option<int>, newQty: Option<real>): SimResult {
    SimulateUpTo(txs, |txs|, op, tid, newQty)
  }

  /**
   * `_simulate_stock_after_operation`: the list replayed with the target skipped (deletion) or
   * with its quantity replaced (edit), stopping at the first transaction that takes the stock
   * below zero.
   */
  method SimulateStockAfterOperation(txs: seq<Record>, op: Operation, tid: Option<int>, newQty: Option<real>)
    returns (valid: bool, stock: real, failedId: Option<int>)
    ensures SimResult(valid, stock, failedId) == Simulate(txs, op, tid, newQty)
  {
    stock := 0.0;
    var i := 0;
    while i < |txs|
      invariant 0 <= i <= |txs|
      invariant SimulateUpTo(txs, i, op, tid, newQty) == SimResult(true, stock, None)
    {
      var tx := txs[i];
      if op == Delete && tid == Some(tx.id) {
        i := i + 1;
        continue;
      }
      var quantity := tx.quantidade;
      if op == Edit && tid == Some(tx.id) && newQty.Some? {
        quantity := newQty.value;
      }
      if tx.kind == Entry {
        stock := stock + quantity;
      } else {
        stock := stock - quantity;
      }
      if stock < 0.0 {
        SimulateFailureStays(txs, i + 1, |txs|, op, tid, newQty);
        return false, stock, Some(tx.id);
      }
      i := i + 1;
    }
    return true, stock, None;
  }

  /** Once the replay fails, later transactions do not change its result. */
  lemma {:induction false} SimulateFailureStays(txs: seq<Record>, m: nat, n: nat, op: Operation, tid: Option<int>, newQty: Option<real>)
    requires m <= n <= |txs|
    requires !SimulateUpTo(txs, m, op, tid, newQty).valid
    ensures SimulateUpTo(txs, n, op, tid, newQty) == SimulateUpTo(txs, m, op, tid, newQty)
  {
    if n > m {
      SimulateFailureStays(txs, m, n - 1, op, tid, newQty);
    }
  }

  /** The stock is first negative after the transaction at `k`. */
  predicate FirstNegativeAt(txs: seq<Record>, k: nat, op: Operation, tid: Option<int>, newQty: Option<real>)
    requires k < |txs|
  {
    && RunningStock(txs, k + 1, op, tid, newQty) < 0.0
    && forall j | 0 <= j <= k :: RunningStock(txs, j, op, tid, newQty) >= 0.0
  }

  /**
   * The replay is valid exactly when no prefix leaves negative stock, and then reports the final
   * stock; otherwise it names the first transaction after which the stock is negative, with
   * that stock.
   */
  lemma {:induction false} SimulateMeaning(txs: seq<Record>, n: nat, op: Operation, tid: Option<int>, newQty: Option<real>)
    requires n <= |txs|
    ensures var r := SimulateUpTo(txs, n, op, tid, newQty);
            r.valid <==> forall j | 0 <= j <= n :: RunningStock(txs, j, op, tid, newQty) >= 0.0
    ensures var r := SimulateUpTo(txs, n, op, tid, newQty);
            r.valid ==> r.stock == RunningStock(txs, n, op, tid, newQty) && r.failedId.None?
    ensures var r := SimulateUpTo(txs, n, op, tid, newQty);
            !r.valid ==> exists k | 0 <= k < n ::
              && FirstNegativeAt(txs, k, op, tid, newQty)
              && r.failedId == Some(txs[k].id)
              && r.stock == RunningStock(txs, k + 1, op, tid, newQty)
  {
    if n > 0 {
      SimulateMeaning(txs, n - 1, op, tid, newQty);
      var prev := SimulateUpTo(txs, n - 1, op, tid, newQty);
      var r := SimulateUpTo(txs, n, op, tid, newQty);
      var tx := txs[n - 1];
      if !prev.valid {
        assert r == prev;
        var k :| 0 <= k < n - 1 && FirstNegativeAt(txs, k, op, tid, newQty)
                 && prev.failedId == Some(txs[k].id) && prev.stock == RunningStock(txs, k + 1, op, tid, newQty);
        assert RunningStock(txs, k + 1, op, tid, newQty) < 0.0 && k + 1 <= n;
      } else if Skipped(tx, op, tid) {
        assert r == prev;
        assert RunningStock(txs, n, op, tid, newQty) == RunningStock(txs, n - 1, op, tid, newQty);
      } else {
        assert RunningStock(txs, n, op, tid, newQty) == prev.stock + Delta(tx, op, tid, newQty);
        if RunningStock(txs, n, op, tid, newQty) < 0.0 {
          assert FirstNegativeAt(txs, n - 1, op, tid, newQty);
          assert r.failedId == Some(txs[n - 1].id);
        }
      }
    }
  }

  /** The replayed stock with an exit deleted is never below the replayed stock as it stands. */
  lemma {:induction false} DeletingExitRaisesStock(txs: seq<Record>, n: nat, tid: int)
    requires n <= |txs|
    requires forall r | r in txs && r.id == tid :: r.kind == Exit && r.quantidade >= 0.0
    ensures RunningStock(txs, n, Delete, Some(tid), None) >= RunningStock(txs, n, Edit, None, None)
  {
    if n > 0 {
      DeletingExitRaisesStock(txs, n - 1, tid);
      assert txs[n - 1] in txs;
    }
  }

  /** Deleting an exit from a history that never goes negative is always accepted. */
  lemma DeletingExitKeepsValid(txs: seq<Record>, tid: int)
    requires Simulate(txs, Edit, None, None).valid
    requires forall r | r in txs && r.id == tid :: r.kind == Exit && r.quantidade >= 0.0
    ensures Simulate(txs, Delete, Some(tid), None).valid
  {
    SimulateMeaning(txs, |txs|, Edit, None, None);
    SimulateMeaning(txs, |txs|, Delete, Some(tid), None);
    forall j | 0 <= j <= |txs|
      ensures RunningStock(txs, j, Delete, Some(tid), None) >= 0.0
    {
      DeletingExitRaisesStock(txs, j, tid);
    }
  }

  /** An entry of 10 then an exit of 8: deleting the entry fails at the exit, with stock -8. */
  lemma DeleteEntryBeforeExitExample(today: Date)
    ensures var txs := [Record(1, Entry, "TEST001", 10.0, 5.0, today, 1, None, None),
                        Record(2, Exit, "TEST001", 8.0, 5.0, today, 1, None, None)];
            Simulate(txs, Delete, Some(1), None) == SimResult(false, -8.0, Some(2))
  {
    var txs := [Record(1, Entry, "TEST001", 10.0, 5.0, today, 1, None, None),
                Record(2, Exit, "TEST001", 8.0, 5.0, today, 1, None, None)];
    assert SimulateUpTo(txs, 0, Delete, Some(1), None) == SimResult(true, 0.0, None);
    assert Skipped(txs[0], Delete, Some(1));
    assert SimulateUpTo(txs, 1, Delete, Some(1), None) == SimResult(true, 0.0, None);
    assert Delta(txs[1], Delete, Some(1), None) == -8.0;
  }

  /** `validate_stock_after_operation`: the replay of the item's id-ordered transactions. */
  function ValidateStockAfterOperation(ledger: seq<Record>, sku: string, op: Operation, tid: Option<int>, newQty: Option<real>): (r: SimResult)
    ensures r.valid ==> r.failedId.None?
    ensures !r.valid ==> r.failedId.Some? && r.stock < 0.0
  {
    var txs := AllTransactionsForSku(ledger, sku);
    SimulateMeaning(txs, |txs|, op, tid, newQty);
    Simulate(txs, op, tid, newQty)
  }

  datatype RecalcResult = Recalculated(updated: nat) | RecalcFailed

  /** The ledger line with the same transaction and kind, in the rewritten list. */
  function FindSame(out: seq<Record>, r: Record): (o: Option<Record>)
    ensures o.Some? ==> o.value in out && o.value.id == r.id && o.value.kind == r.kind
    ensures o.None? ==> forall x | x in out :: x.id != r.id || x.kind != r.kind
  {
    if out == [] then None
    else if out[0].id == r.id && out[0].kind == r.kind then Some(out[0])
    else FindSame(out[1..], r)
  }

  /** Each rewritten exit's unit cost saved back to its ledger line. */
  function WriteBack(ledger: seq<Record>, out: seq<Record>): (l: seq<Record>)
    ensures |l| == |ledger|
    ensures forall i | 0 <= i < |l| :: l[i] == ledger[i].(valorUnit := l[i].valorUnit)
    ensures forall i | 0 <= i < |l| && FindSame(out, ledger[i]).None? :: l[i] == ledger[i]
  {
    seq(|ledger|, i requires 0 <= i < |ledger| =>
      match FindSame(out, ledger[i])
      case None => ledger[i]
      case Some(o) => ledger[i].(valorUnit := o.valorUnit))
  }

  /**
   * `recalculate_subsequent_costs(transaction_id, sku)`: the item's id-ordered list, the sums up
   * to the id, then the later exits re-costed and saved. A missing id (None) fails at the first
   * comparison when the item has any transaction, and changes nothing.
   */
  function Recalculation(ledger: seq<Record>, tid: Option<int>, sku: string): (seq<Record>, RecalcResult) {
    var txs := AllTransactionsForSku(ledger, sku);
    match tid
    case None => (ledger, if txs == [] then Recalculated(0) else RecalcFailed)
    case Some(id) =>
      var w := Recost(txs, id, TotalsUpTo(txs, id));
      (WriteBack(ledger, w.out), Recalculated(w.count))
  }

  /** Transaction ids are distinct across the ledger: each transaction has one entry or exit row. */
  predicate UniqueIds(ledger: seq<Record>) {
    forall i, j | 0 <= i < j < |ledger| :: ledger[i].id != ledger[j].id
  }

  /** A line the rewritten list keeps as it was is saved back unchanged. */
  lemma WriteBackKeepsLine(ledger: seq<Record>, txs: seq<Record>, out: seq<Record>, sku: string, tid: int, i: nat)
    requires UniqueIds(ledger) && i < |ledger|
    requires |out| == |txs|
    requires forall r | r in txs :: r.sku == sku && r in ledger
    requires forall k | 0 <= k < |txs| && (txs[k].id <= tid || txs[k].kind == Entry) :: out[k] == txs[k]
    requires forall k | 0 <= k < |txs| :: out[k] == txs[k].(valorUnit := out[k].valorUnit)
    requires ledger[i].sku != sku || ledger[i].kind == Entry || ledger[i].id <= tid
    ensures WriteBack(ledger, out)[i] == ledger[i]
  {
    match FindSame(out, ledger[i]) {
      case None =>
      case Some(o) =>
        var k :| 0 <= k < |out| && out[k] == o;
        assert txs[k] in txs;
        var j :| 0 <= j < |ledger| && ledger[j] == txs[k];
        assert ledger[j].id == ledger[i].id;
        assert txs[k] == ledger[i];
    }
  }

  /**
   * Recalculation changes nothing but unit costs, and nothing at all on the other items' lines,
   * on entries or on exits at or before the id; it reports how many exits followed the id.
   */
  lemma RecalculationChangesOnlyLaterExitCosts(ledger: seq<Record>, tid: int, sku: string)
    requires UniqueIds(ledger)
    ensures |Recalculation(ledger, Some(tid), sku).0| == |ledger|
    ensures forall i | 0 <= i < |ledger| ::
              Recalculation(ledger, Some(tid), sku).0[i] == ledger[i].(valorUnit := Recalculation(ledger, Some(tid), sku).0[i].valorUnit)
    ensures forall i | 0 <= i < |ledger| && (ledger[i].sku != sku || ledger[i].kind == Entry || ledger[i].id <= tid) ::
              Recalculation(ledger, Some(tid), sku).0[i] == ledger[i]
    ensures Recalculation(ledger, Some(tid), sku).1 == Recalculated(|LaterExits(AllTransactionsForSku(ledger, sku), tid)|)
  {
    var txs := AllTransactionsForSku(ledger, sku);
    var t0 := TotalsUpTo(txs, tid);
    var w := Recost(txs, tid, t0);
    assert Recalculation(ledger, Some(tid), sku) == (WriteBack(ledger, w.out), Recalculated(w.count));
    assert w.count == |LaterExits(txs, tid)| by {
      RecostCount(txs, tid, t0);
    }
    RecostWriteBack(ledger, sku, tid);
  }

  /** Writing the walk back keeps every line but the later exits of `sku`. */
  lemma RecostWriteBack(ledger: seq<Record>, sku: string, tid: int)
    requires UniqueIds(ledger)
    ensures var txs := AllTransactionsForSku(ledger, sku);
            var l := WriteBack(ledger, Recost(txs, tid, TotalsUpTo(txs, tid)).out);
            forall i | 0 <= i < |ledger| && (ledger[i].sku != sku || ledger[i].kind == Entry || ledger[i].id <= tid) ::
              l[i] == ledger[i]
  {
    var txs := AllTransactionsForSku(ledger, sku);
    RecostChangesOnlyLaterExitCosts(txs, tid, TotalsUpTo(txs, tid));
    WriteBackKeepsLines(ledger, txs, Recost(txs, tid, TotalsUpTo(txs, tid)).out, sku, tid);
  }

  /** Every line of another product, every entry and every line up to `tid` is written back unchanged. */
  lemma WriteBackKeepsLines(ledger: seq<Record>, txs: seq<Record>, out: seq<Record>, sku: string, tid: int)
    requires UniqueIds(ledger)
    requires |out| == |txs|
    requires forall r | r in txs :: r.sku == sku && r in ledger
    requires forall k | 0 <= k < |txs| && (txs[k].id <= tid || txs[k].kind == Entry) :: out[k] == txs[k]
    requires forall k | 0 <= k < |txs| :: out[k] == txs[k].(valorUnit := out[k].valorUnit)
    ensures |WriteBack(ledger, out)| == |ledger|
    ensures forall i | 0 <= i < |ledger| && (ledger[i].sku != sku || ledger[i].kind == Entry || ledger[i].id <= tid)
              :: WriteBack(ledger, out)[i] == ledger[i]
  {
    forall i | 0 <= i < |ledger| && (ledger[i].sku != sku || ledger[i].kind == Entry || ledger[i].id <= tid)
      ensures WriteBack(ledger, out)[i] == ledger[i]
    {
      WriteBackKeepsLine(ledger, txs, out, sku, tid, i);
    }
  }
}
