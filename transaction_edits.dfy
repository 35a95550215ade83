/**
 * `TransactionService.delete_transaction_with_validation` and
 * `update_transaction_with_validation`: the `"tipo-id"` reference parsed, the entry or exit row
 * looked up, the item's history replayed, then the ledger changed and, for an entry, the later
 * exits re-costed.
 */
module TransactionEdits {
  import opened Wrappers
  import opened PyText
  import opened Decimals
  import opened Dates
  import opened Models
  import opened TransactionService

  /**
   * `tipo, id_str = transaction_id.split('-')` then `int(id_str)`: exactly one '-', and an
   * integer after it; anything else is a `ValueError` (None).
   */
  function ParseTransactionId(s: string): (r: Option<(string, int)>)
    ensures r.Some? ==> '-' !in r.value.0
  {
    var parts := Split(s, '-');
    if |parts| != 2 then None
    else match ParseInt(parts[1])
      case None => None
      case Some(n) => Some((parts[0], n))
  }

  /** The references the interface builds, `tipo-id` with a non-negative id, parse back. */
  lemma ParseTransactionIdRoundTrip(kind: string, n: nat)
    requires '-' !in kind
    ensures ParseTransactionId(kind + "-" + IntToString(n)) == Some((kind, n))
  {
    var digits := IntToString(n);
    assert forall k | 0 <= k < |digits| :: IsDigit(digits[k]);
    assert '-' !in digits;
    assert kind + "-" + digits == kind + ['-'] + digits;
    SplitAfterPiece(kind, '-', digits);
    SplitNoSeparator(digits, '-');
    ParseIntOfIntToString(n);
  }

  /** A negative id brings a second '-', so the reference splits into three and is refused. */
  lemma NegativeIdRefused(kind: string, n: int)
    requires '-' !in kind && n < 0
    ensures ParseTransactionId(kind + "-" + IntToString(n)) == None
  {
    var digits := NatToString(-n);
    assert forall k | 0 <= k < |digits| :: IsDigit(digits[k]);
    assert '-' !in digits;
    assert kind + "-" + IntToString(n) == kind + ['-'] + ([] + ['-'] + digits);
    SplitAfterPiece(kind, '-', [] + ['-'] + digits);
    SplitAfterPiece([], '-', digits);
  }

  /** The position of the entry (`cod_entrada`) or exit (`cod_pedido`) row with key `code`. */
  function FindByCode(ledger: seq<Record>, kind: Kind, code: int): (k: Option<nat>)
    ensures k.Some? ==> k.value < |ledger| && ledger[k.value].kind == kind && ledger[k.value].code == code
    ensures k.None? ==> forall r | r in ledger :: r.kind != kind || r.code != code
  {
    if ledger == [] then None
    else if ledger[0].kind == kind && ledger[0].code == code then Some(0)
    else match FindByCode(ledger[1..], kind, code)
      case None => None
      case Some(k) => Some(k + 1)
  }

  /** The ledger without the line at `k`: the row and its transaction deleted. */
  function RemoveAt(ledger: seq<Record>, k: nat): (l: seq<Record>)
    requires k < |ledger|
    ensures |l| == |ledger| - 1
    ensures forall i | 0 <= i < k :: l[i] == ledger[i]
    ensures forall i | k <= i < |l| :: l[i] == ledger[i + 1]
    ensures UniqueIds(ledger) ==> UniqueIds(l) && forall r | r in l :: r.id != ledger[k].id
  {
    ledger[..k] + ledger[k + 1..]
  }

  /** Same lines in the same order, unit costs apart. */
  predicate SameButCosts(a: seq<Record>, b: seq<Record>) {
    |a| == |b| && forall i | 0 <= i < |a| :: a[i] == b[i].(valorUnit := a[i].valorUnit)
  }

  lemma SameButCostsKeepsUniqueIds(a: seq<Record>, b: seq<Record>)
    requires SameButCosts(a, b) && UniqueIds(b)
    ensures UniqueIds(a)
  {
    forall i, j | 0 <= i < j < |a|
      ensures a[i].id != a[j].id
    {
      assert a[i].id == b[i].id && a[j].id == b[j].id;
    }
  }

  /**
   * An entry deleted: its line removed, then the item's later exits re-costed from its
   * transaction id on.
   */
  function DeleteEntry(ledger: seq<Record>, k: nat): (l: seq<Record>)
    requires k < |ledger|
    ensures SameButCosts(l, RemoveAt(ledger, k))
    ensures UniqueIds(ledger) ==>
              && UniqueIds(l)
              && forall i | 0 <= i < |l| && (l[i].sku != ledger[k].sku || l[i].kind == Entry || l[i].id <= ledger[k].id) ::
                   l[i] == RemoveAt(ledger, k)[i]
  {
    var rest := RemoveAt(ledger, k);
    var l := Recalculation(rest, Some(ledger[k].id), ledger[k].sku).0;
    assert UniqueIds(ledger) ==>
             && UniqueIds(l)
             && forall i | 0 <= i < |l| && (l[i].sku != ledger[k].sku || l[i].kind == Entry || l[i].id <= ledger[k].id) ::
                  l[i] == rest[i]
    by {
      if UniqueIds(ledger) {
        RecalculationChangesOnlyLaterExitCosts(rest, ledger[k].id, ledger[k].sku);
        SameButCostsKeepsUniqueIds(l, rest);
      }
    }
    l
  }

  /**
   * An entry deleted as the code stands: `transacao.delete()` clears the instance's primary key,
   * so the recalculation receives None, fails at its first comparison, and the failure is
   * ignored.
   */
  function DeleteEntryAsWritten(ledger: seq<Record>, k: nat): seq<Record>
    requires k < |ledger|
  {
    Recalculation(RemoveAt(ledger, k), None, ledger[k].sku).0
  }

  /** As written, deleting an entry never re-costs anything: the later exits keep stale costs. */
  lemma DeleteEntryAsWrittenKeepsStaleCosts(ledger: seq<Record>, k: nat)
    requires k < |ledger|
    ensures DeleteEntryAsWritten(ledger, k) == RemoveAt(ledger, k)
  {
  }

  /**
   * An exit walked right after a single later entry is charged that entry's unit price, when the
   * price is whole cents and the entry brought stock in.
   */
  lemma ExitAfterOnlyEntry(e: Record, x: Record, tid: int)
    requires e.kind == Entry && x.kind == Exit && tid < e.id && tid < x.id
    requires e.quantidade > 0.0 && IsCents(e.valorUnit)
    ensures Recost([e, x], tid, TotalsUpTo([e, x], tid)).out == [e, x.(valorUnit := e.valorUnit)]
  {
    var txs := [e, x];
    TotalsBeforeEveryId(txs, tid);
    var t0 := TotalsUpTo(txs, tid);
    var w0 := Recost(txs[..0], tid, t0);
    assert w0 == Walk([], t0, 0);
    RecostSnoc(txs, tid, t0, 0);
    StepLaterEntry(w0, e, tid);
    var w1 := Recost(txs[..1], tid, t0);
    assert w1.out == [e];
    assert w1.totals == Totals(e.quantidade, e.quantidade * e.valorUnit, 0.0, 0.0);
    assert RunningAverage(w1.totals) == e.valorUnit;
    RecostSnoc(txs, tid, t0, 1);
    StepLaterExit(w1, x, tid);
    assert txs[..2] == txs;
  }

  /** Two lines of one item, in id order, are their own id-ordered transaction list. */
  lemma TwoInIdOrder(a: Record, b: Record, sku: string)
    requires a.sku == sku && b.sku == sku && a.id < b.id
    ensures AllTransactionsForSku([a, b], sku) == [a, b]
  {
    OfSkuPair(a, b, sku);
    PairInOrder(AllTransactionsForSku([a, b], sku), a, b);
  }

  lemma OfSkuPair(a: Record, b: Record, sku: string)
    requires a.sku == sku && b.sku == sku
    ensures OfSku([a, b], sku) == [a, b]
  {
    assert OfSku([b], sku) == [b] by {
      assert [b][1..] == [];
    }
    assert [a, b][1..] == [b];
  }

  /** The only id-ordered arrangement of two lines is the one with the smaller id first. */
  lemma PairInOrder(txs: seq<Record>, a: Record, b: Record)
    requires multiset(txs) == multiset([a, b]) && IdOrdered(txs) && a.id < b.id
    ensures txs == [a, b]
  {
    assert |txs| == 2 by {
      assert |multiset(txs)| == |txs|;
    }
    var x, y := txs[0], txs[1];
    assert txs == [x, y];
    assert x.id <= y.id;
    assert multiset([x, y]) == multiset([a, b]);
    assert x in multiset([a, b]) && y in multiset([a, b]);
    assert x == a && y == b;
  }

  /**
   * Entries of 10 at 5.00 and 10 at 7.00, then an exit of 5 charged their average 6.00. Deleting
   * the first entry leaves only the 7.00 stock behind the exit: re-costed, the exit costs 7.00;
   * as written, it keeps 6.00.
   */
  lemma DeleteEntryExample(today: Date)
    ensures var ledger := [Record(1, Entry, "P1", 10.0, 5.0, today, 1, None, None),
                           Record(2, Entry, "P1", 10.0, 7.0, today, 2, None, None),
                           Record(3, Exit, "P1", 5.0, 6.0, today, 1, None, None)];
            && DeleteEntry(ledger, 0)[1].valorUnit == 7.0
            && DeleteEntryAsWritten(ledger, 0)[1].valorUnit == 6.0
  {
    WholeIsCents(7);
    DeleteBeforeEntryAndExit(Record(1, Entry, "P1", 10.0, 5.0, today, 1, None, None),
                             Record(2, Entry, "P1", 10.0, 7.0, today, 2, None, None),
                             Record(3, Exit, "P1", 5.0, 6.0, today, 1, None, None));
  }

  /**
   * An entry deleted in front of one more entry and an exit of the same item: re-costed, the
   * exit takes the remaining entry's unit price; as written, it keeps its old cost.
   */
  lemma DeleteBeforeEntryAndExit(first: Record, e: Record, x: Record)
    requires first.kind == Entry && e.kind == Entry && x.kind == Exit
    requires first.sku == e.sku && e.sku == x.sku && first.id < e.id < x.id
    requires e.quantidade > 0.0 && IsCents(e.valorUnit)
    ensures DeleteEntry([first, e, x], 0) == [e, x.(valorUnit := e.valorUnit)]
    ensures DeleteEntryAsWritten([first, e, x], 0) == [e, x]
  {
    assert RemoveAt([first, e, x], 0) == [e, x];
    DeleteEntryAsWrittenKeepsStaleCosts([first, e, x], 0);
    RecostPair(first.id, e, x);
  }

  /** An entry and a later exit, re-costed from before both: the exit takes the entry's price. */
  lemma RecostPair(tid: int, e: Record, x: Record)
    requires e.kind == Entry && x.kind == Exit && e.sku == x.sku && tid < e.id < x.id
    requires e.quantidade > 0.0 && IsCents(e.valorUnit)
    ensures Recalculation([e, x], Some(tid), e.sku).0 == [e, x.(valorUnit := e.valorUnit)]
  {
    TwoInIdOrder(e, x, e.sku);
    ExitAfterOnlyEntry(e, x, tid);
    WriteBackPair(e, x, e.valorUnit);
  }

  /** Saving a re-costed pair back over the pair. */
  lemma WriteBackPair(e: Record, x: Record, cost: real)
    requires e.id != x.id
    ensures WriteBack([e, x], [e, x.(valorUnit := cost)]) == [e, x.(valorUnit := cost)]
  {
    var out := [e, x.(valorUnit := cost)];
    assert FindSame(out, e) == Some(e);
    assert FindSame(out, x) == Some(x.(valorUnit := cost)) by {
      assert out[1..] == [x.(valorUnit := cost)];
    }
  }

  /** What an edit may change; absent keys change nothing. */
  datatype Changes = Changes(quantity: Option<real>, unitCost: Option<real>, codNf: Option<Option<string>>, supplierId: Option<int>)

  /** `_update_entrada_transaction`: quantity, unit cost, invoice and supplier, each when given. */
  function EntryChanged(r: Record, ch: Changes): Record {
    r.(quantidade := ch.quantity.GetOr(r.quantidade),
       valorUnit := ch.unitCost.GetOr(r.valorUnit),
       codNf := ch.codNf.GetOr(r.codNf),
       supplier := if ch.supplierId.Some? then ch.supplierId else r.supplier)
  }

  /** `_update_saida_transaction`: quantity and unit cost only. */
  function ExitChanged(r: Record, ch: Changes): Record {
    r.(quantidade := ch.quantity.GetOr(r.quantidade), valorUnit := ch.unitCost.GetOr(r.valorUnit))
  }

  /** What the two operations report. */
  datatype Outcome =
    | Done
    | Rejected(sim: SimResult)
    | NotFound(kind: Kind)
    | InvalidFormat
    | UnknownType(name: string)
    | Failed

  /** The kind a reference's type names: "entrada" or "saida"; any other type is unknown. */
  function KindNamed(name: string): (k: Option<Kind>)
    ensures k == Some(Entry) <==> name == "entrada"
    ensures k == Some(Exit) <==> name == "saida"
  {
    if name == "entrada" then Some(Entry) else if name == "saida" then Some(Exit) else None
  }

  /** The replay a deletion of the entry at `k` must pass: the item's history without it. */
  function DeleteCheck(ledger: seq<Record>, k: nat): (v: SimResult)
    requires k < |ledger|
    ensures !v.valid ==> v.failedId.Some?
  {
    ValidateStockAfterOperation(ledger, ledger[k].sku, Delete, Some(ledger[k].id), None)
  }

  /**
   * `l` is `ledger` after deleting the row of that type and code: the row exists and, for an
   * entry, the replay without it passed before it was removed and the later exits re-costed;
   * an exit is removed as it is.
   */
  predicate DeletedRow(l: seq<Record>, ledger: seq<Record>, kind: Kind, dbId: int) {
    && FindByCode(ledger, kind, dbId).Some?
    && var k := FindByCode(ledger, kind, dbId).value;
       if kind == Entry then DeleteCheck(ledger, k).valid && l == DeleteEntry(ledger, k)
       else l == RemoveAt(ledger, k)
  }

  /**
   * `delete_transaction_with_validation`: a malformed reference, a missing row or an unknown
   * type changes nothing; an entry is deleted only when the replay without it never goes
   * negative, and the later exits are then re-costed; an exit is deleted without a check.
   */
  function Deletion(ledger: seq<Record>, s: string): (r: (seq<Record>, Outcome))
    ensures r.1 != Done ==> r.0 == ledger
    ensures r.1 == Done ==> |r.0| == |ledger| - 1
    ensures r.1.Rejected? ==> !r.1.sim.valid && r.1.sim.failedId.Some?
    ensures UniqueIds(ledger) ==> UniqueIds(r.0)
    ensures ParseTransactionId(s).None? ==> r == (ledger, InvalidFormat)
    ensures r.1 == Done <==>
              && ParseTransactionId(s).Some?
              && KindNamed(ParseTransactionId(s).value.0).Some?
              && DeletedRow(r.0, ledger, KindNamed(ParseTransactionId(s).value.0).value, ParseTransactionId(s).value.1)
  {
    match ParseTransactionId(s)
    case None => (ledger, InvalidFormat)
    case Some((kind, dbId)) => DeletionOfKind(ledger, kind, dbId)
  }

  /** A deletion once the reference is parsed: the row of that type looked up, then deleted. */
  function DeletionOfKind(ledger: seq<Record>, kind: string, dbId: int): (r: (seq<Record>, Outcome))
    ensures r.1 != Done ==> r.0 == ledger
    ensures r.1 == Done ==> |r.0| == |ledger| - 1
    ensures r.1.Rejected? ==> !r.1.sim.valid && r.1.sim.failedId.Some?
    ensures UniqueIds(ledger) ==> UniqueIds(r.0)
    ensures KindNamed(kind).None? ==> r == (ledger, UnknownType(kind))
    ensures KindNamed(kind).Some? && FindByCode(ledger, KindNamed(kind).value, dbId).None? ==>
              r == (ledger, NotFound(KindNamed(kind).value))
    ensures r.1 == Done <==> KindNamed(kind).Some? && DeletedRow(r.0, ledger, KindNamed(kind).value, dbId)
    ensures r.1.Rejected? ==>
              && kind == "entrada" && FindByCode(ledger, Entry, dbId).Some?
              && r.1.sim == DeleteCheck(ledger, FindByCode(ledger, Entry, dbId).value)
    ensures kind == "saida" && FindByCode(ledger, Exit, dbId).Some? ==> r.1 == Done
  {
    if kind == "entrada" then
      match FindByCode(ledger, Entry, dbId)
      case None => (ledger, NotFound(Entry))
      case Some(k) => EntryDeletion(ledger, k)
    else if kind == "saida" then
      match FindByCode(ledger, Exit, dbId)
      case None => (ledger, NotFound(Exit))
      case Some(k) => (RemoveAt(ledger, k), Done)
    else (ledger, UnknownType(kind))
  }

  /** The entry at `k` deleted once the replay without it passes. */
  function EntryDeletion(ledger: seq<Record>, k: nat): (r: (seq<Record>, Outcome))
    requires k < |ledger|
    ensures r.1 != Done ==> r.0 == ledger
    ensures r.1 == Done ==> |r.0| == |ledger| - 1
    ensures r.1.Rejected? ==> !r.1.sim.valid && r.1.sim.failedId.Some?
    ensures UniqueIds(ledger) ==> UniqueIds(r.0)
    ensures r.1 == Done <==> DeleteCheck(ledger, k).valid
    ensures r.1 == Done ==> r.0 == DeleteEntry(ledger, k)
    ensures r.1 != Done ==> r.1 == Rejected(DeleteCheck(ledger, k))
  {
    var v := DeleteCheck(ledger, k);
    if !v.valid then (ledger, Rejected(v)) else (DeleteEntry(ledger, k), Done)
  }

  /** The lines agree everywhere but at `k`, unit costs apart. */
  predicate EditedAt(l: seq<Record>, ledger: seq<Record>, k: nat, quantidade: real) {
    && |l| == |ledger| && k < |ledger|
    && l[k].id == ledger[k].id
    && l[k].quantidade == quantidade
    && forall i | 0 <= i < |ledger| && i != k :: l[i] == ledger[i].(valorUnit := l[i].valorUnit)
  }

  /** Re-costing touches unit costs only, whatever the ids. */
  lemma RecalculationSameButCosts(ledger: seq<Record>, tid: Option<int>, sku: string)
    ensures SameButCosts(Recalculation(ledger, tid, sku).0, ledger)
  {
    if tid.Some? {
      var txs := AllTransactionsForSku(ledger, sku);
      var w := Recost(txs, tid.value, TotalsUpTo(txs, tid.value));
      assert Recalculation(ledger, tid, sku).0 == WriteBack(ledger, w.out);
    }
  }

  /**
   * An entry edited: the line changed, then the item's later exits re-costed from it. With
   * unique ids the edited line is exactly the changed entry, and only unit values of the item's
   * exits after it differ from the ledger.
   */
  function EditEntry(ledger: seq<Record>, k: nat, ch: Changes): (l: seq<Record>)
    requires k < |ledger|
    ensures EditedAt(l, ledger, k, ch.quantity.GetOr(ledger[k].quantidade))
    ensures UniqueIds(ledger) ==> UniqueIds(l)
    ensures UniqueIds(ledger) ==> l[k] == EntryChanged(ledger[k], ch)
    ensures UniqueIds(ledger) ==>
              forall i | 0 <= i < |ledger| && i != k && (ledger[i].sku != ledger[k].sku || ledger[i].kind == Entry || ledger[i].id <= ledger[k].id) ::
                l[i] == ledger[i]
  {
    var rec := ledger[k];
    var edited := ledger[k := EntryChanged(rec, ch)];
    var l := Recalculation(edited, Some(rec.id), rec.sku).0;
    assert SameButCosts(l, edited) by {
      RecalculationSameButCosts(edited, Some(rec.id), rec.sku);
    }
    assert EditedAt(l, ledger, k, ch.quantity.GetOr(ledger[k].quantidade)) by {
      assert l[k] == edited[k].(valorUnit := l[k].valorUnit);
      forall i | 0 <= i < |ledger| && i != k
        ensures l[i] == ledger[i].(valorUnit := l[i].valorUnit)
      {
        assert l[i] == edited[i].(valorUnit := l[i].valorUnit) && edited[i] == ledger[i];
      }
    }
    assert UniqueIds(ledger) ==> UniqueIds(l) by {
      if UniqueIds(ledger) {
        forall i, j | 0 <= i < j < |l|
          ensures l[i].id != l[j].id
        {
          assert l[i].id == ledger[i].id && l[j].id == ledger[j].id;
        }
      }
    }
    assert UniqueIds(ledger) ==> EditKeepsOthers(l, ledger, edited, k) by {
      if UniqueIds(ledger) {
        EditEntryKeepsOthers(ledger, k, ch);
      }
    }
    l
  }

  /** Every line of `l` is the line of `edited`, except the item's exits after line `k`. */
  predicate EditKeepsOthers(l: seq<Record>, ledger: seq<Record>, edited: seq<Record>, k: nat)
    requires k < |ledger| && |l| == |ledger| && |edited| == |ledger|
  {
    && l[k] == edited[k]
    && forall i | 0 <= i < |ledger| && i != k && (ledger[i].sku != ledger[k].sku || ledger[i].kind == Entry || ledger[i].id <= ledger[k].id) ::
         l[i] == edited[i]
  }

  /** The re-costing that follows an entry edit leaves the edited line and the other lines alone. */
  lemma EditEntryKeepsOthers(ledger: seq<Record>, k: nat, ch: Changes)
    requires k < |ledger| && UniqueIds(ledger)
    ensures EditKeepsOthers(Recalculation(ledger[k := EntryChanged(ledger[k], ch)], Some(ledger[k].id), ledger[k].sku).0,
                            ledger, ledger[k := EntryChanged(ledger[k], ch)], k)
  {
    var rec := ledger[k];
    var edited := ledger[k := EntryChanged(rec, ch)];
    assert UniqueIds(edited) by {
      assert forall i | 0 <= i < |edited| :: edited[i].id == ledger[i].id;
    }
    var l := Recalculation(edited, Some(rec.id), rec.sku).0;
    RecalculationChangesOnlyLaterExitCosts(edited, rec.id, rec.sku);
    assert l[k] == edited[k] by {
      assert edited[k].id <= rec.id;
    }
    forall i | 0 <= i < |ledger| && i != k && (ledger[i].sku != rec.sku || ledger[i].kind == Entry || ledger[i].id <= rec.id)
      ensures l[i] == edited[i]
    {
      assert edited[i] == ledger[i];
    }
  }


  /** An exit edited: the line changed, nothing re-costed. */
  function EditExit(ledger: seq<Record>, k: nat, ch: Changes): (l: seq<Record>)
    requires k < |ledger|
    ensures EditedAt(l, ledger, k, ch.quantity.GetOr(ledger[k].quantidade))
    ensures UniqueIds(ledger) ==> UniqueIds(l)
    ensures l == ledger[k := ExitChanged(ledger[k], ch)]
  {
    var l := ledger[k := ExitChanged(ledger[k], ch)];
    assert forall i | 0 <= i < |l| :: l[i].id == ledger[i].id;
    l
  }

  /** The replay an edit of the line at `k` must pass: its quantity replaced by the new one. */
  function EditCheck(ledger: seq<Record>, k: nat, ch: Changes): (v: SimResult)
    requires k < |ledger|
    ensures !v.valid ==> v.failedId.Some?
  {
    ValidateStockAfterOperation(ledger, ledger[k].sku, Edit, Some(ledger[k].id), Some(ch.quantity.GetOr(ledger[k].quantidade)))
  }

  /**
   * Whether an update of the row of that type and code goes ahead: the row exists, the replay
   * with its new quantity passes, and a new supplier of an entry exists.
   */
  predicate UpdateAllowed(ledger: seq<Record>, suppliers: set<int>, kind: Kind, dbId: int, ch: Changes) {
    && FindByCode(ledger, kind, dbId).Some?
    && EditCheck(ledger, FindByCode(ledger, kind, dbId).value, ch).valid
    && (kind == Entry && ch.supplierId.Some? ==> ch.supplierId.value in suppliers)
  }

  /** The ledger once the row at `k` is edited: an entry's later exits are re-costed, an exit's are not. */
  function Edited(ledger: seq<Record>, kind: Kind, k: nat, ch: Changes): seq<Record>
    requires k < |ledger|
  {
    if kind == Entry then EditEntry(ledger, k, ch) else EditExit(ledger, k, ch)
  }

  /**
   * `update_transaction_with_validation`: the row found, the item's history replayed with the
   * new quantity (or the old one), and only then the line changed; an entry's later exits are
   * re-costed, an exit's are not. A malformed reference, a missing row or a missing supplier is
   * a failure that changes nothing.
   */
  function Updating(ledger: seq<Record>, suppliers: set<int>, s: string, ch: Changes): (r: (seq<Record>, Outcome))
    ensures r.1 != Done ==> r.0 == ledger
    ensures |r.0| == |ledger|
    ensures r.1.Rejected? ==> !r.1.sim.valid && r.1.sim.failedId.Some?
    ensures UniqueIds(ledger) ==> UniqueIds(r.0)
    ensures r.1 == Done ==> exists k | 0 <= k < |ledger| :: EditedAt(r.0, ledger, k, ch.quantity.GetOr(ledger[k].quantidade))
    ensures ParseTransactionId(s).None? ==> r == (ledger, Failed)
    ensures r.1 == Done <==>
              && ParseTransactionId(s).Some?
              && KindNamed(ParseTransactionId(s).value.0).Some?
              && UpdateAllowed(ledger, suppliers, KindNamed(ParseTransactionId(s).value.0).value, ParseTransactionId(s).value.1, ch)
    ensures r.1 == Done ==>
              && ParseTransactionId(s).Some?
              && KindNamed(ParseTransactionId(s).value.0).Some?
              && var kind := KindNamed(ParseTransactionId(s).value.0).value;
                 && FindByCode(ledger, kind, ParseTransactionId(s).value.1).Some?
                 && r.0 == Edited(ledger, kind, FindByCode(ledger, kind, ParseTransactionId(s).value.1).value, ch)
  {
    match ParseTransactionId(s)
    case None => (ledger, Failed)
    case Some((kind, dbId)) => UpdateOfKind(ledger, suppliers, kind, dbId, ch)
  }

  /** An update once the reference is parsed: the row of that type looked up, then edited. */
  function UpdateOfKind(ledger: seq<Record>, suppliers: set<int>, kind: string, dbId: int, ch: Changes): (r: (seq<Record>, Outcome))
    ensures r.1 != Done ==> r.0 == ledger
    ensures r.1.Rejected? ==> !r.1.sim.valid && r.1.sim.failedId.Some?
    ensures UniqueIds(ledger) ==> UniqueIds(r.0)
    ensures r.1 == Done ==> exists k | 0 <= k < |ledger| :: EditedAt(r.0, ledger, k, ch.quantity.GetOr(ledger[k].quantidade))
    ensures KindNamed(kind).None? ==> r == (ledger, UnknownType(kind))
    ensures r.1 == Done <==> KindNamed(kind).Some? && UpdateAllowed(ledger, suppliers, KindNamed(kind).value, dbId, ch)
    ensures r.1 == Done ==>
              && KindNamed(kind).Some?
              && FindByCode(ledger, KindNamed(kind).value, dbId).Some?
              && r.0 == Edited(ledger, KindNamed(kind).value, FindByCode(ledger, KindNamed(kind).value, dbId).value, ch)
    ensures r.1.Rejected? ==>
              && KindNamed(kind).Some?
              && FindByCode(ledger, KindNamed(kind).value, dbId).Some?
              && r.1.sim == EditCheck(ledger, FindByCode(ledger, KindNamed(kind).value, dbId).value, ch)
  {
    if kind == "entrada" then
      match FindByCode(ledger, Entry, dbId)
      case None => (ledger, Failed)
      case Some(k) => EntryUpdate(ledger, suppliers, k, ch)
    else if kind == "saida" then
      match FindByCode(ledger, Exit, dbId)
      case None => (ledger, Failed)
      case Some(k) => ExitUpdate(ledger, k, ch)
    else (ledger, UnknownType(kind))
  }

  /** The entry at `k` updated: the replay first, then the supplier looked up, then the edit. */
  function EntryUpdate(ledger: seq<Record>, suppliers: set<int>, k: nat, ch: Changes): (r: (seq<Record>, Outcome))
    requires k < |ledger|
    ensures r.1 != Done ==> r.0 == ledger
    ensures r.1 == Done ==> EditedAt(r.0, ledger, k, ch.quantity.GetOr(ledger[k].quantidade))
    ensures r.1 == Done ==> EditCheck(ledger, k, ch).valid
    ensures r.1.Rejected? ==> !r.1.sim.valid && r.1.sim.failedId.Some?
    ensures UniqueIds(ledger) ==> UniqueIds(r.0)
    ensures r.1 == Done <==> EditCheck(ledger, k, ch).valid && (ch.supplierId.Some? ==> ch.supplierId.value in suppliers)
    ensures r.1 == Done ==> r.0 == EditEntry(ledger, k, ch)
    ensures r.1.Rejected? ==> r.1.sim == EditCheck(ledger, k, ch)
  {
    var v := EditCheck(ledger, k, ch);
    if !v.valid then (ledger, Rejected(v))
    else if ch.supplierId.Some? && ch.supplierId.value !in suppliers then (ledger, Failed)
    else (EditEntry(ledger, k, ch), Done)
  }

  /** The exit at `k` updated: the replay first, then the edit. */
  function ExitUpdate(ledger: seq<Record>, k: nat, ch: Changes): (r: (seq<Record>, Outcome))
    requires k < |ledger|
    ensures r.1 != Done ==> r.0 == ledger
    ensures r.1 == Done ==> EditedAt(r.0, ledger, k, ch.quantity.GetOr(ledger[k].quantidade))
    ensures r.1 == Done ==> EditCheck(ledger, k, ch).valid
    ensures r.1.Rejected? ==> !r.1.sim.valid && r.1.sim.failedId.Some?
    ensures UniqueIds(ledger) ==> UniqueIds(r.0)
    ensures r.1 == Done <==> EditCheck(ledger, k, ch).valid
    ensures r.1 == Done ==> r.0 == EditExit(ledger, k, ch)
    ensures r.1 != Done ==> r.1 == Rejected(EditCheck(ledger, k, ch))
  {
    var v := EditCheck(ledger, k, ch);
    if !v.valid then (ledger, Rejected(v)) else (EditExit(ledger, k, ch), Done)
  }

  /** The transaction tables of the inventory, as the edit operations change them. */
  class Inventory {
    var ledger: seq<Record>
    var suppliers: set<int>

    predicate Valid()
      reads this
    {
      UniqueIds(ledger)
    }

    constructor (ledger0: seq<Record>, suppliers0: set<int>)
      requires UniqueIds(ledger0)
      ensures Valid() && ledger == ledger0 && suppliers == suppliers0
    {
      ledger := ledger0;
      suppliers := suppliers0;
    }

    /** `validate_stock_after_operation` on the current ledger. */
    method ValidateStockAfterOperation(sku: string, op: Operation, tid: Option<int>, newQty: Option<real>)
      returns (r: SimResult)
      ensures r == TransactionService.ValidateStockAfterOperation(ledger, sku, op, tid, newQty)
    {
      var txs := AllTransactionsForSku(ledger, sku);
      var valid, stock, failedId := SimulateStockAfterOperation(txs, op, tid, newQty);
      r := SimResult(valid, stock, failedId);
    }

    /**
     * `recalculate_subsequent_costs`: the running sums up to `tid`, then the later exits
     * rewritten in place and saved.
     */
    method RecalculateSubsequentCosts(tid: Option<int>, sku: string) returns (r: RecalcResult)
      requires Valid()
      modifies this
      ensures Valid()
      ensures (ledger, r) == Recalculation(old(ledger), tid, sku)
      ensures suppliers == old(suppliers)
    {
      var txs := AllTransactionsForSku(ledger, sku);
      if tid.None? {
        r := if txs == [] then Recalculated(0) else RecalcFailed;
        return;
      }
      ghost var before := ledger;
      var out, count := RecostFrom(txs, tid.value);
      ledger := WriteBack(ledger, out);
      r := Recalculated(count);
      RecalculationSameButCosts(before, tid, sku);
      SameButCostsKeepsUniqueIds(ledger, before);
    }

    /** `delete_transaction_with_validation`. */
    method DeleteTransactionWithValidation(transactionId: string) returns (r: Outcome)
      requires Valid()
      modifies this
      ensures Valid()
      ensures (ledger, r) == Deletion(old(ledger), transactionId)
      ensures suppliers == old(suppliers)
    {
      var parsed := ParseTransactionId(transactionId);
      if parsed.None? {
        return InvalidFormat;
      }
      var (kind, dbId) := parsed.value;
      r := DeleteOfKind(kind, dbId);
    }

    /** `delete_transaction_with_validation` after the reference is split. */
    method DeleteOfKind(kind: string, dbId: int) returns (r: Outcome)
      requires Valid()
      modifies this
      ensures Valid()
      ensures (ledger, r) == DeletionOfKind(old(ledger), kind, dbId)
      ensures suppliers == old(suppliers)
    {
      if kind == "entrada" {
        var k := FindByCode(ledger, Entry, dbId);
        if k.None? {
          return NotFound(Entry);
        }
        r := DeleteEntryRow(k.value);
      } else if kind == "saida" {
        var k := FindByCode(ledger, Exit, dbId);
        if k.None? {
          return NotFound(Exit);
        }
        ledger := RemoveAt(ledger, k.value);
        r := Done;
      } else {
        return UnknownType(kind);
      }
    }

    /** The entry branch of `delete_transaction_with_validation`: replay, delete, re-cost. */
    method DeleteEntryRow(k: nat) returns (r: Outcome)
      requires Valid() && k < |ledger|
      modifies this
      ensures Valid()
      ensures (ledger, r) == EntryDeletion(old(ledger), k)
      ensures suppliers == old(suppliers)
    {
      var transacao := ledger[k];
      var validation := ValidateStockAfterOperation(transacao.sku, Delete, Some(transacao.id), None);
      if !validation.valid {
        return Rejected(validation);
      }
      ghost var before := ledger;
      ledger := RemoveAt(ledger, k);
      var _ := RecalculateSubsequentCosts(Some(transacao.id), transacao.sku);
      assert ledger == DeleteEntry(before, k);
      r := Done;
    }

    /** `update_transaction_with_validation`. */
    method UpdateTransactionWithValidation(transactionId: string, ch: Changes) returns (r: Outcome)
      requires Valid()
      modifies this
      ensures Valid()
      ensures (ledger, r) == Updating(old(ledger), old(suppliers), transactionId, ch)
      ensures suppliers == old(suppliers)
    {
      var parsed := ParseTransactionId(transactionId);
      if parsed.None? {
        return Failed;
      }
      var (kind, dbId) := parsed.value;
      if kind == "entrada" {
        var k := FindByCode(ledger, Entry, dbId);
        if k.None? {
          return Failed;
        }
        r := UpdateEntry(k.value, ch);
      } else if kind == "saida" {
        var k := FindByCode(ledger, Exit, dbId);
        if k.None? {
          return Failed;
        }
        r := UpdateExit(k.value, ch);
      } else {
        return UnknownType(kind);
      }
    }

    /** `_update_entrada_transaction` behind its replay and its supplier lookup. */
    method UpdateEntry(k: nat, ch: Changes) returns (r: Outcome)
      requires Valid() && k < |ledger|
      modifies this
      ensures Valid()
      ensures (ledger, r) == EntryUpdate(old(ledger), old(suppliers), k, ch)
      ensures suppliers == old(suppliers)
    {
      var transacao := ledger[k];
      var validation := ValidateStockAfterOperation(transacao.sku, Edit, Some(transacao.id),
                                                    Some(ch.quantity.GetOr(transacao.quantidade)));
      assert validation == EditCheck(ledger, k, ch);
      if !validation.valid {
        return Rejected(validation);
      }
      if ch.supplierId.Some? && ch.supplierId.value !in suppliers {
        return Failed;
      }
      ghost var before := ledger;
      ledger := ledger[k := EntryChanged(transacao, ch)];
      assert forall i | 0 <= i < |ledger| :: ledger[i].id == before[i].id;
      var _ := RecalculateSubsequentCosts(Some(transacao.id), transacao.sku);
      assert ledger == EditEntry(before, k, ch);
      r := Done;
    }

    /** `_update_saida_transaction` behind its replay. */
    method UpdateExit(k: nat, ch: Changes) returns (r: Outcome)
      requires Valid() && k < |ledger|
      modifies this
      ensures Valid()
      ensures (ledger, r) == ExitUpdate(old(ledger), k, ch)
      ensures suppliers == old(suppliers)
    {
      var transacao := ledger[k];
      var validation := ValidateStockAfterOperation(transacao.sku, Edit, Some(transacao.id),
                                                    Some(ch.quantity.GetOr(transacao.quantidade)));
      assert validation == EditCheck(ledger, k, ch);
      if !validation.valid {
        return Rejected(validation);
      }
      ledger := ledger[k := ExitChanged(transacao, ch)];
      assert ledger == EditExit(old(ledger), k, ch);
      r := Done;
    }
  }

  /** The HTTP status the delete and update views answer for an outcome: 200 on success, 400 otherwise. */
  function StatusOf(o: Outcome): (code: int)
    ensures code == 200 <==> o == Done
    ensures code == 200 || code == 400
  {
    if o == Done then 200 else 400
  }

  /**
   * The `delete_transaction` view as written: `TransactionService` has no
   * `delete_transaction_with_validation`, since that method is indented under `UserService`, so
   * the lookup raises `AttributeError` and the view answers 500 with the ledger untouched.
   */
  function DeleteViewAsWritten(ledger: seq<Record>, s: string): (seq<Record>, int) {
    (ledger, 500)
  }

  /** The `update_transaction` view as written: the same `AttributeError`, the same 500. */
  function UpdateViewAsWritten(ledger: seq<Record>, suppliers: set<int>, s: string, ch: Changes): (seq<Record>, int) {
    (ledger, 500)
  }

  /** The `delete_transaction` view with the method found on `TransactionService`. */
  function DeleteView(ledger: seq<Record>, s: string): (r: (seq<Record>, int))
    ensures r.1 == 200 <==> Deletion(ledger, s).1 == Done
    ensures r.1 == 200 || r.1 == 400
    ensures r.0 == Deletion(ledger, s).0
  {
    var (l, o) := Deletion(ledger, s);
    (l, StatusOf(o))
  }

  /** The `update_transaction` view with the method found on `TransactionService`. */
  function UpdateView(ledger: seq<Record>, suppliers: set<int>, s: string, ch: Changes): (r: (seq<Record>, int))
    ensures r.1 == 200 <==> Updating(ledger, suppliers, s, ch).1 == Done
    ensures r.1 == 200 || r.1 == 400
    ensures r.0 == Updating(ledger, suppliers, s, ch).0
  {
    var (l, o) := Updating(ledger, suppliers, s, ch);
    (l, StatusOf(o))
  }

  /** The reference of an exit reads back as its type and code. */
  lemma ExitReference(code: nat)
    ensures ParseTransactionId("saida" + "-" + IntToString(code)) == Some(("saida", code))
  {
    ParseTransactionIdRoundTrip("saida", code);
  }

  /**
   * Deleting any existing exit by its reference: as written the view answers 500 and keeps the
   * row; with the method found it answers 200 and the ledger loses one row.
   */
  lemma ExitDeleteViewAsWrittenFails(ledger: seq<Record>, k: nat)
    requires k < |ledger| && ledger[k].kind == Exit && ledger[k].code >= 0
    ensures DeleteViewAsWritten(ledger, "saida" + "-" + IntToString(ledger[k].code)) == (ledger, 500)
    ensures DeleteView(ledger, "saida" + "-" + IntToString(ledger[k].code)).1 == 200
    ensures |DeleteView(ledger, "saida" + "-" + IntToString(ledger[k].code)).0| == |ledger| - 1
  {
    var code := ledger[k].code;
    var s := "saida" + "-" + IntToString(code);
    ExitReference(code);
    assert ledger[k] in ledger;
    assert FindByCode(ledger, Exit, code).Some?;
    var r := DeletionOfKind(ledger, "saida", code);
    assert r.1 == Done;
    assert Deletion(ledger, s) == r;
  }

  /** An exit found by its code whose replay passes is edited. */
  lemma ExitUpdateGoesAhead(ledger: seq<Record>, suppliers: set<int>, k: nat, ch: Changes)
    requires k < |ledger| && FindByCode(ledger, Exit, ledger[k].code) == Some(k)
    requires EditCheck(ledger, k, ch).valid
    ensures UpdateOfKind(ledger, suppliers, "saida", ledger[k].code, ch) == (EditExit(ledger, k, ch), Done)
  {
    assert ExitUpdate(ledger, k, ch) == (EditExit(ledger, k, ch), Done);
  }

  /**
   * Updating an exit found by its code, with changes whose replay passes: as
   * written the view answers 500; with the method found it answers 200.
   */
  lemma ExitUpdateViewAsWrittenFails(ledger: seq<Record>, suppliers: set<int>, k: nat, ch: Changes)
    requires k < |ledger| && ledger[k].kind == Exit && ledger[k].code >= 0
    requires FindByCode(ledger, Exit, ledger[k].code) == Some(k)
    requires EditCheck(ledger, k, ch).valid
    ensures UpdateViewAsWritten(ledger, suppliers, "saida" + "-" + IntToString(ledger[k].code), ch) == (ledger, 500)
    ensures UpdateView(ledger, suppliers, "saida" + "-" + IntToString(ledger[k].code), ch).1 == 200
    ensures UpdateView(ledger, suppliers, "saida" + "-" + IntToString(ledger[k].code), ch).0 == ledger[k := ExitChanged(ledger[k], ch)]
  {
    var s := "saida" + "-" + IntToString(ledger[k].code);
    ExitReference(ledger[k].code);
    ExitUpdateGoesAhead(ledger, suppliers, k, ch);
    assert Updating(ledger, suppliers, s, ch) == UpdateOfKind(ledger, suppliers, "saida", ledger[k].code, ch);
  }
}
