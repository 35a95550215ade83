/**
 * `StockService`: stock on hand, weighted-average cost, last entry cost and the consumption
 * estimate of an item, each a fold over the ledger up to a date; and the stock list built from
 * them, filtered and ordered.
 */
module StockService {
  import opened Wrappers
  import opened PyText
  import opened Decimals
  import opened Dates
  import opened Sorting
  import opened Models

  /** The months and days of exits that define recent consumption. */
  const ConsumptionMonths := 3
  const ConsumptionDays := 90

  /** A ledger line of this item and kind dated on or before `upTo` (any date when None). */
  predicate Counts(r: Record, sku: string, kind: Kind, upTo: Option<Date>) {
    r.sku == sku && r.kind == kind && (upTo.None? || DateLe(r.date, upTo.value))
  }

  /** `Sum('quantidade')` over the lines `p` selects, 0 when there are none. */
  function SumQty(rs: seq<Record>, p: Record -> bool): real {
    if rs == [] then 0.0 else (if p(rs[0]) then rs[0].quantidade else 0.0) + SumQty(rs[1..], p)
  }

  /** `Sum(F('quantidade') * F('valor_unit'))` over the lines `p` selects, 0 when there are none. */
  function SumValue(rs: seq<Record>, p: Record -> bool): real {
    if rs == [] then 0.0
    else (if p(rs[0]) then rs[0].quantidade * rs[0].valorUnit else 0.0) + SumValue(rs[1..], p)
  }

  lemma {:induction false} SumsAppend(rs: seq<Record>, r: Record, p: Record -> bool)
    ensures SumQty(rs + [r], p) == SumQty(rs, p) + (if p(r) then r.quantidade else 0.0)
    ensures SumValue(rs + [r], p) == SumValue(rs, p) + (if p(r) then r.quantidade * r.valorUnit else 0.0)
  {
    if rs != [] {
      assert (rs + [r])[1..] == rs[1..] + [r];
      SumsAppend(rs[1..], r, p);
    }
  }

  lemma {:induction false} SumsOfNothing(rs: seq<Record>, p: Record -> bool)
    requires forall r | r in rs :: !p(r)
    ensures SumQty(rs, p) == 0.0 && SumValue(rs, p) == 0.0
  {
    if rs != [] {
      SumsOfNothing(rs[1..], p);
    }
  }

  /** Two selections that agree on every line of the ledger give the same sums. */
  lemma {:induction false} SumsSameSelection(rs: seq<Record>, p: Record -> bool, q: Record -> bool)
    requires forall r | r in rs :: p(r) == q(r)
    ensures SumQty(rs, p) == SumQty(rs, q) && SumValue(rs, p) == SumValue(rs, q)
  {
    if rs != [] {
      SumsSameSelection(rs[1..], p, q);
    }
  }

  /** Every selected line priced within [lo, hi] with a non-negative quantity bounds the value. */
  lemma SumValueBounds(rs: seq<Record>, p: Record -> bool, lo: real, hi: real)
    requires forall r | r in rs && p(r) :: r.quantidade >= 0.0 && lo <= r.valorUnit <= hi
    ensures lo * SumQty(rs, p) <= SumValue(rs, p) <= hi * SumQty(rs, p)
    ensures SumQty(rs, p) >= 0.0
  {
    SumQtyNonNegative(rs, p);
    SumValueAtLeast(rs, p, lo);
    SumValueAtMost(rs, p, hi);
  }

  lemma {:induction false} SumQtyNonNegative(rs: seq<Record>, p: Record -> bool)
    requires forall r | r in rs && p(r) :: r.quantidade >= 0.0
    ensures SumQty(rs, p) >= 0.0
  {
    if rs != [] {
      assert rs[0] in rs;
      SumQtyNonNegative(rs[1..], p);
    }
  }

  lemma {:induction false} SumValueAtLeast(rs: seq<Record>, p: Record -> bool, lo: real)
    requires forall r | r in rs && p(r) :: r.quantidade >= 0.0 && lo <= r.valorUnit
    ensures lo * SumQty(rs, p) <= SumValue(rs, p)
  {
    if rs != [] {
      SumValueAtLeast(rs[1..], p, lo);
      var q := if p(rs[0]) then rs[0].quantidade else 0.0;
      var v := if p(rs[0]) then rs[0].quantidade * rs[0].valorUnit else 0.0;
      assert lo * q <= v by {
        if p(rs[0]) {
          assert rs[0] in rs;
          assert q * (rs[0].valorUnit - lo) >= 0.0;
        }
      }
      AddLower(q, v, SumQty(rs[1..], p), SumValue(rs[1..], p), lo, SumQty(rs, p), SumValue(rs, p));
    }
  }

  lemma {:induction false} SumValueAtMost(rs: seq<Record>, p: Record -> bool, hi: real)
    requires forall r | r in rs && p(r) :: r.quantidade >= 0.0 && r.valorUnit <= hi
    ensures SumValue(rs, p) <= hi * SumQty(rs, p)
  {
    if rs != [] {
      SumValueAtMost(rs[1..], p, hi);
      var q := if p(rs[0]) then rs[0].quantidade else 0.0;
      var v := if p(rs[0]) then rs[0].quantidade * rs[0].valorUnit else 0.0;
      assert v <= hi * q by {
        if p(rs[0]) {
          assert rs[0] in rs;
          assert q * (hi - rs[0].valorUnit) >= 0.0;
        }
      }
      AddLower(-q, -v, -SumQty(rs[1..], p), -SumValue(rs[1..], p), hi, -SumQty(rs, p), -SumValue(rs, p));
    }
  }

  /** Two lower bounds at the same rate add up. */
  lemma AddLower(q: real, v: real, qs: real, vs: real, rate: real, total: real, value: real)
    requires rate * q <= v && rate * qs <= vs
    requires total == q + qs && value == v + vs
    ensures rate * total <= value
  {
    assert rate * (q + qs) == rate * q + rate * qs;
  }

  function EntryQty(ledger: seq<Record>, sku: string, upTo: Option<Date>): real {
    SumQty(ledger, r => Counts(r, sku, Entry, upTo))
  }

  function ExitQty(ledger: seq<Record>, sku: string, upTo: Option<Date>): real {
    SumQty(ledger, r => Counts(r, sku, Exit, upTo))
  }

  function EntryValue(ledger: seq<Record>, sku: string, upTo: Option<Date>): real {
    SumValue(ledger, r => Counts(r, sku, Entry, upTo))
  }

  function ExitValue(ledger: seq<Record>, sku: string, upTo: Option<Date>): real {
    SumValue(ledger, r => Counts(r, sku, Exit, upTo))
  }

  /** `calculate_stock_quantity`: entries minus exits of the item dated on or before `upTo`. */
  function StockQuantity(ledger: seq<Record>, sku: string, upTo: Option<Date>): real {
    EntryQty(ledger, sku, upTo) - ExitQty(ledger, sku, upTo)
  }

  /** The value of the stock: entries' value minus exits' value up to the date. */
  function NetValue(ledger: seq<Record>, sku: string, upTo: Option<Date>): real {
    EntryValue(ledger, sku, upTo) - ExitValue(ledger, sku, upTo)
  }

  /** An item with no ledger lines has no stock. */
  lemma StockWithoutTransactions(ledger: seq<Record>, sku: string, upTo: Option<Date>)
    requires forall r | r in ledger :: r.sku != sku
    ensures StockQuantity(ledger, sku, upTo) == 0.0 && NetValue(ledger, sku, upTo) == 0.0
  {
    SumsOfNothing(ledger, r => Counts(r, sku, Entry, upTo));
    SumsOfNothing(ledger, r => Counts(r, sku, Exit, upTo));
  }

  /**
   * Recording one more line moves the stock by its quantity, up for an entry and down for an
   * exit, when it is this item's and dated within the bound, and leaves it alone otherwise.
   */
  lemma StockAfterAppend(ledger: seq<Record>, r: Record, sku: string, upTo: Option<Date>)
    ensures StockQuantity(ledger + [r], sku, upTo) == StockQuantity(ledger, sku, upTo)
      + (if Counts(r, sku, Entry, upTo) then r.quantidade
         else if Counts(r, sku, Exit, upTo) then -r.quantidade else 0.0)
  {
    SumsAppend(ledger, r, x => Counts(x, sku, Entry, upTo));
    SumsAppend(ledger, r, x => Counts(x, sku, Exit, upTo));
  }

  /** A bound on or after every line's date counts the same lines as no bound. */
  lemma StockAtLateDate(ledger: seq<Record>, sku: string, d: Date)
    requires forall r | r in ledger :: DateLe(r.date, d)
    ensures StockQuantity(ledger, sku, Some(d)) == StockQuantity(ledger, sku, None)
    ensures NetValue(ledger, sku, Some(d)) == NetValue(ledger, sku, None)
  {
    SumsSameSelection(ledger, r => Counts(r, sku, Entry, Some(d)), r => Counts(r, sku, Entry, None));
    SumsSameSelection(ledger, r => Counts(r, sku, Exit, Some(d)), r => Counts(r, sku, Exit, None));
  }

  /**
   * `calculate_average_cost`: the stock's value divided by the stock when the stock is
   * positive; 0 when it is zero or negative.
   */
  function AverageCost(ledger: seq<Record>, sku: string, upTo: Option<Date>): (c: real)
    ensures StockQuantity(ledger, sku, upTo) > 0.0 ==>
              c * StockQuantity(ledger, sku, upTo) == NetValue(ledger, sku, upTo)
    ensures StockQuantity(ledger, sku, upTo) <= 0.0 ==> c == 0.0
  {
    var stock := StockQuantity(ledger, sku, upTo);
    if stock > 0.0 then NetValue(ledger, sku, upTo) / stock else 0.0
  }

  /**
   * With no exits, the average cost is a weighted average of the entry prices, so it lies
   * between the cheapest and the dearest entry.
   */
  lemma AverageCostBetweenEntryPrices(ledger: seq<Record>, sku: string, upTo: Option<Date>, lo: real, hi: real)
    requires forall r | r in ledger && Counts(r, sku, Exit, upTo) :: false
    requires forall r | r in ledger && Counts(r, sku, Entry, upTo) ::
               r.quantidade >= 0.0 && lo <= r.valorUnit <= hi
    requires StockQuantity(ledger, sku, upTo) > 0.0
    ensures lo <= AverageCost(ledger, sku, upTo) <= hi
  {
    SumsOfNothing(ledger, r => Counts(r, sku, Exit, upTo));
    SumValueBounds(ledger, r => Counts(r, sku, Entry, upTo), lo, hi);
    var s := StockQuantity(ledger, sku, upTo);
    assert s == EntryQty(ledger, sku, upTo);
    assert AverageCost(ledger, sku, upTo) == EntryValue(ledger, sku, upTo) / s;
    QuotientBetween(EntryValue(ledger, sku, upTo), s, lo, hi);
  }

  lemma QuotientBetween(v: real, s: real, lo: real, hi: real)
    requires s > 0.0 && lo * s <= v <= hi * s
    ensures lo <= v / s <= hi
  {
    var c := v / s;
    assert c * s == v;
    FactorOrder(lo, c, s);
    FactorOrder(c, hi, s);
  }

  lemma FactorOrder(a: real, b: real, s: real)
    requires s > 0.0 && a * s <= b * s
    ensures a <= b
  {
    assert (b - a) * s >= 0.0;
  }

  /** The last entry: the qualifying entry with the greatest transaction id. */
  function LastEntry(ledger: seq<Record>, sku: string, upTo: Option<Date>): (e: Option<Record>)
    ensures e.Some? ==> e.value in ledger && Counts(e.value, sku, Entry, upTo)
    ensures e.Some? ==> forall r | r in ledger && Counts(r, sku, Entry, upTo) :: r.id <= e.value.id
    ensures e.None? ==> forall r | r in ledger :: !Counts(r, sku, Entry, upTo)
  {
    if ledger == [] then None
    else
      var rest := LastEntry(ledger[1..], sku, upTo);
      assert forall r | r in ledger :: r == ledger[0] || r in ledger[1..];
      if Counts(ledger[0], sku, Entry, upTo) && (rest.None? || rest.value.id < ledger[0].id) then Some(ledger[0])
      else rest
  }

  /** `get_last_entry_cost`: the last entry's unit value, or 0 when there is no entry. */
  function LastEntryCost(ledger: seq<Record>, sku: string, upTo: Option<Date>): (c: real)
    ensures LastEntry(ledger, sku, upTo).None? ==> c == 0.0
    ensures LastEntry(ledger, sku, upTo).Some? ==> c == LastEntry(ledger, sku, upTo).value.valorUnit
  {
    match LastEntry(ledger, sku, upTo)
    case None => 0.0
    case Some(e) => e.valorUnit
  }

  /** The label `calculate_consumption_estimate` returns, before rendering. */
  datatype Estimate =
    | NoStock
    | NoRecentConsumption
    | UnderOneDay
    | Days(n: int)
    | Weeks(n: int)
    | Months(n: int)
    | Years(n: int)

  /** Days of cover, bucketed: below 1, whole days below 7, weeks below 30, months below 365, years. */
  function Bucket(days: real): (e: Estimate)
    ensures e.UnderOneDay? <==> days < 1.0
    ensures e.Days? ==> 1 <= e.n <= 6 && e.n as real <= days < (e.n + 1) as real
    ensures e.Weeks? ==> 1 <= e.n <= 4 && 7.0 * e.n as real <= days < 7.0 * (e.n + 1) as real
    ensures e.Months? ==> 1 <= e.n <= 12 && 30.0 * e.n as real <= days < 30.0 * (e.n + 1) as real
    ensures e.Years? ==> 1 <= e.n && 365.0 * e.n as real <= days < 365.0 * (e.n + 1) as real
    ensures e.Days? <==> 1.0 <= days < 7.0
    ensures e.Weeks? <==> 7.0 <= days < 30.0
    ensures e.Months? <==> 30.0 <= days < 365.0
    ensures e.Years? <==> 365.0 <= days
  {
    if days < 1.0 then UnderOneDay
    else if days < 7.0 then Days(days.Floor)
    else if days < 30.0 then Weeks((days / 7.0).Floor)
    else if days < 365.0 then Months((days / 30.0).Floor)
    else Years((days / 365.0).Floor)
  }

  /** The exits of the item dated within `[from, to]`. */
  function ExitsBetween(ledger: seq<Record>, sku: string, from: Date, to: Date): real {
    SumQty(ledger, (r: Record) => r.sku == sku && r.kind == Exit && DateLe(from, r.date) && DateLe(r.date, to))
  }

  /**
   * `calculate_consumption_estimate` at date `d`: no stock; else exits over the last three
   * months (from `d - relativedelta(months=3)` to `d`) at 1/90 per day; none of them means no
   * recent consumption; else the stock's days of cover, bucketed. None where the window's start
   * falls before year 1 and `relativedelta` raises.
   */
  function ConsumptionEstimate(ledger: seq<Record>, sku: string, d: Date): (e: Option<Estimate>)
    requires ValidDate(d)
    ensures StockQuantity(ledger, sku, Some(d)) <= 0.0 <==> e == Some(NoStock)
    ensures e.None? <==> StockQuantity(ledger, sku, Some(d)) > 0.0 && MonthsBefore(d, ConsumptionMonths).None?
    ensures e == Some(NoRecentConsumption) <==>
              && StockQuantity(ledger, sku, Some(d)) > 0.0
              && MonthsBefore(d, ConsumptionMonths).Some?
              && ExitsBetween(ledger, sku, MonthsBefore(d, ConsumptionMonths).value, d) <= 0.0
    ensures e.Some? && e.value !in {NoStock, NoRecentConsumption} ==>
              var recent := ExitsBetween(ledger, sku, MonthsBefore(d, ConsumptionMonths).value, d);
              recent > 0.0 &&
              e.value == Bucket(StockQuantity(ledger, sku, Some(d)) * ConsumptionDays as real / recent)
  {
    var quantidade := StockQuantity(ledger, sku, Some(d));
    if quantidade <= 0.0 then Some(NoStock)
    else match MonthsBefore(d, ConsumptionMonths)
      case None => None
      case Some(monthsAgo) =>
        var recent := ExitsBetween(ledger, sku, monthsAgo, d);
        var perDay := if recent > 0.0 then recent / ConsumptionDays as real else 0.0;
        if perDay <= 0.0 then Some(NoRecentConsumption)
        else
          var days := quantidade / perDay;
          assert days == quantidade * ConsumptionDays as real / recent;
          var b := Bucket(days);
          assert b != NoStock && b != NoRecentConsumption;
          Some(b)
  }

  function Counted(n: int, one: string, many: string): string {
    IntToString(n) + " " + (if n == 1 then one else many)
  }

  /** The text of an estimate, as the stock list shows it. */
  function Render(e: Estimate): string {
    match e
    case NoStock => "Sem estoque"
    case NoRecentConsumption => "Sem consumo recente"
    case UnderOneDay => "Menos de 1 dia"
    case Days(n) => Counted(n, "dia", "dias")
    case Weeks(n) => Counted(n, "semana", "semanas")
    case Months(n) => Counted(n, "mês", "meses")
    case Years(n) => Counted(n, "ano", "anos")
  }

  /** The singular and plural unit words of a counted estimate. */
  function Units(e: Estimate): (string, string)
    requires e.Days? || e.Weeks? || e.Months? || e.Years?
  {
    match e
    case Days(_) => ("dia", "dias")
    case Weeks(_) => ("semana", "semanas")
    case Months(_) => ("mês", "meses")
    case Years(_) => ("ano", "anos")
  }

  /** A count and a one-word unit split back at the space into the number and the unit. */
  lemma CountedSplits(n: int, one: string, many: string)
    requires ' ' !in one && ' ' !in many
    ensures Split(Counted(n, one, many), ' ') == [IntToString(n), if n == 1 then one else many]
  {
    var num := IntToString(n);
    var d := NatToString(if n < 0 then -n else n);
    assert forall k | 0 <= k < |d| :: IsDigit(d[k]);
    assert ' ' !in num;
    var unit := if n == 1 then one else many;
    assert Counted(n, one, many) == num + [' '] + unit;
    SplitAfterPiece(num, ' ', unit);
    SplitNoSeparator(unit, ' ');
  }

  /**
   * A counted estimate reads as the number, a space and the unit: the number reads back as the
   * count, and the unit is singular exactly when the count is 1.
   */
  lemma CountedLabelReadsBack(e: Estimate)
    requires e.Days? || e.Weeks? || e.Months? || e.Years?
    ensures |Split(Render(e), ' ')| == 2
    ensures ParseInt(Split(Render(e), ' ')[0]) == Some(e.n)
    ensures Split(Render(e), ' ')[1] == if e.n == 1 then Units(e).0 else Units(e).1
  {
    match e {
      case Days(n) => CountedSplits(n, "dia", "dias");
      case Weeks(n) => CountedSplits(n, "semana", "semanas");
      case Months(n) => CountedSplits(n, "mês", "meses");
      case Years(n) => CountedSplits(n, "ano", "anos");
    }
    ParseIntOfIntToString(e.n);
  }

  /** Every number an estimate shows is at least 1. */
  lemma EstimateCountsPositive(ledger: seq<Record>, sku: string, d: Date)
    requires ValidDate(d)
    requires ConsumptionEstimate(ledger, sku, d).Some?
    ensures var e := ConsumptionEstimate(ledger, sku, d).value;
            (e.Days? || e.Weeks? || e.Months? || e.Years?) ==> e.n >= 1
  {
  }

  /** One line of the stock list. */
  datatype StockRow = StockRow(
    codSku: string,
    descricaoItem: string,
    unidMedida: string,
    active: bool,
    quantity: real,
    estimatedConsumptionTime: string)

  /** The stock list's query parameters other than the date and the ordering. */
  datatype StockFilters = StockFilters(sku: string, description: string, onlyStock: bool, onlyActive: bool)

  /** The item query: SKU and description contain the filters ignoring case; active items only on request. */
  predicate Selected(it: Item, f: StockFilters) {
    && (f.sku == [] || ContainsIgnoreCase(it.codSku, f.sku))
    && (f.description == [] || ContainsIgnoreCase(it.descricaoItem, f.description))
    && (!f.onlyActive || it.active)
  }

  /**
   * The line of one selected item: dropped when only items in stock are wanted and it has
   * none, or when its estimate raises; otherwise its quantity and estimate.
   */
  function RowOf(it: Item, ledger: seq<Record>, d: Date, onlyStock: bool): (r: Option<StockRow>)
    requires ValidDate(d)
    ensures r.Some? ==> r.value.codSku == it.codSku && r.value.quantity == StockQuantity(ledger, it.codSku, Some(d))
    ensures r.Some? && onlyStock ==> r.value.quantity > 0.0
    ensures r.None? <==>
              (onlyStock && StockQuantity(ledger, it.codSku, Some(d)) <= 0.0) || ConsumptionEstimate(ledger, it.codSku, d).None?
  {
    var quantidade := StockQuantity(ledger, it.codSku, Some(d));
    if onlyStock && quantidade <= 0.0 then None
    else match ConsumptionEstimate(ledger, it.codSku, d)
      case None => None
      case Some(e) => Some(StockRow(it.codSku, it.descricaoItem, it.unidMedida, it.active, quantidade, Render(e)))
  }

  /** The lines of `items` in query order. */
  function Rows(items: seq<Item>, ledger: seq<Record>, d: Date, f: StockFilters): seq<StockRow>
    requires ValidDate(d)
  {
    if items == [] then []
    else
      var last := items[|items| - 1];
      var here := if Selected(last, f) then RowOf(last, ledger, d, f.onlyStock) else None;
      Rows(items[..|items| - 1], ledger, d, f) + (if here.Some? then [here.value] else [])
  }

  /**
   * The stock list holds exactly the lines of the selected items that are kept, and each of
   * them comes from such an item.
   */
  lemma {:induction false} RowsExactly(items: seq<Item>, ledger: seq<Record>, d: Date, f: StockFilters, row: StockRow)
    requires ValidDate(d)
    ensures row in Rows(items, ledger, d, f) <==>
              exists it | it in items :: Selected(it, f) && RowOf(it, ledger, d, f.onlyStock) == Some(row)
  {
    if items != [] {
      var init := items[..|items| - 1];
      var last := items[|items| - 1];
      RowsExactly(init, ledger, d, f, row);
      var here := if Selected(last, f) then RowOf(last, ledger, d, f.onlyStock) else None;
      assert Rows(items, ledger, d, f) == Rows(init, ledger, d, f) + (if here.Some? then [here.value] else []);
      assert row in Rows(items, ledger, d, f) <==> row in Rows(init, ledger, d, f) || here == Some(row);
      ExistsSnoc(items, it requires ValidDate(d) => Selected(it, f) && RowOf(it, ledger, d, f.onlyStock) == Some(row));
    }
  }

  /** Something in `xs` passes exactly when something before the last one does, or the last one does. */
  lemma ExistsSnoc<T>(xs: seq<T>, pass: T -> bool)
    requires xs != []
    ensures (exists x | x in xs :: pass(x)) <==> (exists x | x in xs[..|xs| - 1] :: pass(x)) || pass(xs[|xs| - 1])
  {
    var init := xs[..|xs| - 1];
    if exists x | x in xs :: pass(x) {
      var x :| x in xs && pass(x);
      var j :| 0 <= j < |xs| && xs[j] == x;
      if j < |xs| - 1 {
        assert init[j] == x;
      }
    }
    if exists x | x in init :: pass(x) {
      var x :| x in init && pass(x);
      var j :| 0 <= j < |init| && init[j] == x;
      assert xs[j] == x;
    }
  }

  /** With `show_only_stock_items`, every listed quantity is positive. */
  lemma RowsInStock(items: seq<Item>, ledger: seq<Record>, d: Date, f: StockFilters)
    requires ValidDate(d) && f.onlyStock
    ensures forall row | row in Rows(items, ledger, d, f) :: row.quantity > 0.0
  {
    forall row | row in Rows(items, ledger, d, f)
      ensures row.quantity > 0.0
    {
      RowsExactly(items, ledger, d, f, row);
    }
  }

  /** The fields the stock list can be ordered by. */
  predicate IsStockField(name: string) {
    name in ["codSku", "descricaoItem", "unidMedida", "active", "quantity", "estimatedConsumptionTime"]
  }

  /** A row's value for a field, as Python compares it (`active` as 0 or 1). */
  function FieldValue(row: StockRow, name: string): KeyValue {
    if name == "codSku" then Str(row.codSku)
    else if name == "descricaoItem" then Str(row.descricaoItem)
    else if name == "unidMedida" then Str(row.unidMedida)
    else if name == "active" then Num(if row.active then 1.0 else 0.0)
    else if name == "quantity" then Num(row.quantity)
    else Str(row.estimatedConsumptionTime)
  }

  /** `[f.strip() for f in ordering.split(',')]`. */
  function OrderFields(ordering: string): (fs: seq<string>)
    ensures |fs| >= 1
  {
    var parts := Split(ordering, ',');
    seq(|parts|, k requires 0 <= k < |parts| => Strip(parts[k]))
  }

  function FieldName(field: string): string {
    if StartsWith(field, "-") then field[1..] else field
  }

  /**
   * `sort_key` as written: the recognised fields' values in order, numbers (and booleans)
   * negated for a field with a leading '-', strings left as they are.
   */
  function SortKeyAsWritten(fields: seq<string>, row: StockRow): Key {
    if fields == [] then []
    else
      var field := fields[0];
      var name := FieldName(field);
      var here := if !IsStockField(name) then []
        else
          var v := FieldValue(row, name);
          [if StartsWith(field, "-") && v.Num? then Num(-v.n) else v];
      here + SortKeyAsWritten(fields[1..], row)
  }

  /**
   * `sort_stock_items` as written: sorted by `SortKeyAsWritten` and, when the first field has a
   * leading '-', reversed as a whole. A numeric field with '-' is then negated and reversed,
   * which sorts it ascending.
   */
  function SortStockItemsAsWritten(rows: seq<StockRow>, ordering: string): seq<StockRow> {
    if ordering == [] then rows
    else
      var fields := OrderFields(ordering);
      SortBy(rows, row => SortKeyAsWritten(fields, row), StartsWith(fields[0], "-"))
  }

  /** The key each field direction calls for: the value, inside `Desc` for a leading '-'. */
  function SortKey(fields: seq<string>, row: StockRow): Key {
    if fields == [] then []
    else
      var field := fields[0];
      var name := FieldName(field);
      var here := if !IsStockField(name) then []
        else if StartsWith(field, "-") then [Desc(FieldValue(row, name))]
        else [FieldValue(row, name)];
      here + SortKey(fields[1..], row)
  }

  /**
   * `sort_stock_items` as intended: each field ascending, or descending when it has a leading
   * '-'; an empty ordering keeps the list.
   */
  function SortStockItems(rows: seq<StockRow>, ordering: string): (r: seq<StockRow>)
    ensures ordering == [] ==> r == rows
    ensures multiset(r) == multiset(rows)
    ensures ordering != [] ==> SortedBy(r, row => SortKey(OrderFields(ordering), row), false)
  {
    if ordering == [] then rows
    else
      var fields := OrderFields(ordering);
      SortPermutes(rows, row => SortKey(fields, row), false);
      SortSorted(rows, row => SortKey(fields, row), false);
      SortBy(rows, row => SortKey(fields, row), false)
  }

  lemma OrderFieldsOfMinusQuantity()
    ensures OrderFields("-quantity") == ["-quantity"]
  {
    var q := "-quantity";
    assert ',' !in q by {
      forall i | 0 <= i < |q|
        ensures q[i] != ','
      {
      }
    }
    assert !IsSpace(q[0]) && !IsSpace(q[|q| - 1]);
    OrderFieldsOfOne(q);
  }

  /** An ordering without commas or padding is a single field. */
  lemma OrderFieldsOfOne(field: string)
    requires ',' !in field
    requires field == [] || (!IsSpace(field[0]) && !IsSpace(field[|field| - 1]))
    ensures OrderFields(field) == [field]
  {
    SplitNoSeparator(field, ',');
    StripNoSpaceEnds(field);
  }

  lemma MinusQuantityKeys(row: StockRow)
    ensures SortKey(["-quantity"], row) == [Desc(Num(row.quantity))]
    ensures SortKeyAsWritten(["-quantity"], row) == [Num(-row.quantity)]
  {
    assert StartsWith("-quantity", "-");
    assert FieldName("-quantity") == "quantity";
    assert IsStockField("quantity");
    assert FieldValue(row, "quantity") == Num(row.quantity);
    assert ["-quantity"][1..] == [];
  }

  lemma DescendingOneNumber(x: real, y: real)
    ensures KeyLess([Desc(Num(x))], [Desc(Num(y))]) <==> y < x
  {
    assert ValueLess(Desc(Num(x)), Desc(Num(y))) == ValueLess(Num(y), Num(x));
    if x != y {
      assert [Desc(Num(x))][0] != [Desc(Num(y))][0];
    }
  }

  /** With ordering `-quantity`, the intended sort lists quantities from largest to smallest. */
  lemma MinusQuantityDescending(rows: seq<StockRow>)
    ensures var r := SortStockItems(rows, "-quantity");
            forall i, j | 0 <= i < j < |r| :: r[i].quantity >= r[j].quantity
  {
    OrderFieldsOfMinusQuantity();
    var r := SortStockItems(rows, "-quantity");
    forall i, j | 0 <= i < j < |r|
      ensures r[i].quantity >= r[j].quantity
    {
      MinusQuantityKeys(r[i]);
      MinusQuantityKeys(r[j]);
      assert !KeyLess(SortKey(["-quantity"], r[j]), SortKey(["-quantity"], r[i]));
      DescendingOneNumber(r[j].quantity, r[i].quantity);
    }
  }

  /** As written, ordering `-quantity` sorts by the negated quantity and reverses the result. */
  lemma MinusQuantityAsWrittenSort(rows: seq<StockRow>)
    ensures SortStockItemsAsWritten(rows, "-quantity") == SortBy(rows, row => SortKeyAsWritten(["-quantity"], row), true)
  {
    OrderFieldsOfMinusQuantity();
    assert StartsWith("-quantity", "-");
  }

  /** As written, ordering `-quantity` puts the smaller quantity first: ascending. */
  lemma MinusQuantityAsWrittenAscends(a: StockRow, b: StockRow)
    requires a.quantity < b.quantity
    ensures SortStockItemsAsWritten([a, b], "-quantity") == [a, b]
  {
    MinusQuantityAsWrittenSort([a, b]);
    var asWritten := (row: StockRow) => SortKeyAsWritten(["-quantity"], row);
    MinusQuantityAsWrittenOrder(a, b);
    SortPair(a, b, asWritten, true);
  }

  /** As written, the smaller quantity's key does not come after the larger one's in the reversed sort. */
  lemma MinusQuantityAsWrittenOrder(a: StockRow, b: StockRow)
    requires a.quantity < b.quantity
    ensures !Before(SortKeyAsWritten(["-quantity"], b), SortKeyAsWritten(["-quantity"], a), true)
  {
    MinusQuantityKeys(a);
    MinusQuantityKeys(b);
    OneNumberLess(-a.quantity, -b.quantity);
  }

  lemma OneNumberLess(x: real, y: real)
    ensures KeyLess([Num(x)], [Num(y)]) <==> x < y
  {
    if x != y {
      assert [Num(x)][0] != [Num(y)][0];
    }
  }

  /** The stock list's result: the kept lines in query order, then ordered when asked. */
  function StockItems(items: seq<Item>, ledger: seq<Record>, d: Date, f: StockFilters, ordering: string): seq<StockRow>
    requires ValidDate(d)
  {
    SortStockItems(Rows(items, ledger, d, f), ordering)
  }

  /**
   * `get_stock_items`: each item of the query in turn, its stock computed, skipped when only
   * stocked items are wanted and it has none or when its estimate raises, otherwise listed;
   * then the list is ordered.
   */
  method GetStockItems(items: seq<Item>, ledger: seq<Record>, d: Date, f: StockFilters, ordering: string)
    returns (result: seq<StockRow>)
    requires ValidDate(d)
    ensures result == StockItems(items, ledger, d, f, ordering)
    ensures ordering == [] ==> result == Rows(items, ledger, d, f)
    ensures multiset(result) == multiset(Rows(items, ledger, d, f))
  {
    result := [];
    var i := 0;
    while i < |items|
      invariant 0 <= i <= |items|
      invariant result == Rows(items[..i], ledger, d, f)
    {
      var item := items[i];
      RowsStep(items, ledger, d, f, i);
      if Selected(item, f) {
        var quantidade := StockQuantity(ledger, item.codSku, Some(d));
        if f.onlyStock && quantidade <= 0.0 {
          i := i + 1;
          continue;
        }
        var estimate := ConsumptionEstimate(ledger, item.codSku, d);
        if estimate.None? {
          i := i + 1;
          continue;
        }
        result := result + [StockRow(item.codSku, item.descricaoItem, item.unidMedida, item.active,
                                     quantidade, Render(estimate.value))];
      }
      i := i + 1;
    }
    assert items[..|items|] == items;
    if ordering != [] {
      result := SortStockItems(result, ordering);
    }
  }

  /** One more item of the query adds its line, if it has one. */
  lemma RowsStep(items: seq<Item>, ledger: seq<Record>, d: Date, f: StockFilters, i: nat)
    requires ValidDate(d) && i < |items|
    ensures var here := if Selected(items[i], f) then RowOf(items[i], ledger, d, f.onlyStock) else None;
            Rows(items[..i + 1], ledger, d, f) == Rows(items[..i], ledger, d, f) + (if here.Some? then [here.value] else [])
  {
    assert items[..i + 1][..i] == items[..i];
  }

  /** One entry of 10 and one exit of 3, both today: stock 7. */
  lemma StockExample(today: Date)
    ensures var ledger := [Record(1, Entry, "TEST001", 10.0, 5.0, today, 1, None, None),
                           Record(2, Exit, "TEST001", 3.0, 5.0, today, 1, None, None)];
            StockQuantity(ledger, "TEST001", Some(today)) == 7.0
  {
    var e := Record(1, Entry, "TEST001", 10.0, 5.0, today, 1, None, None);
    var x := Record(2, Exit, "TEST001", 3.0, 5.0, today, 1, None, None);
    DateLeTotalOrder(today, today, today);
    StockAfterAppend([], e, "TEST001", Some(today));
    StockAfterAppend([e], x, "TEST001", Some(today));
    assert [] + [e] == [e] && [e] + [x] == [e, x];
  }

  /** One entry of 10 at 5.00: average cost 5.00 and last entry cost 5.00. */
  lemma AverageCostExample(today: Date)
    ensures var ledger := [Record(1, Entry, "TEST001", 10.0, 5.0, today, 1, None, None)];
            AverageCost(ledger, "TEST001", Some(today)) == 5.0
            && LastEntryCost(ledger, "TEST001", Some(today)) == 5.0
  {
    var e := Record(1, Entry, "TEST001", 10.0, 5.0, today, 1, None, None);
    DateLeTotalOrder(today, today, today);
    SumsAppend([], e, r => Counts(r, "TEST001", Entry, Some(today)));
    SumsAppend([], e, r => Counts(r, "TEST001", Exit, Some(today)));
    assert [] + [e] == [e];
    assert [e][1..] == [];
  }
}
