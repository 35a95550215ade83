/**
 * `StockCostViewSet.list`: the stock valuation endpoint. The `stockDate` query parameter is read
 * (absent or empty means today, a malformed one is a 400 before anything else), the items are
 * filtered, each kept item gets its cost record (quantity, average cost, total cost, last entry
 * cost), the records are ordered by `ordering` and the requested page is cut out.
 */
module StockCostApi {
  import opened Wrappers
  import opened PyText
  import opened Dates
  import opened DateFormats
  import opened Sorting
  import opened Models
  import opened StockService

  /** One line of the valuation, in the endpoint's own field names; currency is always `BRL`. */
  datatype CostRecord = CostRecord(
    sku: string,
    description: string,
    quantity: real,
    unityMeasure: string,
    unitCost: real,
    totalCost: real,
    active: bool,
    lastEntryCost: Option<real>)

  /** The request's query parameters. */
  type Params = map<string, string>

  /** `request.query_params.get(key, default)`. */
  function Param(params: Params, key: string, default: string): string {
    if key in params then params[key] else default
  }

  const DateError := "Formato de data inválido. Use YYYY-MM-DD"

  /**
   * The valuation date: today when `stockDate` is absent or empty, otherwise the parameter read
   * with `%Y-%m-%d`, None where that raises `ValueError`.
   */
  function RequestDate(params: Params, today: Date): (d: Option<Date>)
    ensures Param(params, "stockDate", "") == [] ==> d == Some(today)
    ensures Param(params, "stockDate", "") != [] ==> d == ParseIsoDate(params["stockDate"])
  {
    var text := Param(params, "stockDate", "");
    if text != [] then ParseIsoDate(text) else Some(today)
  }

  /** The item filters: `sku` and `description` substrings, `hasStock` and `active` when `'true'`. */
  function Filters(params: Params): StockFilters {
    StockFilters(Param(params, "sku", ""), Param(params, "description", ""),
                 Param(params, "hasStock", "") == "true", Param(params, "active", "") == "true")
  }

  /**
   * The cost record of one item at date `d`: its stock, its average cost, the average cost times
   * the stock, and its last entry cost, reported as None when that cost is 0.
   */
  function CostRecordOf(it: Item, ledger: seq<Record>, d: Date): (r: CostRecord)
    ensures r.sku == it.codSku && r.description == it.descricaoItem
    ensures r.unityMeasure == it.unidMedida && r.active == it.active
    ensures r.quantity == StockQuantity(ledger, it.codSku, Some(d))
    ensures r.quantity > 0.0 ==> r.totalCost == NetValue(ledger, it.codSku, Some(d))
    ensures r.quantity > 0.0 ==> r.unitCost * r.quantity == NetValue(ledger, it.codSku, Some(d))
    ensures r.quantity <= 0.0 ==> r.totalCost == 0.0 && r.unitCost == 0.0
    ensures r.lastEntryCost.None? <==> LastEntryCost(ledger, it.codSku, Some(d)) == 0.0
    ensures r.lastEntryCost.Some? ==> r.lastEntryCost.value == LastEntryCost(ledger, it.codSku, Some(d))
  {
    var estoque := StockQuantity(ledger, it.codSku, Some(d));
    var custo := AverageCost(ledger, it.codSku, Some(d));
    var ultima := LastEntryCost(ledger, it.codSku, Some(d));
    CostRecord(it.codSku, it.descricaoItem, estoque, it.unidMedida, custo, custo * estoque, it.active,
               if ultima != 0.0 then Some(ultima) else None)
  }

  /** An item makes the list when the query selects it and, with `hasStock`, when it has stock. */
  predicate Listed(it: Item, ledger: seq<Record>, d: Date, f: StockFilters) {
    Selected(it, f) && !(f.onlyStock && StockQuantity(ledger, it.codSku, Some(d)) <= 0.0)
  }

  /** The records of the listed items, in query order. */
  function CostRecords(items: seq<Item>, ledger: seq<Record>, d: Date, f: StockFilters): seq<CostRecord> {
    if items == [] then []
    else
      var last := items[|items| - 1];
      CostRecords(items[..|items| - 1], ledger, d, f)
        + (if Listed(last, ledger, d, f) then [CostRecordOf(last, ledger, d)] else [])
  }

  /** The records are exactly those of the listed items. */
  lemma {:induction false} CostRecordsExactly(items: seq<Item>, ledger: seq<Record>, d: Date, f: StockFilters, rec: CostRecord)
    ensures rec in CostRecords(items, ledger, d, f) <==>
              exists it | it in items :: Listed(it, ledger, d, f) && CostRecordOf(it, ledger, d) == rec
  {
    if items != [] {
      var init := items[..|items| - 1];
      var last := items[|items| - 1];
      CostRecordsExactly(init, ledger, d, f, rec);
      assert items == init + [last];
      var added := if Listed(last, ledger, d, f) then [CostRecordOf(last, ledger, d)] else [];
      assert CostRecords(items, ledger, d, f) == CostRecords(init, ledger, d, f) + added;
      if rec in CostRecords(init, ledger, d, f) {
        var it :| it in init && Listed(it, ledger, d, f) && CostRecordOf(it, ledger, d) == rec;
        assert it in items;
      } else if rec in added {
        assert last in items;
      }
    }
  }

  /** With `hasStock=true`, the list drops exactly the selected items whose stock is 0 or less. */
  lemma HasStockDropsExactly(items: seq<Item>, ledger: seq<Record>, d: Date, f: StockFilters, it: Item)
    requires f.onlyStock && it in items && Selected(it, f)
    ensures CostRecordOf(it, ledger, d) in CostRecords(items, ledger, d, f) <==>
              StockQuantity(ledger, it.codSku, Some(d)) > 0.0
  {
    CostRecordsExactly(items, ledger, d, f, CostRecordOf(it, ledger, d));
    if CostRecordOf(it, ledger, d) in CostRecords(items, ledger, d, f) {
      var other :| other in items && Listed(other, ledger, d, f) && CostRecordOf(other, ledger, d) == CostRecordOf(it, ledger, d);
      assert other.codSku == it.codSku;
    }
  }

  /** The endpoint's sortable fields. */
  predicate IsCostField(name: string) {
    name in ["sku", "description", "quantity", "unityMeasure", "unitCost", "totalCost", "active", "lastEntryCost"]
  }

  /**
   * A record's value for a field as `sort_key` reads it: numbers and booleans (as 0 or 1) as
   * numbers, a missing last entry cost as Python's `None`.
   */
  function CostFieldValueAsWritten(rec: CostRecord, name: string): KeyValue {
    if name == "sku" then Str(rec.sku)
    else if name == "description" then Str(rec.description)
    else if name == "quantity" then Num(rec.quantity)
    else if name == "unityMeasure" then Str(rec.unityMeasure)
    else if name == "unitCost" then Num(rec.unitCost)
    else if name == "totalCost" then Num(rec.totalCost)
    else if name == "active" then Num(if rec.active then 1.0 else 0.0)
    else match rec.lastEntryCost
      case None => NoneValue
      case Some(c) => Num(c)
  }

  /**
   * `sort_key` as written: the values of the recognised fields in order, with or without a
   * leading '-' alike; unknown fields add nothing.
   */
  function CostSortKeyAsWritten(fields: seq<string>, rec: CostRecord): Key {
    if fields == [] then []
    else
      var name := FieldName(fields[0]);
      (if IsCostField(name) then [CostFieldValueAsWritten(rec, name)] else []) + CostSortKeyAsWritten(fields[1..], rec)
  }

  /**
   * `result.sort(key=sort_key, reverse=...)` as written: no ordering keeps the filter order; the
   * sort is reversed exactly when the first field has a leading '-'; None for the `TypeError`
   * raised when a missing last entry cost meets a number.
   */
  function SortRecordsAsWritten(rs: seq<CostRecord>, ordering: string): (r: Option<seq<CostRecord>>)
    ensures ordering == [] ==> r == Some(rs)
  {
    if ordering == [] then Some(rs)
    else
      var fields := OrderFields(ordering);
      PySort(rs, rec => CostSortKeyAsWritten(fields, rec), StartsWith(fields[0], "-"))
  }

  /** An ordering of one field with no ',' and no surrounding space is that field alone. */
  lemma OneOrderField(field: string)
    requires ',' !in field && field != [] && !IsSpace(field[0]) && !IsSpace(field[|field| - 1])
    ensures OrderFields(field) == [field]
  {
    SplitNoSeparator(field, ',');
    StripNoSpaceEnds(field);
  }

  lemma OrderFieldsOfLastEntryCost()
    ensures OrderFields("lastEntryCost") == ["lastEntryCost"]
  {
    var s := "lastEntryCost";
    assert s[0] == 'l' && s[|s| - 1] == 't';
    assert ',' !in s by {
      assert forall i | 0 <= i < |s| :: 'A' <= s[i] <= 'z';
    }
    OneOrderField(s);
  }

  /** Ordering by `lastEntryCost` alone: the key is that one value, None where it is missing. */
  lemma LastEntryCostKeyAsWritten(rec: CostRecord)
    ensures CostSortKeyAsWritten(["lastEntryCost"], rec) == [if rec.lastEntryCost.None? then NoneValue else Num(rec.lastEntryCost.value)]
  {
    assert !StartsWith("lastEntryCost", "-") by {
      assert "lastEntryCost"[..1] == "l";
    }
    assert FieldName("lastEntryCost") == "lastEntryCost";
    assert IsCostField("lastEntryCost");
    assert ["lastEntryCost"][1..] == [];
  }

  /** A last entry cost of None, next to a number, stops the sort: the request fails. */
  lemma LastEntryCostSortFails()
    ensures var a := CostRecord("A", "a", 10.0, "UN", 5.0, 50.0, true, Some(5.0));
            var b := CostRecord("B", "b", 0.0, "UN", 0.0, 0.0, true, None);
            SortRecordsAsWritten([a, b], "lastEntryCost") == None
  {
    var a := CostRecord("A", "a", 10.0, "UN", 5.0, 50.0, true, Some(5.0));
    var b := CostRecord("B", "b", 0.0, "UN", 0.0, 0.0, true, None);
    var key := (rec: CostRecord) => CostSortKeyAsWritten(["lastEntryCost"], rec);
    LastEntryCostSortAsWritten([a, b]);
    LastEntryCostMissingIncomparable(a, b);
    assert [a, b][0] == a && [a, b][1] == b;
    assert HasIncomparablePair([a, b], key);
  }

  /** As written, ordering by `lastEntryCost` is Python's ascending sort on that one key. */
  lemma LastEntryCostSortAsWritten(rs: seq<CostRecord>)
    ensures SortRecordsAsWritten(rs, "lastEntryCost") == PySort(rs, rec => CostSortKeyAsWritten(["lastEntryCost"], rec), false)
  {
    var fields := OrderFields("lastEntryCost");
    assert SortRecordsAsWritten(rs, "lastEntryCost") == PySort(rs, rec => CostSortKeyAsWritten(fields, rec), StartsWith(fields[0], "-"));
    OrderFieldsOfLastEntryCost();
    assert !StartsWith(fields[0], "-") by {
      assert fields[0][..1] == "l";
    }
  }

  /** As written, a record with a last entry cost and one without have keys Python cannot order. */
  lemma LastEntryCostMissingIncomparable(a: CostRecord, b: CostRecord)
    requires a.lastEntryCost.Some? && b.lastEntryCost.None?
    ensures PyKeyLess(CostSortKeyAsWritten(["lastEntryCost"], a), CostSortKeyAsWritten(["lastEntryCost"], b)).None?
  {
    LastEntryCostKeyAsWritten(a);
    LastEntryCostKeyAsWritten(b);
    var ka := CostSortKeyAsWritten(["lastEntryCost"], a);
    var kb := CostSortKeyAsWritten(["lastEntryCost"], b);
    assert ka[0] != kb[0];
  }

  /** A record's value for a field, a missing last entry cost counting as 0 (`get`'s default). */
  function CostFieldValue(rec: CostRecord, name: string): (v: KeyValue)
    ensures v.Num? || v.Str?
  {
    if name == "sku" then Str(rec.sku)
    else if name == "description" then Str(rec.description)
    else if name == "quantity" then Num(rec.quantity)
    else if name == "unityMeasure" then Str(rec.unityMeasure)
    else if name == "unitCost" then Num(rec.unitCost)
    else if name == "totalCost" then Num(rec.totalCost)
    else if name == "active" then Num(if rec.active then 1.0 else 0.0)
    else Num(rec.lastEntryCost.GetOr(0.0))
  }

  /** The same field gives values of the same kind for every record. */
  lemma CostFieldSameKind(a: CostRecord, b: CostRecord, name: string)
    ensures CostFieldValue(a, name).Str? <==> CostFieldValue(b, name).Str?
  {
  }

  function CostSortKey(fields: seq<string>, rec: CostRecord): Key {
    if fields == [] then []
    else
      var name := FieldName(fields[0]);
      (if IsCostField(name) then [CostFieldValue(rec, name)] else []) + CostSortKey(fields[1..], rec)
  }

  /** Any two records' keys from the same fields can be compared by Python. */
  lemma {:induction false} CostKeysComparable(fields: seq<string>, a: CostRecord, b: CostRecord)
    ensures PyKeyLess(CostSortKey(fields, a), CostSortKey(fields, b)).Some?
  {
    if fields != [] {
      var name := FieldName(fields[0]);
      CostKeysComparable(fields[1..], a, b);
      var ka, kb := CostSortKey(fields, a), CostSortKey(fields, b);
      if IsCostField(name) {
        var va, vb := CostFieldValue(a, name), CostFieldValue(b, name);
        assert ka[0] == va && ka[1..] == CostSortKey(fields[1..], a);
        assert kb[0] == vb && kb[1..] == CostSortKey(fields[1..], b);
        CostFieldSameKind(a, b, name);
      } else {
        assert ka == CostSortKey(fields[1..], a);
        assert kb == CostSortKey(fields, b) == CostSortKey(fields[1..], b);
      }
    }
  }

  /**
   * The ordering as intended: a missing last entry cost sorts as 0, so the sort always succeeds;
   * the records are permuted into key order, reversed exactly when the first field has a
   * leading '-'.
   */
  function SortRecords(rs: seq<CostRecord>, ordering: string): (r: Option<seq<CostRecord>>)
    ensures r.Some?
    ensures ordering == [] ==> r.value == rs
    ensures multiset(r.value) == multiset(rs)
    ensures ordering != [] ==>
              var fields := OrderFields(ordering);
              SortedBy(r.value, rec => CostSortKey(fields, rec), StartsWith(fields[0], "-"))
  {
    if ordering == [] then Some(rs)
    else
      var fields := OrderFields(ordering);
      var key := (rec: CostRecord) => CostSortKey(fields, rec);
      var descending := StartsWith(fields[0], "-");
      assert !HasIncomparablePair(rs, key) by {
        forall i, j | 0 <= i < |rs| && 0 <= j < |rs|
          ensures PyKeyLess(key(rs[i]), key(rs[j])).Some?
        {
          CostKeysComparable(fields, rs[i], rs[j]);
        }
      }
      SortPermutes(rs, key, descending);
      SortSorted(rs, key, descending);
      PySort(rs, key, descending)
  }

  /** One page of the answer, with the counts the endpoint reports. */
  datatype Page = Page(
    results: seq<CostRecord>,
    count: int,
    total: int,
    page: int,
    pageSize: int,
    totalPages: int,
    next: bool,
    previous: bool)

  /** A Python slice bound: negative counts from the end, then clamped to the list. */
  function SliceBound(i: int, n: nat): (b: nat)
    ensures b <= n
    ensures 0 <= i <= n ==> b == i
  {
    if i < 0 then (if i + n < 0 then 0 else i + n) else if i > n then n else i
  }

  /** `xs[start:end]`. */
  function PySlice<T>(xs: seq<T>, start: int, end: int): (r: seq<T>)
    ensures |r| <= |xs|
  {
    var a, b := SliceBound(start, |xs|), SliceBound(end, |xs|);
    if a < b then xs[a..b] else []
  }

  /** Python's `a // b`: the quotient rounded toward minus infinity. */
  function FloorDiv(a: int, b: int): (q: int)
    requires b != 0
    ensures b > 0 ==> q * b <= a < q * b + b
    ensures b < 0 ==> q * b >= a > q * b + b
  {
    if b > 0 then a / b else (-a) / (-b)
  }

  /**
   * The page `page` of `pageSize` records: the slice `[(page-1)*size : (page-1)*size + size]`,
   * the count before slicing, `(count + size - 1) // size` pages, `next` when a later page
   * exists and `previous` after the first. None for the `ZeroDivisionError` of a size of 0.
   */
  function Paginate(xs: seq<CostRecord>, pageSize: int, page: int): (p: Option<Page>)
    ensures p.None? <==> pageSize == 0
    ensures p.Some? ==> p.value.count == p.value.total == |xs| && p.value.page == page && p.value.pageSize == pageSize
  {
    if pageSize == 0 then None
    else
      var start := (page - 1) * pageSize;
      var totalPages := FloorDiv(|xs| + pageSize - 1, pageSize);
      Some(Page(PySlice(xs, start, start + pageSize), |xs|, |xs|, page, pageSize, totalPages,
                page < totalPages, page > 1))
  }

  /** With a positive size, the page count is the count divided by the size, rounded up. */
  lemma PageCount(xs: seq<CostRecord>, pageSize: int, page: int)
    requires pageSize > 0
    ensures var t := Paginate(xs, pageSize, page).value.totalPages;
            && (t - 1) * pageSize < |xs| <= t * pageSize
            && (|xs| == 0 <==> t == 0)
  {
    var t := FloorDiv(|xs| + pageSize - 1, pageSize);
    assert t * pageSize <= |xs| + pageSize - 1 < t * pageSize + pageSize;
    assert (t - 1) * pageSize == t * pageSize - pageSize;
    if t <= 0 {
      assert t * pageSize <= 0;
    }
  }

  /**
   * From page 1 on, a page holds the records from `(page-1)*size` up to `page*size`, cut at the
   * end of the list: at most `size` of them, none past the last page, some on every page up to
   * it; `next` and `previous` say whether pages follow and precede.
   */
  lemma PageContents(xs: seq<CostRecord>, pageSize: int, page: int)
    requires pageSize > 0 && page >= 1
    ensures var p := Paginate(xs, pageSize, page).value;
            var lo := if (page - 1) * pageSize < |xs| then (page - 1) * pageSize else |xs|;
            var hi := if page * pageSize < |xs| then page * pageSize else |xs|;
            && p.results == xs[lo..hi]
            && |p.results| <= pageSize
            && (page > p.totalPages <==> p.results == [])
            && (p.next <==> page < p.totalPages)
            && (p.previous <==> page > 1)
  {
    var p := Paginate(xs, pageSize, page).value;
    var start := (page - 1) * pageSize;
    MulMono(0, page - 1, pageSize);
    assert start + pageSize == page * pageSize;
    assert p.results == PySlice(xs, start, start + pageSize);
    PastTheLastPage(|xs|, pageSize, page, p.totalPages);
  }

  /** A page starts at or past the end exactly when it comes after the last page. */
  lemma PastTheLastPage(n: nat, pageSize: int, page: int, t: int)
    requires pageSize > 0 && t == FloorDiv(n + pageSize - 1, pageSize)
    ensures page > t <==> (page - 1) * pageSize >= n
  {
    assert t * pageSize <= n + pageSize - 1 < t * pageSize + pageSize;
    if page > t {
      MulMono(t, page - 1, pageSize);
    } else {
      MulMono(page - 1, t - 1, pageSize);
      assert (t - 1) * pageSize == t * pageSize - pageSize;
    }
  }

  lemma MulMono(a: int, b: int, c: int)
    requires a <= b && c > 0
    ensures a * c <= b * c
  {
    assert b * c - a * c == (b - a) * c;
  }

  /** Record `i` is on page `i / size + 1`, at position `i % size`. */
  lemma RecordOnItsPage(xs: seq<CostRecord>, pageSize: int, i: nat)
    requires pageSize > 0 && i < |xs|
    ensures var p := Paginate(xs, pageSize, i / pageSize + 1).value;
            i % pageSize < |p.results| && p.results[i % pageSize] == xs[i]
  {
    PageBounds(i, pageSize);
    PageEntry(xs, pageSize, i / pageSize + 1, i - i % pageSize, i % pageSize);
  }

  /** On a page starting at `start`, position `r` holds record `start + r`. */
  lemma PageEntry(xs: seq<CostRecord>, pageSize: int, page: int, start: int, r: int)
    requires pageSize > 0
    requires (page - 1) * pageSize == start
    requires 0 <= start && 0 <= r < pageSize && start + r < |xs|
    ensures var p := Paginate(xs, pageSize, page).value;
            r < |p.results| && p.results[r] == xs[start + r]
  {
    assert Paginate(xs, pageSize, page).value.results == PySlice(xs, start, start + pageSize);
    PySliceAt(xs, start, start + pageSize, r);
  }

  /** Inside both bounds, position `r` of a slice from `start` is element `start + r`. */
  lemma PySliceAt<T>(xs: seq<T>, start: int, end: int, r: int)
    requires 0 <= start && 0 <= r && start + r < |xs| && start + r < end
    ensures r < |PySlice(xs, start, end)| && PySlice(xs, start, end)[r] == xs[start + r]
  {
  }

  /** The page of record `i` starts at `i` less its position on the page and ends one size later. */
  lemma PageBounds(i: nat, pageSize: int)
    requires pageSize > 0
    ensures (i / pageSize) * pageSize == i - i % pageSize
    ensures (i / pageSize + 1) * pageSize == i - i % pageSize + pageSize
  {
  }

  /** `int(request.query_params.get(key, default))`: None for a `ValueError`. */
  function IntParam(params: Params, key: string, default: int): (r: Option<int>)
    ensures key !in params ==> r == Some(default)
  {
    if key in params then ParseInt(params[key]) else Some(default)
  }

  /** The endpoint's answers: a 400 for a bad date, a 500 for an exception, or a page. */
  datatype Response = BadRequest(error: string) | ServerError | Ok(body: Page)

  /** The records at date `d`, filtered and ordered, paginated; None for an exception. */
  function ListAt(params: Params, d: Date, items: seq<Item>, ledger: seq<Record>): (r: Option<Page>)
    ensures r.Some? <==>
              && IntParam(params, "page_size", 10).Some?
              && IntParam(params, "page", 1).Some?
              && IntParam(params, "page_size", 10).value != 0
    ensures r.Some? ==>
              r == Paginate(SortRecords(CostRecords(items, ledger, d, Filters(params)), Param(params, "ordering", "")).value,
                            IntParam(params, "page_size", 10).value, IntParam(params, "page", 1).value)
    ensures r.Some? ==> r.value.count == |CostRecords(items, ledger, d, Filters(params))|
  {
    var result := CostRecords(items, ledger, d, Filters(params));
    match SortRecords(result, Param(params, "ordering", ""))
    case None => None
    case Some(sorted) =>
      match (IntParam(params, "page_size", 10), IntParam(params, "page", 1))
      case (Some(pageSize), Some(page)) => Paginate(sorted, pageSize, page)
      case _ => None
  }

  /**
   * `StockCostViewSet.list`: a bad `stockDate` is a 400 whatever the items; otherwise the page
   * at that date (today by default), or a 500 where the code raises.
   */
  function StockCostList(params: Params, today: Date, items: seq<Item>, ledger: seq<Record>): (resp: Response)
    ensures Param(params, "stockDate", "") != [] && ParseIsoDate(params["stockDate"]).None? <==> resp == BadRequest(DateError)
    ensures Param(params, "stockDate", "") == [] ==>
              resp == (match ListAt(params, today, items, ledger) case None => ServerError case Some(p) => Ok(p))
    ensures Param(params, "stockDate", "") != [] && ParseIsoDate(params["stockDate"]).Some? ==>
              resp == (match ListAt(params, ParseIsoDate(params["stockDate"]).value, items, ledger)
                       case None => ServerError
                       case Some(p) => Ok(p))
    ensures resp.Ok? ==> resp.body.count == resp.body.total
  {
    match RequestDate(params, today)
    case None => BadRequest(DateError)
    case Some(d) =>
      match ListAt(params, d, items, ledger)
      case None => ServerError
      case Some(p) => Ok(p)
  }

  /**
   * The endpoint step by step: the date, the filters, each item's record appended in turn, the
   * sort, the page.
   */
  method List(params: Params, today: Date, items: seq<Item>, ledger: seq<Record>) returns (resp: Response)
    ensures resp == StockCostList(params, today, items, ledger)
  {
    var stockDate := RequestDate(params, today);
    if stockDate.None? {
      return BadRequest(DateError);
    }
    var d := stockDate.value;
    var f := Filters(params);
    var result: seq<CostRecord> := [];
    var i := 0;
    while i < |items|
      invariant 0 <= i <= |items|
      invariant result == CostRecords(items[..i], ledger, d, f)
    {
      var item := items[i];
      CostRecordsSnoc(items, ledger, d, f, i);
      if Selected(item, f) {
        var estoqueAtual := StockQuantity(ledger, item.codSku, Some(d));
        if !(f.onlyStock && estoqueAtual <= 0.0) {
          result := result + [CostRecordOf(item, ledger, d)];
        }
      }
      i := i + 1;
    }
    assert result == CostRecords(items, ledger, d, f) by {
      assert items[..|items|] == items;
    }
    ghost var spec := ListAt(params, d, items, ledger);
    assert StockCostList(params, today, items, ledger) == match spec case None => ServerError case Some(p) => Ok(p);
    var sorted := SortRecords(result, Param(params, "ordering", ""));
    result := sorted.value;
    var pageSize := IntParam(params, "page_size", 10);
    var page := IntParam(params, "page", 1);
    if pageSize.None? || page.None? || pageSize.value == 0 {
      assert spec.None?;
      return ServerError;
    }
    resp := Ok(Paginate(result, pageSize.value, page.value).value);
    assert spec == Paginate(result, pageSize.value, page.value);
  }

  /** One more item adds its record when it is listed. */
  lemma CostRecordsSnoc(items: seq<Item>, ledger: seq<Record>, d: Date, f: StockFilters, i: nat)
    requires i < |items|
    ensures CostRecords(items[..i + 1], ledger, d, f)
            == CostRecords(items[..i], ledger, d, f) + (if Listed(items[i], ledger, d, f) then [CostRecordOf(items[i], ledger, d)] else [])
  {
    assert items[..i + 1][..i] == items[..i];
  }

  /** Without parameters: today's records of every item, in query order, first page of ten. */
  lemma NoParameters(today: Date, items: seq<Item>, ledger: seq<Record>)
    ensures StockCostList(map[], today, items, ledger)
            == Ok(Paginate(CostRecords(items, ledger, today, StockFilters("", "", false, false)), 10, 1).value)
  {
    var params: Params := map[];
    assert RequestDate(params, today) == Some(today);
    assert Filters(params) == StockFilters("", "", false, false);
    assert Param(params, "ordering", "") == "";
    assert IntParam(params, "page_size", 10) == Some(10);
    assert IntParam(params, "page", 1) == Some(1);
  }

  /** One entry of 10 at 5.00 today, no parameters: one record, unit cost 5.00, on page 1 of 1. */
  lemma OneEntryExample(today: Date)
    ensures var it := NewItem("TEST001", "Test item", "UN");
            var ledger := [Record(1, Entry, "TEST001", 10.0, 5.0, today, 1, None, None)];
            var resp := StockCostList(map[], today, [it], ledger);
            && resp.Ok? && |resp.body.results| == 1
            && resp.body.results[0].unitCost == 5.0 && resp.body.results[0].quantity == 10.0
            && resp.body.totalPages == 1 && !resp.body.next && !resp.body.previous
  {
    var it := NewItem("TEST001", "Test item", "UN");
    var ledger := [Record(1, Entry, "TEST001", 10.0, 5.0, today, 1, None, None)];
    var f := StockFilters("", "", false, false);
    NoParameters(today, [it], ledger);
    AverageCostExample(today);
    StockExampleOneEntry(today);
    var rec := CostRecordOf(it, ledger, today);
    assert rec.unitCost == 5.0 && rec.quantity == 10.0;
    assert Listed(it, ledger, today, f);
    assert [it][..0] == [];
    assert CostRecords([it], ledger, today, f) == [rec];
    PageContents([rec], 10, 1);
    PageCount([rec], 10, 1);
  }

  lemma StockExampleOneEntry(today: Date)
    ensures StockQuantity([Record(1, Entry, "TEST001", 10.0, 5.0, today, 1, None, None)], "TEST001", Some(today)) == 10.0
  {
    var e := Record(1, Entry, "TEST001", 10.0, 5.0, today, 1, None, None);
    DateLeTotalOrder(today, today, today);
    StockAfterAppend([], e, "TEST001", Some(today));
    StockWithoutTransactions([], "TEST001", Some(today));
    assert [] + [e] == [e];
  }
}
