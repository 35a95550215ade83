# Stock control ledger and costing, in Dafny

This project models the inventory back end of the stock control system (a Django app): how stock
and cost are derived from the ledger of entries (`entradas`) and exits (`saídas`), and how that
ledger is kept consistent when transactions are deleted or edited.

- **Ledger.** Every `Transacao` row carries an item, a quantity and a unit value. It is an entry or
  an exit according to the `Entrada`/`Saida` row that points at it. `Models.Ledger` flattens the
  three tables into one list of `Record`s.
- **Stock service.** Stock at a date is the entries minus the exits up to that date. The average
  cost is the net value over the stock while the stock is positive, and 0 otherwise. The model
  also covers:
  - the last entry cost;
  - the three-month consumption estimate and its day/week/month/year buckets;
  - the stock list: its filters, and the multi-field `ordering` sort with Python's stable sort.
- **Transaction service.**
  - The availability check.
  - The per-item history sorted by transaction id.
  - The running totals up to a transaction.
  - The re-costing of every later exit at the running average, rounded half-even to cents. It is
    an imperative walk over an array, proved equal to a functional specification.
  - The replay that checks a deletion or an edit never takes the stock below zero.
  - `delete_transaction_with_validation` and `update_transaction_with_validation`, as methods of
    an `Inventory` class whose ledger they change.
- **Stock cost endpoint.** The `stockDate` parameter, the filters, one cost record per item, the
  sort, and the page arithmetic (`StockCostApi`).
- **Users.**
  - The `post_save` signal that gives every new login an inventory profile (`Usuario`) with the
    next `mat_usuario`.
  - The `create_usuarios` management command.
  - The registration and update serializers: password checks, defaults, the permission list.
- **Supporting pieces.**
  - Brazilian date and date-time fields: `%d/%m/%Y`, `%d/%m/%y`, `%d/%m/%Y %H:%M:%S`,
    `%d/%m/%Y %H:%M`, each a `strptime` grammar, with round trips proved.
  - camelCase/snake_case key conversion of JSON (`utils.py`).
  - Python's `int()`, `str.strip`, `str.split` and `round(Decimal, 2)`.

Money and quantities are exact `real`s. `IsCents` marks the two-decimal values the database
stores.

The model follows the code where its comments or naming suggest otherwise:
- The average cost is computed only when the stock is strictly positive (`> 0`,
  services.py:97-101).
- The `hasStock` filter drops items whose stock is `<= 0`, not only `== 0` (api.py:72-73).

Everything from `services.py:511` on is indented inside `class UserService`, yet it is called as
`TransactionService.…`. This includes the history, the re-costing, the replay and the two
edit operations. As written, the views that call them answer 500 (see "## Findings"). The model
gives these bodies the meaning evidently intended, as functions of the transaction service.

## Model

| member | source | states |
|---|---|---|
| StockService.StockWithoutTransactions | stock_control_backend/inventory/services.py:46-61 | an item with no transactions has stock 0 and net value 0 |
| StockService.StockAfterAppend | stock_control_backend/inventory/services.py:46-61 | one more transaction changes the stock by its quantity if it is a counted entry, minus it if a counted exit, else not at all |
| StockService.StockAtLateDate | stock_control_backend/inventory/services.py:46-61 | a valuation date on or after every transaction gives the same stock and net value as no date |
| StockService.StockExample | stock_control_backend/inventory/tests/test_services.py:70-102 | an entry of 10 and an exit of 3 leave a stock of 7 |
| StockService.AverageCost | stock_control_backend/inventory/services.py:64-101 | with positive stock, cost times stock is the net value; with stock at or below zero the cost is 0 |
| StockService.AverageCostBetweenEntryPrices | stock_control_backend/inventory/services.py:64-101 | with entries only, the average cost lies between the lowest and the highest entry price |
| StockService.AverageCostExample | stock_control_backend/inventory/tests/test_services.py:104-142 | one entry of 10 at 5.00 gives average cost 5.00 and last entry cost 5.00 |
| StockService.LastEntry | stock_control_backend/inventory/services.py:104-123 | the counted entry with the highest transaction id, or None exactly when no entry counts |
| StockService.LastEntryCost | stock_control_backend/inventory/services.py:104-123 | that entry's unit value, 0 when there is none |
| StockService.Bucket | stock_control_backend/inventory/services.py:163-179 | under one day, days 1-6, weeks 1-4, months 1-12 or years, each exactly on its interval, and the count bounds the days from both sides |
| StockService.ConsumptionEstimate | stock_control_backend/inventory/services.py:126-179 | "no stock" exactly when stock <= 0; an error exactly when the three-month window falls before year 1; "no recent consumption" exactly when no exits fall in the window; otherwise the bucket of stock × 90 / recent exits |
| StockService.CountedLabelReadsBack | stock_control_backend/inventory/services.py:163-179 | each rendered estimate splits into a number that `int()` reads back as the count, and the singular or plural unit |
| StockService.EstimateCountsPositive | stock_control_backend/inventory/services.py:163-179 | every counted estimate has a count of at least 1 |
| StockService.RowOf | stock_control_backend/inventory/services.py:271-296 | a row carries the item's SKU and stock; it is skipped exactly when the stock filter rejects it or the estimate raises |
| StockService.RowsExactly | stock_control_backend/inventory/services.py:262-296 | a row is listed if and only if it is the row of a selected item |
| StockService.RowsInStock | stock_control_backend/inventory/services.py:271-296 | with the stock filter on, every listed row has positive stock |
| StockService.SortStockItems | stock_control_backend/inventory/services.py:182-230 | no ordering keeps the rows; otherwise a permutation of the rows, sorted by the keys of the ordering fields |
| StockService.MinusQuantityDescending | stock_control_backend/inventory/services.py:182-230 | "-quantity" lists the rows with non-increasing quantity |
| StockService.MinusQuantityAsWrittenAscends | stock_control_backend/inventory/services.py:218-230 | as written, "-quantity" puts a smaller quantity first |
| StockService.MinusQuantityAsWrittenSort | stock_control_backend/inventory/services.py:218-230 | as written, "-quantity" is the sort on the negated quantity, reversed |
| StockService.MinusQuantityAsWrittenOrder | stock_control_backend/inventory/services.py:218-230 | as written, under that reversed sort the larger quantity's key never comes before the smaller one's |
| StockService.GetStockItems | stock_control_backend/inventory/services.py:233-302 | the loop builds the specified list: the rows unsorted without ordering, and always a permutation of the listed rows; the sort is the corrected one, where a '-' field sorts descending |
| TransactionService.AvailabilityMonotone | stock_control_backend/inventory/services.py:336-347 | an accepted request stays accepted for any smaller quantity |
| TransactionService.AvailabilityExample | stock_control_backend/inventory/tests/test_services.py:174-214 | a stock of 10 accepts 5 and 10 and refuses 15 |
| TransactionService.OfSku | stock_control_backend/inventory/services.py:565-573 | exactly the ledger's transactions of that item |
| TransactionService.AllTransactionsForSku | stock_control_backend/inventory/services.py:554-598 | a permutation of the item's transactions, ordered by id |
| TransactionService.IdKeyOrder | stock_control_backend/inventory/services.py:596 | the sort key orders transactions exactly as their ids |
| TransactionService.CalculateStockUntilTransaction | stock_control_backend/inventory/services.py:601-629 | the loop returns the entry and exit sums over the transactions with id at most the given one |
| TransactionService.TotalsBeforeEveryId | stock_control_backend/inventory/services.py:601-629 | when every id is later, all four sums are 0 |
| TransactionService.TotalsAtLastId | stock_control_backend/inventory/services.py:601-629 | when no id is later, the sums give the item's stock and net value |
| TransactionService.RunningAverageMeaning | stock_control_backend/inventory/services.py:663-669 | the running average times the running stock is the running value while the stock is positive, and 0 otherwise |
| TransactionService.UpdateSubsequentExitCosts | stock_control_backend/inventory/services.py:632-682 | the in-place loop leaves the array equal to the specified walk's output and returns its count |
| TransactionService.RecostFrom | stock_control_backend/inventory/services.py:698-708 | running totals, then the walk over a fresh array: exactly the specified output and count |
| TransactionService.StepEarlier | stock_control_backend/inventory/services.py:656-657 | a transaction at or before the edited one passes through untouched |
| TransactionService.StepLaterEntry | stock_control_backend/inventory/services.py:658-660 | a later entry passes through and joins the entry sums |
| TransactionService.StepLaterExit | stock_control_backend/inventory/services.py:661-680 | a later exit is given the running average rounded to cents, and leaves at the unrounded average |
| TransactionService.StepOut | stock_control_backend/inventory/services.py:656-680 | an emitted line differs from its input at most in unit value; earlier lines and entries are unchanged; later exits get a cents value |
| TransactionService.RecostChangesOnlyLaterExitCosts | stock_control_backend/inventory/services.py:656-680 | the walk keeps length and order, leaves earlier lines and all entries alone, and gives each later exit a cents unit value and nothing else |
| TransactionService.RecostCount | stock_control_backend/inventory/services.py:654-682 | the returned count is the number of exits after the edited transaction |
| TransactionService.RecostSums | stock_control_backend/inventory/services.py:656-680 | the walk's final entry sums and exit quantity are the start values plus the later entries and exits |
| TransactionService.RecostPrefix | stock_control_backend/inventory/services.py:656-680 | the walk over a prefix is the prefix of the walk |
| TransactionService.ExitKeepsAverage | stock_control_backend/inventory/services.py:663-680 | an exit taken at the average leaves the average unchanged while stock remains |
| TransactionService.ConsecutiveExitsSameCost | stock_control_backend/inventory/services.py:656-680 | two later exits in a row, the first leaving stock, are given the same unit cost |
| TransactionService.SimulateStockAfterOperation | stock_control_backend/inventory/services.py:724-764 | the loop returns exactly the specified replay |
| TransactionService.SimulateFailureStays | stock_control_backend/inventory/services.py:761-762 | once the replay fails, replaying further changes nothing |
| TransactionService.SimulateMeaning | stock_control_backend/inventory/services.py:742-764 | valid exactly when every running stock is >= 0, with the final stock; otherwise the first transaction that goes negative is reported with the stock it left |
| TransactionService.DeletingExitRaisesStock | stock_control_backend/inventory/services.py:746-758 | skipping an exit never lowers a running stock |
| TransactionService.DeletingExitKeepsValid | stock_control_backend/inventory/services.py:742-764 | deleting an exit from a valid history leaves it valid |
| TransactionService.DeleteEntryBeforeExitExample | stock_control_backend/inventory/tests/test_services.py:252-287 | deleting the entry of 10 before an exit of 8 fails at the exit with stock -8 |
| TransactionService.ValidateStockAfterOperation | stock_control_backend/inventory/services.py:767-812 | a valid result names no transaction; an invalid one names the failing transaction and a negative stock |
| TransactionService.FindSame | stock_control_backend/inventory/services.py:672 | the re-costed line with the same transaction, or None when there is none |
| TransactionService.WriteBack | stock_control_backend/inventory/services.py:672-674 | saving the re-costed lines keeps the ledger's length and every field except unit values, and keeps lines that were not re-costed |
| TransactionService.WriteBackKeepsLine | stock_control_backend/inventory/services.py:672-674 | with unique ids, a line the walk kept is saved back unchanged |
| TransactionService.WriteBackKeepsLines | stock_control_backend/inventory/services.py:672-674 | the same for every such line of the ledger |
| TransactionService.RecostWriteBack | stock_control_backend/inventory/services.py:685-708 | after the re-costing is saved, other items, entries and lines up to the edited one are unchanged |
| TransactionService.RecalculationChangesOnlyLaterExitCosts | stock_control_backend/inventory/services.py:685-714 | re-costing changes only unit values, only of that item's exits after the edited transaction, and reports how many such exits there are |
| TransactionEdits.ParseTransactionId | stock_control_backend/inventory/services.py:826-827 | a parsed reference has a type without '-' |
| TransactionEdits.ParseTransactionIdRoundTrip | stock_control_backend/inventory/services.py:826-827 | `tipo-id` with a non-negative id parses back to its type and id |
| TransactionEdits.NegativeIdRefused | stock_control_backend/inventory/services.py:826-827 | a negative id yields a second '-' and is rejected as a format error |
| TransactionEdits.FindByCode | stock_control_backend/inventory/services.py:831 | the position of the row with that type and code, or None exactly when none exists |
| TransactionEdits.RemoveAt | stock_control_backend/inventory/services.py:847-848 | removing one row shifts the rest down, and keeps ids unique while the removed id disappears |
| TransactionEdits.SameButCostsKeepsUniqueIds | stock_control_backend/inventory/services.py:685-714 | changing only unit values keeps ids unique |
| TransactionEdits.DeleteEntry | stock_control_backend/inventory/services.py:847-853 | deleting an entry removes its row and changes only unit values of that item's later exits |
| TransactionEdits.DeleteEntryAsWrittenKeepsStaleCosts | stock_control_backend/inventory/services.py:847-853 | as written, deleting an entry re-costs nothing |
| TransactionEdits.ExitAfterOnlyEntry | stock_control_backend/inventory/services.py:656-680 | an exit after a single entry is given that entry's unit value |
| TransactionEdits.DeleteEntryExample | stock_control_backend/inventory/services.py:847-853 | with entries at 5 and 7 and an exit, deleting the first entry re-costs the exit at 7, but as written it keeps 6 |
| TransactionEdits.DeleteBeforeEntryAndExit | stock_control_backend/inventory/services.py:847-853 | in general: an entry deleted before another entry and an exit re-costs the exit at the remaining entry's price, but as written it does not |
| TransactionEdits.RecalculationSameButCosts | stock_control_backend/inventory/services.py:685-721 | re-costing, or its failure, changes unit values only |
| TransactionEdits.KindNamed | stock_control_backend/inventory/services.py:829-868 | "entrada" names an entry and "saida" an exit; any other type is unknown |
| TransactionEdits.DeleteCheck | stock_control_backend/inventory/services.py:835-837 | a rejected deletion names the failing transaction |
| TransactionEdits.DeletionOfKind | stock_control_backend/inventory/services.py:829-868 | an unknown type and a missing row change nothing and are reported; it succeeds exactly when the row of that type exists and, for an entry, its replay passed, and the ledger is then that row deleted; a rejection is the entry's failing replay; an existing exit is always deleted; ids stay unique |
| TransactionEdits.EntryDeletion | stock_control_backend/inventory/services.py:829-853 | the entry is deleted exactly when the replay without it passes, and then the ledger is the entry removed with its later exits re-costed; otherwise the ledger is unchanged and the failing replay is reported |
| TransactionEdits.Deletion | stock_control_backend/inventory/services.py:815-901 | a malformed reference is a format error that changes nothing; it succeeds exactly when the reference parses to a known type and that row is deleted as above |
| TransactionEdits.EditEntry | stock_control_backend/inventory/services.py:904-927 | the edited row takes the given quantity, unit cost, invoice and supplier; with unique ids every other line is unchanged except unit values of the item's exits after the edited one; ids stay unique |
| TransactionEdits.EditEntryKeepsOthers | stock_control_backend/inventory/services.py:685-714 | the re-costing after an entry edit keeps the edited line and every line that is not a later exit of its item |
| TransactionEdits.EditExit | stock_control_backend/inventory/services.py:930-948 | the ledger is the exit's line with the given quantity and unit cost, every other line as it was |
| TransactionEdits.EditCheck | stock_control_backend/inventory/services.py:975-978 | a rejected edit names the failing transaction |
| TransactionEdits.EntryUpdate | stock_control_backend/inventory/services.py:969-987 | the entry is edited exactly when the replay with its new quantity passes and a given supplier exists, and the ledger is then the edited entry with its later exits re-costed; a rejection is the failing replay; a failure changes nothing |
| TransactionEdits.ExitUpdate | stock_control_backend/inventory/services.py:989-1004 | the exit is edited exactly when the replay with its new quantity passes, without re-costing; otherwise the failing replay is reported and nothing changes |
| TransactionEdits.UpdateOfKind | stock_control_backend/inventory/services.py:969-1010 | an unknown type changes nothing; it succeeds exactly when the row of that type exists, its replay passes and, for an entry, the supplier exists, and the ledger is then that row edited; a rejection is that row's failing replay; ids stay unique |
| TransactionEdits.Updating | stock_control_backend/inventory/services.py:951-1022 | a malformed reference is a failure; it succeeds exactly when the reference parses to a known type whose row may be updated as above, and the ledger is then that row edited; the ledger keeps its length |
| TransactionEdits.StatusOf | stock_control_backend/inventory/views.py:523-540 | 200 exactly for a success, 400 for any other outcome |
| TransactionEdits.DeleteView | stock_control_backend/inventory/views.py:521-540 | the delete view answers 200 exactly when the deletion succeeds, 400 otherwise, and the ledger is the deletion's |
| TransactionEdits.UpdateView | stock_control_backend/inventory/views.py:542-561 | the same for the update view |
| TransactionEdits.ExitDeleteViewAsWrittenFails | stock_control_backend/inventory/views.py:521-540 | as written, deleting an existing exit answers 500 and keeps the ledger; as intended it answers 200 and removes a row |
| TransactionEdits.ExitUpdateGoesAhead | stock_control_backend/inventory/services.py:989-1004 | an exit found by its code whose replay passes is edited |
| TransactionEdits.ExitUpdateViewAsWrittenFails | stock_control_backend/inventory/views.py:542-561 | as written, updating an existing exit answers 500; as intended it answers 200 and edits the exit |
| TransactionEdits.Inventory.constructor | stock_control_backend/inventory/models.py:7-37 | a ledger with unique transaction ids and the known suppliers |
| TransactionEdits.Inventory.ValidateStockAfterOperation | stock_control_backend/inventory/services.py:767-812 | reads the ledger and returns the specified validation |
| TransactionEdits.Inventory.RecalculateSubsequentCosts | stock_control_backend/inventory/services.py:685-721 | the new ledger and result are the specified recalculation of the old ledger; the ids stay unique |
| TransactionEdits.Inventory.DeleteTransactionWithValidation | stock_control_backend/inventory/services.py:815-901 | the new ledger and outcome are the specified deletion; the ids stay unique |
| TransactionEdits.Inventory.DeleteOfKind | stock_control_backend/inventory/services.py:829-868 | the same once the reference is parsed |
| TransactionEdits.Inventory.DeleteEntryRow | stock_control_backend/inventory/services.py:829-853 | the same for an entry row, with the corrected re-costing that receives the deleted transaction's id |
| TransactionEdits.Inventory.UpdateTransactionWithValidation | stock_control_backend/inventory/services.py:951-1022 | the new ledger and outcome are the specified update |
| TransactionEdits.Inventory.UpdateEntry | stock_control_backend/inventory/services.py:969-987 | the same for an entry row |
| TransactionEdits.Inventory.UpdateExit | stock_control_backend/inventory/services.py:989-1004 | the same for an exit row |
| StockCostApi.RequestDate | stock_control_backend/inventory/api.py:20-31 | today when `stockDate` is absent or empty, otherwise the `%Y-%m-%d` reading of it |
| StockCostApi.CostRecordOf | stock_control_backend/inventory/api.py:65-110 | the item's fields and stock; with positive stock, unit cost × stock and the total cost are the net value, otherwise both are 0; last entry cost None exactly when it is 0 |
| StockCostApi.CostRecordsExactly | stock_control_backend/inventory/api.py:54-110 | a record is listed if and only if it is the record of an item that passes the filters |
| StockCostApi.HasStockDropsExactly | stock_control_backend/inventory/api.py:71-73 | with `hasStock`, a selected item is listed exactly when its stock is positive |
| StockCostApi.SortRecordsAsWritten | stock_control_backend/inventory/api.py:113-159 | no ordering keeps the records |
| StockCostApi.LastEntryCostSortFails | stock_control_backend/inventory/api.py:106 | as written, sorting by lastEntryCost a record with a cost and one without raises |
| StockCostApi.LastEntryCostSortAsWritten | stock_control_backend/inventory/api.py:104-121 | as written, ordering "lastEntryCost" is Python's ascending sort on that one key |
| StockCostApi.LastEntryCostMissingIncomparable | stock_control_backend/inventory/api.py:106 | as written, the keys of a record with a last entry cost and one without cannot be ordered |
| StockCostApi.CostFieldSameKind | stock_control_backend/inventory/api.py:113-155 | a field gives every record a value of the same kind |
| StockCostApi.CostKeysComparable | stock_control_backend/inventory/api.py:113-159 | with the corrected values, any two records' keys can be compared |
| StockCostApi.SortRecords | stock_control_backend/inventory/api.py:113-159 | the sort never raises, keeps the records without ordering, and otherwise returns a permutation sorted by the fields, reversed when the first field starts with '-' |
| StockCostApi.Paginate | stock_control_backend/inventory/api.py:161-183 | a page size of 0 raises; otherwise count and total are the list length and page and size are echoed |
| StockCostApi.PageCount | stock_control_backend/inventory/api.py:172 | the page count is the least t with length <= t × size, and 0 exactly for an empty list |
| StockCostApi.PageContents | stock_control_backend/inventory/api.py:166-183 | a page holds the slice it names, at most a page size long; it is empty exactly past the last page; next and previous are as stated |
| StockCostApi.RecordOnItsPage | stock_control_backend/inventory/api.py:166-169 | every record appears on page i / size + 1 at position i mod size |
| StockCostApi.PageEntry | stock_control_backend/inventory/api.py:166-169 | on the page that starts at record `start`, position r holds record start + r |
| StockCostApi.PySliceAt | stock_control_backend/inventory/api.py:169 | within both bounds, position r of `xs[start:end]` is `xs[start + r]` |
| StockCostApi.FloorDiv | stock_control_backend/inventory/api.py:172 | Python's `//`: the quotient rounded toward negative infinity |
| StockCostApi.IntParam | stock_control_backend/inventory/api.py:162-163 | a missing parameter takes its default |
| StockCostApi.ListAt | stock_control_backend/inventory/api.py:54-183 | a page comes back exactly when `page_size` and `page` parse and the size is not 0 (otherwise the exception); it is then the requested page of the filtered records at that date in the corrected sort order, and counts exactly those records |
| StockCostApi.StockCostList | stock_control_backend/inventory/api.py:16-183 | a bad `stockDate` is exactly the 400 answer; a valid one lists at that date, and no date lists at today, each a 500 where the listing raises; count equals total; the corrected sort is used |
| StockCostApi.List | stock_control_backend/inventory/api.py:16-183 | the loop builds the specified response, with the corrected sort |
| StockCostApi.NoParameters | stock_control_backend/inventory/api.py:33-41 | no parameters: today, no filters, page 1 of 10 |
| StockCostApi.OneEntryExample | stock_control_backend/inventory/tests/test_views.py:211-234 | one entry of 10 at 5 lists one record with unit cost 5 and quantity 10 on a single page |
| Models.ValorTotal | stock_control_backend/inventory/models.py:60-63 | the total of stored values has four decimals, and is non-negative for non-negative inputs |
| Models.CentsProduct | stock_control_backend/inventory/models.py:28-37 | two two-decimal values multiply to a four-decimal value |
| Models.FindTransacao | stock_control_backend/inventory/models.py:7-37 | the row with that id, or None exactly when there is none |
| Models.EntryRecords | stock_control_backend/inventory/models.py:212-238 | every entry record comes from an `Entrada` row and its `Transacao` |
| Models.ExitRecords | stock_control_backend/inventory/models.py:267-293 | every exit record comes from a `Saida` row and its `Transacao` |
| Models.LedgerKindFromRows | stock_control_backend/inventory/models.py:65-73 | a ledger record's kind is backed by `is_entrada` or `is_saida` of its transaction |
| Models.ItemStr | stock_control_backend/inventory/models.py:111-112 | the SKU, " - ", then the description |
| Models.NewItem | stock_control_backend/inventory/models.py:76-100 | a new item is active and carries the given fields |
| Models.AddItem | stock_control_backend/inventory/models.py:83-87 | adding fails exactly on a duplicate SKU, otherwise appends; SKUs stay unique |
| Models.NomeUsuario | stock_control_backend/inventory/models.py:176 | the stripped full name when non-empty, otherwise the username |
| Models.MaxMat | stock_control_backend/inventory/models.py:171 | the largest profile number, attained by some profile |
| Models.NextMat | stock_control_backend/inventory/models.py:171-172 | 1 for no profiles, otherwise one past the largest number |
| Models.UsuarioOf | stock_control_backend/inventory/models.py:129-136 | the profile linked to the login, None exactly when there is none |
| Models.NextMatKeepsUnique | stock_control_backend/inventory/models.py:171-178 | a profile numbered `NextMat` keeps profile numbers unique |
| Models.UserStore.constructor | stock_control_backend/inventory/models.py:115-147 | empty tables satisfy the profile invariants |
| Models.NewProfileKeepsValid | stock_control_backend/inventory/models.py:165-178 | adding a profile numbered by the next number, for a login with no profile, keeps profile numbers and logins unique |
| Models.UserStore.CreateUsuario | stock_control_backend/inventory/models.py:165-178 | a new login gets one profile with the next number, its name, and no permissions; the invariants hold |
| CreateUsuarios.Handle | stock_control_backend/inventory/management/commands/create_usuarios.py:9-39 | the loop reaches the specified run: its profiles, next number and both counters |
| CreateUsuarios.RunCounts | stock_control_backend/inventory/management/commands/create_usuarios.py:19-35 | created plus existing is the number of users; old profiles are kept and one is added per created user |
| CreateUsuarios.RunNumbers | stock_control_backend/inventory/management/commands/create_usuarios.py:16-35 | the new profiles are numbered consecutively from the first free number |
| CreateUsuarios.RunCoversUsers | stock_control_backend/inventory/management/commands/create_usuarios.py:19-35 | afterwards every user has a profile |
| CreateUsuarios.RunKeepsProfilesValid | stock_control_backend/inventory/management/commands/create_usuarios.py:16-35 | profile numbers stay unique and no login gets two profiles |
| CreateUsuarios.ExactlyOneProfile | stock_control_backend/inventory/management/commands/create_usuarios.py:19-35 | afterwards every user has exactly one profile |
| Serializers.DateToInternal | stock_control_backend/inventory/serializers.py:13-37 | falsy input is None, a date passes through, other types are invalid, text is stripped and tried as `%d/%m/%Y`, `%d/%m/%y`, then ISO |
| Serializers.DateToRepresentation | stock_control_backend/inventory/serializers.py:39-47 | a date is shown as `dd/mm/yyyy`; None stays None |
| Serializers.DateFieldRoundTrip | stock_control_backend/inventory/serializers.py:13-47 | reading back a shown date gives the date |
| Serializers.DateFieldIgnoresPadding | stock_control_backend/inventory/serializers.py:24 | surrounding blanks do not change how a date is read |
| Serializers.DateOfStripped | stock_control_backend/inventory/serializers.py:24-35 | text is read from its stripped form, Brazilian first, then ISO |
| Serializers.DateTimeToInternal | stock_control_backend/inventory/serializers.py:55-78 | the same for date-times, with the three Brazilian formats |
| Serializers.DateTimeToRepresentation | stock_control_backend/inventory/serializers.py:80-88 | shown as `dd/mm/yyyy hh:mm:ss` |
| Serializers.DateTimeFieldRoundTrip | stock_control_backend/inventory/serializers.py:55-88 | reading back a shown date-time gives it |
| Serializers.PasswordField | stock_control_backend/inventory/serializers.py:237-238 | accepted exactly when the stripped text has at least 8 characters, which it becomes; blank or short otherwise |
| Serializers.RequiredPassword | stock_control_backend/inventory/serializers.py:237-238 | a missing required password is an error |
| Serializers.OptionalPassword | stock_control_backend/inventory/serializers.py:295-296 | a missing optional password is fine, a given one is checked as above |
| Serializers.ErrorsOf | stock_control_backend/inventory/serializers.py:237-238 | at most one error per field, none exactly on success |
| Serializers.RequiredText | stock_control_backend/inventory/serializers.py:249-251 | a missing username is "required"; given text is accepted exactly when something is left after trimming, and is kept trimmed; otherwise it is blank |
| Serializers.OptionalText | stock_control_backend/inventory/serializers.py:239-240 | a missing field is fine; given text is accepted exactly when something is left after trimming, and is kept trimmed; otherwise it is blank |
| Serializers.TrimmedText | stock_control_backend/inventory/serializers.py:250-253 | a field that may be blank is kept trimmed, and never grows |
| Serializers.OptionalTextList | stock_control_backend/inventory/serializers.py:244-248 | a missing list is fine; a given list is accepted exactly when no item is blank, and is kept with every item trimmed |
| Serializers.CredentialErrors | stock_control_backend/inventory/serializers.py:236-253 | no error exactly when the username is given with text and both passwords have 8 characters once trimmed; a missing username is reported as required, a blank one as blank |
| Serializers.NameErrors | stock_control_backend/inventory/serializers.py:239-240 | no error exactly when both names are absent or not blank; each blank name is reported under its key |
| Serializers.OptionalFieldErrors | stock_control_backend/inventory/serializers.py:239-248 | the same, with the permission list: a blank permission is reported under "permissions_list" |
| Serializers.RegistrationErrors | stock_control_backend/inventory/serializers.py:236-253 | no field error exactly when every field passes its own check |
| Serializers.Cleaned | stock_control_backend/inventory/serializers.py:236-253 | the valid body handed on: username, e-mail, passwords, names and permissions trimmed, the rest as given |
| Serializers.ValidateRegistration | stock_control_backend/inventory/serializers.py:236-264 | valid exactly when every field passes and the two passwords agree; the valid body is kept trimmed; field errors are reported before the password comparison; a failure lists an error |
| Serializers.BlankRegistrationFieldsRefused | stock_control_backend/inventory/serializers.py:236-253 | a missing username makes the registration fail as required; a blank username, name or permission makes it fail with that field's blank error |
| Serializers.ValidateUpdatePasswords | stock_control_backend/inventory/serializers.py:295-322 | no passwords is fine; one without the other, short ones or different ones fail; a success keeps the stripped password |
| Serializers.NewUser | stock_control_backend/inventory/serializers.py:270-279 | the login takes the given fields, with empty strings, active, not staff and not superuser as defaults |
| Serializers.GrantedPermissions | stock_control_backend/inventory/serializers.py:268 | the given permission list, or the empty one |
| Serializers.Register | stock_control_backend/inventory/serializers.py:266-286 | one login and its profile are added; the profile holds the permissions |
| Serializers.StorePermissions | stock_control_backend/inventory/serializers.py:282-284 | a non-empty permission list is written to the new profile, an empty one changes nothing |
| Serializers.GrantToNewest | stock_control_backend/inventory/serializers.py:283-284 | the newest profile's permissions are replaced and nothing else changes |
| Serializers.UpdatedUser | stock_control_backend/inventory/serializers.py:324-336 | every given field (username, e-mail, names, the three flags) replaces the login's and every missing one keeps it; a non-empty password is set, and a missing or empty one keeps the old password |
| Serializers.ValidateUpdateFields | stock_control_backend/inventory/serializers.py:289-303 | a given username and every permission must keep some text once trimmed; the e-mail and names are trimmed and may be blank; the valid body is kept trimmed and blank fields are reported |
| Serializers.UpdateNothing | stock_control_backend/inventory/serializers.py:324-336 | an empty update changes nothing |
| Serializers.SetPermissions | stock_control_backend/inventory/serializers.py:339-341 | only the user's own profile gets the list, and only when a list is given |
| Serializers.UpdateUser | stock_control_backend/inventory/serializers.py:324-343 | the login is updated in place and the profile's permissions are set as specified; the invariants hold |
| Serializers.NoPermissionListKeepsProfiles | stock_control_backend/inventory/serializers.py:339 | without a list no profile changes |
| CaseConversion.Title | stock_control_backend/inventory/utils.py:5 | `str.title`: each character is cased by whether the one before it is a letter; a letter is lower case exactly when it follows a letter (so upper case at the start of a word) and keeps its lower-case form, and other characters are kept |
| CaseConversion.TitleChar | stock_control_backend/inventory/utils.py:5 | one character: a letter keeps its lower-case form and is lower case exactly when it follows a letter |
| CaseConversion.TitleFrom | stock_control_backend/inventory/utils.py:5 | every character is cased by the letter-ness of the one before it |
| CaseConversion.ToCamelCase | stock_control_backend/inventory/utils.py:1-6 | the result contains no '_' |
| CaseConversion.ToSnakeCase | stock_control_backend/inventory/utils.py:22-33 | the loop builds the specified snake_case text |
| CaseConversion.SnakeCaseLength | stock_control_backend/inventory/utils.py:22-33 | the result grows by one character per later upper-case letter |
| CaseConversion.SnakeCaseNoUpper | stock_control_backend/inventory/utils.py:22-33 | the result has no upper-case letter |
| CaseConversion.SnakeCaseIdentity | stock_control_backend/inventory/utils.py:22-33 | text without upper case is unchanged |
| CaseConversion.SnakeCamelRoundTrip | stock_control_backend/inventory/utils.py:1-33 | a lower-case snake key converts to camelCase and back to itself |
| CaseConversion.Assign | stock_control_backend/inventory/utils.py:14-17 | a dict assignment keeps keys distinct and adds exactly the new key |
| CaseConversion.LookupAssign | stock_control_backend/inventory/utils.py:14-17 | after assignment the key reads its new value, other keys are unchanged |
| CaseConversion.LaterKeyWins | stock_control_backend/inventory/utils.py:14-17 | a built dict maps each key to its last value |
| CaseConversion.Camelize | stock_control_backend/inventory/utils.py:8-20 | lists are converted element by element, scalars are kept, objects get distinct keys |
| CaseConversion.CamelizeKeyWins | stock_control_backend/inventory/utils.py:8-20 | each camelCase key holds the converted value of the last key it came from |
| CaseConversion.CamelizedKeysHaveNoUnderscore | stock_control_backend/inventory/utils.py:8-20 | no converted key contains '_' |
| CaseConversion.Snakify | stock_control_backend/inventory/utils.py:35-47 | the same for snake_case |
| CaseConversion.SnakifyChecked | stock_control_backend/inventory/utils.py:35-47 | the conversion raises exactly when some key is empty |
| CaseConversion.CamelizeSnakifyRoundTrip | stock_control_backend/inventory/utils.py:8-47 | snake-shaped JSON converts to camelCase and back to itself |
| DateFormats.MakeDate | stock_control_backend/inventory/serializers.py:30 | a date is built exactly for valid calendar dates |
| DateFormats.ParseDayMonthYear | stock_control_backend/inventory/serializers.py:27-30 | a parsed date is valid, and a two-digit year lies in 1969-2068 |
| DateFormats.ParseIsoDate | stock_control_backend/inventory/api.py:24 | a parsed `%Y-%m-%d` date is valid |
| DateFormats.ParseBrDate | stock_control_backend/inventory/serializers.py:27-32 | `%d/%m/%Y` first, then `%d/%m/%y` |
| DateFormats.ParseClock | stock_control_backend/inventory/serializers.py:68-71 | a parsed time is valid; without seconds they are 0 |
| DateFormats.ParseBrDateTime | stock_control_backend/inventory/serializers.py:68-73 | the three formats tried in order; a parsed date-time is valid |
| DateFormats.BrDateRoundTrip | stock_control_backend/inventory/serializers.py:27-45 | `%d/%m/%Y` output reads back as the same date |
| DateFormats.ClockRoundTrip | stock_control_backend/inventory/serializers.py:68-86 | `%H:%M:%S` output reads back as the same time |
| DateFormats.BrDateTimeRoundTrip | stock_control_backend/inventory/serializers.py:68-86 | `%d/%m/%Y %H:%M:%S` output reads back as the same date-time |
| DateFormats.IsoDateReadsCanonical | stock_control_backend/inventory/api.py:24 | a zero-padded `yyyy-mm-dd` reads as that date |
| DateFormats.IsoDateRejectsMonth | stock_control_backend/inventory/api.py:24-29 | a bad month raises `ValueError` |
| DateFormats.IsoDateRejectsMonth13 | stock_control_backend/inventory/api.py:24-29 | "2024-13-01" is rejected |
| Dates.DateLeTotalOrder | stock_control_backend/inventory/services.py:46-61 | dates compare as a total order |
| Dates.MonthsBefore | stock_control_backend/inventory/services.py:147-149 | `relativedelta(months=n)` backwards: n months earlier, the day clamped to the month's end, an error before year 1 |
| Decimals.Round2 | stock_control_backend/inventory/services.py:673 | `round(x, 2)`: a cents value within half a cent, unchanged if already cents, ties to even |
| Decimals.Round2IsNearest | stock_control_backend/inventory/services.py:673 | no cents value is closer |
| Sorting.KeyLessStrictTotal | stock_control_backend/inventory/services.py:209-230 | key comparison is a strict total order |
| Sorting.PyKeyLessAgrees | stock_control_backend/inventory/api.py:159 | where Python can compare two keys, it agrees with that order |
| Sorting.SortPermutes | stock_control_backend/inventory/services.py:228-230 | `list.sort` returns a permutation |
| Sorting.SortSorted | stock_control_backend/inventory/services.py:228-230 | the result is sorted, reversed when asked |
| Sorting.SortStable | stock_control_backend/inventory/services.py:228-230 | rows with equal keys keep their order |
| Sorting.PySort | stock_control_backend/inventory/api.py:159 | raises exactly when two keys cannot be compared, otherwise the stable sort |
| PyText.NatToString | stock_control_backend/inventory/services.py:163-179 | decimal digits with that value and no leading zero |
| PyText.Strip | stock_control_backend/inventory/serializers.py:24 | a substring with no whitespace at either end, and everything of the text before and after it is whitespace: only whitespace is removed, and only at the ends |
| PyText.StrippedOfParts | stock_control_backend/inventory/serializers.py:24 | removing whitespace on the left, then on the right, leaves a piece of the text with only whitespace around it |
| PyText.Split | stock_control_backend/inventory/services.py:826 | pieces without the separator that join back to the text |
| PyText.ParseIntOfIntToString | stock_control_backend/inventory/services.py:827 | `int(str(n)) == n` |
| PyText.ParseUnsigned | stock_control_backend/inventory/services.py:827 | digits with single underscores between them read as their value |
| PyText.ParseNegative | stock_control_backend/inventory/services.py:827 | the same after a '-' gives the negative value |

## Left out

- USD display (`showInUSD`, `currency_service.py`): it calls an external exchange-rate service over the network.
- `get_unified_transactions` (services.py:370-508): a listing view, not part of costing or the ledger's consistency.
- `get_or_create_inventory_user` (services.py:515-551): a convenience lookup that duplicates the profile creation modelled by `Models.UserStore.CreateUsuario`.
- The views, filters, URL routing, middleware and authentication backends: HTTP wiring around the modelled functions.
- Floating point: the API's `float(...)` conversions are modelled as exact values, as is Decimal's 28-digit division context.
- Every message text, log line and `stdout` line is left out; the model keeps only which outcome occurred.
- Django's own ISO date and date-time parsers (the serializer fields' fallback) are a parameter `iso`, since their code is not part of this model.
- Password hashing, username and email validation, and the `UsuarioSerializer`/`UserDetailSerializer` read-only getters.
- CaseConversion.Title: case mapping outside ASCII (in `str.title`, `str.lower` and `str.isupper`) is not modelled; non-ASCII characters are kept as they are and count as non-letters.
- The ORM: queries are functions over sequences, and saves are assignments to the ledger or the user tables.
- TransactionService.RecalculationChangesOnlyLaterExitCosts: assumes each transaction has at most one `Entrada` or `Saida` row (unique ids in the ledger), as the interface creates them; the database does not enforce this.
- TransactionEdits.Inventory.DeleteTransactionWithValidation: the generic `except Exception` fallback is not modelled as a separate outcome, because no modelled step raises anything else.
- TransactionService.ValidateStockAfterOperation: the exception path (`valid` False without a failing transaction) is not modelled; it is reached only through the indentation error described above.
- Models.UserStore.CreateUsuario: requires the new login to have no profile yet, which holds for a freshly created user; the database's one-to-one error is not modelled.
- Serializers.Register: requires a fresh user id and no profile for it, which the database guarantees for a new row.
- Serializers.ValidateRegistration: Django's own validators on the model-built fields are not modelled: the username's characters, length and uniqueness, the e-mail's syntax and length, and the names' 150-character limit.
- Serializers.OptionalTextList: a blank item is reported once under "permissions_list"; the framework keys each item's error by its index.
- PyText.ParseInt: only ASCII digits are read; Python's `int()` also accepts other Unicode decimal digits, which the inventory's references and parameters do not use.
- DateFormats.ParseDayMonthYear: only ASCII digits are read; the `%d`, `%m` and `%Y` directives of `strptime` match Unicode decimal digits too, which the inventory's dates do not use.
- DateFormats.ParseIsoDate: only ASCII digits are read, for the same reason as DateFormats.ParseDayMonthYear.
- DateFormats.ParseClock: only ASCII digits are read; the `%H`, `%M` and `%S` directives of `strptime` match Unicode decimal digits too, which the inventory's times do not use.
- TransactionEdits.EditEntry: the new quantity and unit value are kept as given; Django rounds them to the column's two decimal places when it saves the row, and the model does not.
- TransactionEdits.EditExit: the same rounding on save is not modelled.
- StockService.GetStockItems, StockCostApi.ListAt, StockCostApi.StockCostList, StockCostApi.List and TransactionEdits.Inventory.DeleteEntryRow compute the corrected behaviour of the "## Findings" rows, not the behaviour as written; the as-written members sit beside them.

## Findings

| source | as written | input that shows it | evidently intended | confidence | as-written member | corrected member |
|---|---|---|---|---|---|---|
| stock_control_backend/inventory/services.py:218-230 | a '-' field's number is negated and the whole sort is also reversed, so "-quantity" sorts ascending | two rows with quantities 1 and 2, ordering "-quantity": the row with 1 comes first | descending by quantity | high, not executed | StockService.MinusQuantityAsWrittenAscends | StockService.MinusQuantityDescending |
| stock_control_backend/inventory/api.py:106 | a last entry cost of 0 is reported as `None`, and the sort compares `None` with a float | records with last entry costs 5.0 and None, ordering "lastEntryCost": `TypeError`, answer 500 | a sort that orders records without a last entry cost among the others | high, not executed | StockCostApi.LastEntryCostSortFails | StockCostApi.SortRecords |
| stock_control_backend/inventory/services.py:847-853 | after `transacao.delete()` Django clears the primary key, so the re-costing receives `None`, raises, and the error is ignored | entries of 10 at 5.00 and 10 at 7.00 and then an exit of 5; delete the first entry: the exit keeps 6.00 | the exit re-costed at 7.00 | high, not executed | TransactionEdits.DeleteEntryAsWrittenKeepsStaleCosts | TransactionEdits.DeleteEntry |
| stock_control_backend/inventory/services.py:511-1022 | the transaction methods from line 554 on are indented inside `class UserService`, so the views' `TransactionService.delete_transaction_with_validation(...)` and `update_transaction_with_validation(...)` raise `AttributeError`, which the views turn into a 500 answer | DELETE of the existing exit `saida-1`: answer 500, and the exit stays | the methods found on `TransactionService`: the exit deleted and answer 200 | high, not executed | TransactionEdits.ExitDeleteViewAsWrittenFails | TransactionEdits.DeleteView |
