# Tapas embedded-Derby persistence, modelled in Dafny

Tapas is a point-of-sale application; `DataProvider4EmbeddedDerby` is its persistence
adapter over an embedded Derby database. This project models the part of that adapter
that does more than pass values through to JDBC:

- **`findBills` condition builder** (`conditions.dfy`): the `StringBuilder` that puts
  together the WHERE condition. It can hold an optional start date, an optional end date
  and an optional list of payment modes. Clauses are joined by `" AND "`. The payment
  modes become `APP.ventas.modo_pago IN (a,b,c)`. They are written by a loop that
  appends a comma after each mode, and the last comma is deleted afterwards.
- **`resultSetToBillsList`, `findBills`, `findBillsByCustomer`** (`bill_list.dfy`):
  - the text of the query and of the optional DELETE;
  - the loop that folds the rows of the bill header/detail join into bills. It opens a
    new bill whenever `ID_VENTA` changes, and adds each row's line to the bill most
    recently opened.
- **`getCategoriesAndProducts`** (`catalog.dfy`): the loop that folds the rows of the
  category/product join into categories, each with its sub-menu of products. Categories
  are looked up with `indexOf` on an article that carries only a caption. The model
  takes that lookup to compare captions (see "Left out").
- **`insertBill`, `deleteBill`, `updateBill`** (`bill_store.dfy`): a `Store` class. It
  holds the header table (a map from generated key to header), the detail table (a
  sequence of rows tagged with their bill id) and the next identity key. Deletion
  cascades from headers to details, as the schema's ON DELETE CASCADE does.

Database results enter as parameters. These are the sequence of joined rows the query
returns, the current time (`now`) and the bill's total. Dates, payment-mode names,
prices and icons are opaque values, because the adapter never looks inside them.

The model keeps several things exactly as the code has them:

- **The condition appears twice in the query text.** `resultSetToBillsList` builds
  `sQuery = "... AND (" + sCondition + ")"` but runs the one query `sQuery + sCondition`.
  So the text of that query carries the condition a second time, after the closing
  parenthesis. The DELETE text holds it once. An empty condition gives a query ending in `AND ()`.
  `BillList.QueryText` is that text; `BillList.QueryTextIff` and
  `BillList.QueryRepeatsCondition` pin down its shape.
- **A first row with id -1 fails.** The grouping loop starts from the id -1 with no bill
  open. A first row whose id is -1 therefore adds a line to a null bill, and the
  exception escapes before the DELETE. This is the `Err(NullBill)` outcome, and
  `BillList.GroupFailsIff` states exactly when it happens.
- **Products go to the last category.** Each product is appended to the last category of
  the list, not to the one whose caption matched. The two coincide when rows with the
  same category name are contiguous (`Catalog.ContiguousRowsFileProductsByName`). The
  query's `ORDER BY id_categoria` makes rows contiguous per category id, but not per
  name. Two categories that share a name but are separated by another category break
  this; `Catalog.ReturningNameFiledUnderLast` shows such a case.
- **One bill per run of ids, not per id.** The bill query has no ORDER BY, so the rows of
  one bill need not be adjacent. The grouping opens one bill per maximal run of equal
  `ID_VENTA` (`BillList.GroupedRuns`), so one id split by another becomes several bills;
  `BillList.SplitIdGivesTwoBills` shows ids 1, 2, 1 giving three bills.

## Model

| member | source | states |
|---|---|---|
| Conditions.BuildCondition | Tapas/src/com/peyrona/tapas/persistence/DataProvider4EmbeddedDerby.java:361-390 | The builder's result is the present clauses, in from/to/payment order, joined by " AND ". The payment clause is the modes joined by commas inside `modo_pago IN ( )`: the trailing comma is deleted. |
| Conditions.DateCondition | Tapas/src/com/peyrona/tapas/persistence/DataProvider4EmbeddedDerby.java:363-376 | The date part of the builder is the present date clauses joined by " AND ". It is empty exactly when neither date is given. |
| Conditions.AppendPaymentModes | Tapas/src/com/peyrona/tapas/persistence/DataProvider4EmbeddedDerby.java:383-389 | The payment loop followed by the deletion of the last comma appends exactly the IN prefix, the modes joined by single commas, and ')'. The comma after the last mode is deleted. |
| Conditions.ConditionEmptyIff | Tapas/src/com/peyrona/tapas/persistence/DataProvider4EmbeddedDerby.java:363-390 | The condition is empty if and only if both dates are null and the payment array is null or of length 0. |
| Conditions.ConditionLayout | Tapas/src/com/peyrona/tapas/persistence/DataProvider4EmbeddedDerby.java:363-390 | One clause per present filter. The date clauses come in fixed order. The text starts with the first clause and ends with the last, and " AND " appears once between each two clauses and never leads or trails. |
| Conditions.PaymentClauseRoundTrip | Tapas/src/com/peyrona/tapas/persistence/DataProvider4EmbeddedDerby.java:378-390 | For a non-empty list of modes without commas, the clause opens with the IN prefix and closes with ')'. Splitting its inside at commas gives back the modes in order, so no trailing comma is left. |
| Conditions.JoinFrame | Tapas/src/com/peyrona/tapas/persistence/DataProvider4EmbeddedDerby.java:371-382 | A joined text begins with its first part and ends with its last, so for a non-empty first and last part the separator neither leads nor trails. |
| Conditions.JoinLength | Tapas/src/com/peyrona/tapas/persistence/DataProvider4EmbeddedDerby.java:371-382 | A joined text's length is the sum of the parts plus one separator per gap. |
| Conditions.SplitJoin | Tapas/src/com/peyrona/tapas/persistence/DataProvider4EmbeddedDerby.java:385-388 | Splitting comma-joined, comma-free parts at the commas returns the parts. |
| BillList.QueryTextIff | Tapas/src/com/peyrona/tapas/persistence/DataProvider4EmbeddedDerby.java:549-553 | A text reads back to condition c exactly when it is the join query, then c, then ')', then c again. |
| BillList.QueryRepeatsCondition | Tapas/src/com/peyrona/tapas/persistence/DataProvider4EmbeddedDerby.java:549-553 | With a non-empty condition, the executed text is the well-formed query followed by a second copy of the condition, so it differs from the well-formed query. |
| BillList.GroupBills | Tapas/src/com/peyrona/tapas/persistence/DataProvider4EmbeddedDerby.java:554-575 | The row loop yields exactly the bills of the row-by-row fold, or the null-bill fault. |
| BillList.GroupFailsIff | Tapas/src/com/peyrona/tapas/persistence/DataProvider4EmbeddedDerby.java:554-575 | The loop fails (null bill) if and only if the first row's id is -1. Otherwise the bill list is empty exactly when there are no rows. |
| BillList.GroupedLines | Tapas/src/com/peyrona/tapas/persistence/DataProvider4EmbeddedDerby.java:557-575 | The bills' lines, read in order, are the rows' lines in row order: none lost, none duplicated. |
| BillList.GroupedWell | Tapas/src/com/peyrona/tapas/persistence/DataProvider4EmbeddedDerby.java:557-575 | Every bill has at least one line, adjacent bills have different ids, the first id is not -1, and the last bill has the last row's id. |
| BillList.GroupedRuns | Tapas/src/com/peyrona/tapas/persistence/DataProvider4EmbeddedDerby.java:559-568 | For any rows, there is one bill per maximal run of rows with equal ID_VENTA. Bill k carries the header of the row that begins run k. |
| BillList.SplitIdGivesTwoBills | Tapas/src/com/peyrona/tapas/persistence/DataProvider4EmbeddedDerby.java:549-575 | Rows with ids 1, 2, 1 give three bills: the two rows with id 1 land in two separate bills. |
| BillList.GroupedKeyedLines | Tapas/src/com/peyrona/tapas/persistence/DataProvider4EmbeddedDerby.java:557-575 | For any rows, spreading the bills back over their lines gives each row's id and line, in row order. So every line sits in a bill with its own row's id. |
| BillList.LastBillHeader | Tapas/src/com/peyrona/tapas/persistence/DataProvider4EmbeddedDerby.java:559-568 | When rows with equal ids carry equal headers, the last bill's header is the last row's. |
| BillList.UngroupGroup | Tapas/src/com/peyrona/tapas/persistence/DataProvider4EmbeddedDerby.java:557-575 | When rows with equal ids carry equal headers, spreading the bills back over their lines gives back the rows. |
| BillList.GroupUngroup | Tapas/src/com/peyrona/tapas/persistence/DataProvider4EmbeddedDerby.java:557-575 | Well-grouped bills, once spread into rows and grouped again, come back unchanged. |
| BillList.ResultSetToBillsList | Tapas/src/com/peyrona/tapas/persistence/DataProvider4EmbeddedDerby.java:545-587 | Issues the doubled-condition query. Returns the grouped bills or the fault. Issues `DELETE FROM APP.VENTAS WHERE` plus the condition only when asked and only when grouping succeeded. |
| BillList.FindBills | Tapas/src/com/peyrona/tapas/persistence/DataProvider4EmbeddedDerby.java:359-393 | Issues exactly the query (and the optional DELETE) for the condition built from the dates and payment modes, and returns the grouped rows. |
| BillList.FindBillsByCustomer | Tapas/src/com/peyrona/tapas/persistence/DataProvider4EmbeddedDerby.java:395-399 | Issues one query, for `APP.ventas.cliente LIKE %` + pattern + `%`, never a DELETE, and returns the grouped rows. |
| Catalog.IndexOfCaption | Tapas/src/com/peyrona/tapas/persistence/DataProvider4EmbeddedDerby.java:217-222 | Returns -1 if and only if no category has the caption. Otherwise it returns the first position with that caption. |
| Catalog.GetCategoriesAndProducts | Tapas/src/com/peyrona/tapas/persistence/DataProvider4EmbeddedDerby.java:215-238 | The row loop yields exactly the row-by-row fold: it adds a category for each new caption, then appends the product to the last category. |
| Catalog.CatalogCaptions | Tapas/src/com/peyrona/tapas/persistence/DataProvider4EmbeddedDerby.java:217-229 | Category captions are pairwise distinct. A caption is listed if and only if some row names it. |
| Catalog.CatalogOrder | Tapas/src/com/peyrona/tapas/persistence/DataProvider4EmbeddedDerby.java:222-229 | Categories appear in the order in which their names first appear in the rows. |
| Catalog.CatalogIcons | Tapas/src/com/peyrona/tapas/persistence/DataProvider4EmbeddedDerby.java:225-229 | Each category's icon is the icon on the first row that names it. Later rows do not change it. |
| Catalog.CatalogProducts | Tapas/src/com/peyrona/tapas/persistence/DataProvider4EmbeddedDerby.java:231-237 | The sub-menus, read in order, hold every row's product exactly once, in row order. |
| Catalog.LastProductGoesLast | Tapas/src/com/peyrona/tapas/persistence/DataProvider4EmbeddedDerby.java:237 | The last row's product ends the last category's sub-menu. |
| Catalog.ReturningNameFiledUnderLast | Tapas/src/com/peyrona/tapas/persistence/DataProvider4EmbeddedDerby.java:222-237 | Rows A, B, A give categories A and B. The second A product goes under B, the last category. |
| Catalog.CatalogSubMenus | Tapas/src/com/peyrona/tapas/persistence/DataProvider4EmbeddedDerby.java:215-238 | Category i's sub-menu is exactly the products of the rows from the first row naming category i up to the first row naming category i+1 (or the end), in row order, and these starts never decrease. |
| Catalog.ContiguousRowsFileProductsByName | Tapas/src/com/peyrona/tapas/persistence/DataProvider4EmbeddedDerby.java:215-238 | When rows with the same category name are contiguous, each category's sub-menu is exactly the products of the rows naming it, in row order. |
| BillStore.CascadeKeepsOthers | Tapas/src/com/peyrona/tapas/persistence/DataProvider4EmbeddedDerby.java:351-354 | The cascade keeps exactly the detail rows of other bills. The deleted bill has no lines left, and every other bill keeps its lines. |
| BillStore.LinesOfTagged | Tapas/src/com/peyrona/tapas/persistence/DataProvider4EmbeddedDerby.java:326-335 | Writing one detail row per line adds those lines, in order, to that bill and to no other. |
| BillStore.LinesOfAbsent | Tapas/src/com/peyrona/tapas/persistence/DataProvider4EmbeddedDerby.java:319-335 | A bill id with no detail rows has no lines. |
| BillStore.LoadAfterInsert | Tapas/src/com/peyrona/tapas/persistence/DataProvider4EmbeddedDerby.java:309-338 | After insertion under a fresh key, that key loads back as the stored header fields with exactly the bill's lines, and every other key loads as before. |
| BillStore.LoadAfterDelete | Tapas/src/com/peyrona/tapas/persistence/DataProvider4EmbeddedDerby.java:349-355 | After deletion with cascade, the id loads as nothing, and every other id loads as before. |
| BillStore.Store.InsertBill | Tapas/src/com/peyrona/tapas/persistence/DataProvider4EmbeddedDerby.java:309-338 | Writes the header under the next generated key, with the time `now` and the total, and advances that key by one. Returns the bill with that id. Writes one detail row per line, in order. The new bill loads back as written, other bills are unchanged, and the store stays consistent. |
| BillStore.Store.DeleteBill | Tapas/src/com/peyrona/tapas/persistence/DataProvider4EmbeddedDerby.java:349-355 | Removes the header and, by cascade, its detail rows. The id no longer loads, other bills are unchanged, and the store stays consistent. |
| BillStore.Store.UpdateBill | Tapas/src/com/peyrona/tapas/persistence/DataProvider4EmbeddedDerby.java:342-346 | Deletes, then re-inserts: the bill comes back under a new key with its lines, and the key counter advances by one. When the old key was stored, nothing remains under it. Every other bill is unchanged. |

## Left out

- Opening and closing the connection, creating the database from its SQL script, and the filesystem helpers: pure I/O, not part of this model.
- Icon and blob conversion (`iconToBlob`, `imageToBlob`, `imageFromBlob`, `iconFromBlob`): icons are opaque values here.
- `getConfiguration` and `setConfiguration`: they copy single fields to and from one table row and do nothing else.
- `setCategoriesAndProducts`: the store models bill tables only. The category and product tables are not part of this model.
- How SQL evaluates conditions: which rows the query or the DELETE selects is left to the database. The rows a query returns are a parameter, and a DELETE is recorded only as the text issued.
- The text form of dates (`java.sql.Date.toString`) and of `Bill.Payment` values: they enter as already-formatted strings.
- `Bill.getTotal`: it lives in the `Bill` class, which is not part of this model. The total is passed to `InsertBill` as a parameter.
- The clock: `System.currentTimeMillis()` is the parameter `now`.
- Integer width: ids, quantities and pay modes are unbounded integers. A 32-bit overflow of the identity column is not modelled.
- BillStore.Store.InsertBill: the Java method sets the id on the caller's `Bill` object and returns that same object. The model returns a new value, so aliasing is not captured. The generated key is assumed always present, so the case in which `getGeneratedKeys` returns no row is not modelled.
- The cascade from headers to detail rows is the schema's ON DELETE CASCADE. The SQL schema itself is not part of this model.
- Catalog.CatalogOf: `Article::equals` is not part of this model. The comment beside the `indexOf` lookup says only that equality ignores the icon; the model assumes that two categories are equal exactly when their captions are.
- BillList.UngroupGroup: whole rows, headers included, are proved to come back only when rows with equal ids carry equal headers. A join on the VENTAS key returns them that way. For other rows, the model proves the ids and lines (`BillList.GroupedKeyedLines`) and the header that begins each run (`BillList.GroupedRuns`).
- BillList.GroupedLines and Catalog.CatalogProducts: `Bill.addLine` and `Article.addToSubMenu` are not part of this model. Both are assumed to append one element at the end of the list.
- BillStore.Store.DeleteBill: the DELETE text `"... WHERE ventas.id = " + id` is not modelled. That command names the column `ventas.id`, but the bill join compares `APP.VENTAS.ID_VENTA`. The model removes the key as the method's comment intends; whether the database accepts that column name is not captured.
- Invalid SQL text: the query text is modelled exactly, including texts no SQL parser accepts. Examples are the repeated condition (`... AND (c)c`), the empty condition (`AND ()`) and the unquoted pattern of `findBillsByCustomer` (`LIKE %p%`). The database would reject these with an `SQLException`; the model does not capture that failure and treats the rows parameter as the query's result.
