# Organizze reports — a Dafny model

This project models the console tool that builds a monthly spending report from the
Organizze personal-finance API. The tool does three things:

* It asks the API for the lookup lists (categories, accounts, credit cards) and the
  month's transactions. It builds every request URL from the endpoint table and, for
  transactions, from a query string made by `QueryBuilder`.
* It maps each raw transaction to a report row. Account, category and credit-card ids
  become names, and the amount in cents becomes a currency amount.
* It writes a workbook with two sheets. The first holds the rows. The second holds
  every distinct category in ascending order next to the sum of the amounts of that
  category.

The model is split into these modules:

* `Wrappers`: `Option`, `Result` and the two .NET exceptions the code can raise.
* `Text`: `string.Join`, splitting, zero-padded and decimal rendering of integers.
* `Dates`: the `DateTime` values the API uses and the custom format `yyyy-MM-dd`.
* `UriEscape`: `Uri.EscapeDataString`. Characters of the unreserved set of section
  2.3 of RFC 3986 are kept; every other character is UTF-8 encoded and
  percent-encoded as in section 2.1, with upper-case hex digits. An inverse
  `Unescape` is defined as well.
* `QueryBuilders`: the `QueryBuilder` class, a list of `key=value` entries appended in
  place and rendered as `?` followed by the entries joined by `&`.
* `OrganizzeApi`: the current adapter (`Adapters/`). It covers the endpoint table,
  the `start_date`/`end_date`/`account_id` query of `GetTransactions` and the URL
  assembly of `GetEndpointData`.
* `LegacyOrganizzeApi`: the older adapter (`Adapter/`). It has the same endpoint
  table, a Portuguese error message and no query strings.
* `Dtos` and `ViewModels`: the fields of the records the report reads and writes.
* `TransactionMapping`: the `Select` of `ReportService.GetTransactions`, that is,
  the `FirstOrDefault` joins, the amount and the copied fields.
* `CategorySummary`: the summary sheet of `GenerateExcel`. It covers `Distinct`,
  `OrderBy`, the per-category sums and the two loops that write the cells.
* `ReportServices`: the `ReportService` class, with its `_isReady` flag that makes the
  lookups be fetched once, and the error behaviour when a fetch returned null.

Amounts are integers in hundredths: a `decimal` amount of 12.34 is 1234. A C# enum can
hold any `int`, so `Endpoint` is a 32-bit integer type with four named values, and the
`_ => throw` arm of each switch is reachable.

What the adapter returns is a parameter (`ApiResponses`). A failed request, which
`GetEndpointData` turns into `default`, is `None`. The consequences follow the code:

* `Select` on a null transaction list throws `ArgumentNullException`.
* `FirstOrDefault` on a null lookup list throws the same exception, but only once a
  row is mapped.
* `Init` sets `_isReady` even when a lookup came back null. The null is therefore kept,
  and every later non-empty month fails as well (`ReportServices.GenerateTwice`).

A few facts about the code shape the model:

* `Math.Round(decimal, 2)` rounds half to even. Whole cents divided by 100 need no
  rounding, so the amount is exactly the cents in hundredths.
* `AmountCents` is a non-nullable `int`, so its null test always holds and the `0M`
  alternative is dead.
* Rows whose category is null are kept. Null is one of the summary's categories and
  sorts first.
* A failed fetch surfaces as the `ArgumentNullException` described above.

## Model

| member | source | states |
|---|---|---|
| Text.SplitJoin | OrganizzeReports/OrganizzeReports.Console/Utils/QueryBuilder.cs:20 | splitting `string.Join(sep, parts)` on `sep` gives back `parts` when no part contains `sep` |
| Text.JoinSeparatorCount | OrganizzeReports/OrganizzeReports.Console/Utils/QueryBuilder.cs:20 | n ≥ 1 parts without the separator are joined with exactly n − 1 separators |
| Text.IntToStringRoundTrip | OrganizzeReports/OrganizzeReports.Console/Adapters/OrganizzeAPIAdapter.cs:81 | the decimal rendering of an account id (`ToString()`) parses back to the same integer, sign included |
| Dates.FormatDate | OrganizzeReports/OrganizzeReports.Console/Adapters/OrganizzeAPIAdapter.cs:79-80 | `yyyy-MM-dd` is 10 characters: digits, with '-' at positions 4 and 7 |
| Dates.FormatDateRoundTrip | OrganizzeReports/OrganizzeReports.Console/Adapters/OrganizzeAPIAdapter.cs:79-80 | the three digit groups read back as the year (zero-padded to 4), the month and the day |
| Dates.FormatDateSameDay | OrganizzeReports/OrganizzeReports.Console/Adapters/OrganizzeAPIAdapter.cs:79-80 | two dates render alike exactly when they fall on the same day; the time of day is dropped |
| UriEscape.EscapeAlphabet | OrganizzeReports/OrganizzeReports.Console/Utils/QueryBuilder.cs:15 | escaped text holds only unreserved characters, '%' and hex digits, so never '&', '=' or '?' |
| UriEscape.EscapeUnreserved | OrganizzeReports/OrganizzeReports.Console/Utils/QueryBuilder.cs:15 | text made only of unreserved characters is left unchanged |
| UriEscape.UnescapeEscape | OrganizzeReports/OrganizzeReports.Console/Utils/QueryBuilder.cs:15 | percent-decoding and UTF-8 decoding the escaped text gives back the original string |
| UriEscape.EscapeInjective | OrganizzeReports/OrganizzeReports.Console/Utils/QueryBuilder.cs:15 | distinct strings escape to distinct texts |
| QueryBuilders.Entries | OrganizzeReports/OrganizzeReports.Console/Utils/QueryBuilder.cs:13-16 | one entry per added pair, in insertion order, each `escape(key)=escape(value)` |
| QueryBuilders.QueryBuilder.constructor | OrganizzeReports/OrganizzeReports.Console/Utils/QueryBuilder.cs:11 | a new builder holds no entries |
| QueryBuilders.QueryBuilder.Add | OrganizzeReports/OrganizzeReports.Console/Utils/QueryBuilder.cs:13-16 | appends exactly one entry, `escape(key)=escape(value)`, at the end; earlier entries and their order are unchanged |
| QueryBuilders.QueryBuilder.ToString | OrganizzeReports/OrganizzeReports.Console/Utils/QueryBuilder.cs:18-21 | reads the builder without changing it; starts with '?'; is exactly "?" when empty; otherwise has n − 1 '&', splits after '?' on '&' into the entries in order, and each entry splits on '=' into the escaped key and value |
| QueryBuilders.EntrySplit | OrganizzeReports/OrganizzeReports.Console/Utils/QueryBuilder.cs:15 | an entry has no '&' and splits on '=' into exactly the escaped key and value |
| QueryBuilders.EntriesSplit | OrganizzeReports/OrganizzeReports.Console/Utils/QueryBuilder.cs:15-20 | the rendered query splits back into its entries, with one '&' fewer than entries |
| QueryBuilders.FreshBuilderRendersQuestionMark | OrganizzeReports/OrganizzeReports.Console/Utils/QueryBuilder.cs:11-21 | a fresh builder renders as exactly "?" |
| OrganizzeApi.GetEndpointUrl | OrganizzeReports/OrganizzeReports.Console/Adapters/OrganizzeAPIAdapter.cs:23-35 | succeeds exactly for the four named endpoints; any other value throws `ArgumentException("Unknown endpoint")` |
| OrganizzeApi.EndpointUrlTable | OrganizzeReports/OrganizzeReports.Console/Adapters/OrganizzeAPIAdapter.cs:23-38 | the four URLs are the base URL followed by `/credit_cards`, `/categories`, `/accounts`, `/transactions` |
| OrganizzeApi.EndpointUrlsDistinct | OrganizzeReports/OrganizzeReports.Console/Adapters/OrganizzeAPIAdapter.cs:25-32 | distinct endpoints give distinct URLs |
| OrganizzeApi.RequestUrl | OrganizzeReports/OrganizzeReports.Console/Adapters/OrganizzeAPIAdapter.cs:107-111 | fails exactly when the endpoint is unknown; a null or empty query leaves the endpoint URL unchanged; any other query is appended to it exactly |
| OrganizzeApi.TransactionsQueryPairs | OrganizzeReports/OrganizzeReports.Console/Adapters/OrganizzeAPIAdapter.cs:79-81 | one parameter per argument that is present, in the order `start_date`, `end_date`, `account_id`, the dates as `yyyy-MM-dd` and the account id in decimal |
| OrganizzeApi.BuildTransactionsQuery | OrganizzeReports/OrganizzeReports.Console/Adapters/OrganizzeAPIAdapter.cs:76-82 | the conditional `Add` calls on a fresh builder, followed by `ToString`, produce the rendered escaped pairs of the present arguments |
| OrganizzeApi.GetTransactionsUrl | OrganizzeReports/OrganizzeReports.Console/Adapters/OrganizzeAPIAdapter.cs:76-84 | the URL requested for transactions is the one `RequestedUrl` specifies for those arguments |
| OrganizzeApi.RequestedUrlShape | OrganizzeReports/OrganizzeReports.Console/Adapters/OrganizzeAPIAdapter.cs:60-111 | transactions go to `.../transactions` followed by the query; categories, accounts and credit cards go to exactly their endpoint URL |
| OrganizzeApi.BareTransactionsUrl | OrganizzeReports/OrganizzeReports.Console/Adapters/OrganizzeAPIAdapter.cs:74-84 | with no arguments the query is "?", which is not empty, so the URL is `.../transactions?` (the current month) |
| OrganizzeApi.TransactionsQueryRoundTrip | OrganizzeReports/OrganizzeReports.Console/Adapters/OrganizzeAPIAdapter.cs:78-82 | the query is "?" exactly when no argument is given; splitting it gives one escaped key and value per argument, in order |
| OrganizzeApi.FullTransactionsQuery | OrganizzeReports/OrganizzeReports.Console/Adapters/OrganizzeAPIAdapter.cs:78-82 | with all arguments the query reads in clear `?start_date=yyyy-MM-dd&end_date=yyyy-MM-dd&account_id=<id>` |
| LegacyOrganizzeApi.GetEndpointUrl | OrganizzeReports/OrganizzeReports.Console/Adapter/OrganizzeAPIAdapter.cs:18-31 | succeeds exactly for the four named endpoints; any other value throws `ArgumentException("Endpoint desconhecido")` |
| LegacyOrganizzeApi.EndpointUrlTable | OrganizzeReports/OrganizzeReports.Console/Adapter/OrganizzeAPIAdapter.cs:18-34 | the four URLs are the base URL followed by `/credit_cards`, `/categories`, `/accounts`, `/transactions` |
| LegacyOrganizzeApi.SameEndpointUrls | OrganizzeReports/OrganizzeReports.Console/Adapter/OrganizzeAPIAdapter.cs:18-31 | both adapters map every enum value alike: the same URL, or an exception in both |
| LegacyOrganizzeApi.EndpointUrlsDistinct | OrganizzeReports/OrganizzeReports.Console/Adapter/OrganizzeAPIAdapter.cs:20-27 | distinct endpoints give distinct URLs |
| LegacyOrganizzeApi.NoQueryString | OrganizzeReports/OrganizzeReports.Console/Adapter/OrganizzeAPIAdapter.cs:46-72 | every request, transactions included, goes to exactly its endpoint URL, which contains no '?' |
| LegacyOrganizzeApi.AgreesWithCurrentAdapter | OrganizzeReports/OrganizzeReports.Console/Adapter/OrganizzeAPIAdapter.cs:46-72 | the older and the newer adapter request the same URLs, except that the newer adapter's argument-less transactions URL has a trailing '?' |
| TransactionMapping.FirstOrDefault | OrganizzeReports/OrganizzeReports.Console/Services/ReportService.cs:40-42 | null exactly when nothing matches; otherwise the first matching element |
| TransactionMapping.RoundHalfEven | OrganizzeReports/OrganizzeReports.Console/Services/ReportService.cs:48 | the result is an integer nearest to n/d, and the even one at a midpoint |
| TransactionMapping.AmountIsExact | OrganizzeReports/OrganizzeReports.Console/Services/ReportService.cs:48 | rounding whole cents divided by 100 to 2 places changes nothing: 100 × Amount == AmountCents |
| TransactionMapping.MapTransaction | OrganizzeReports/OrganizzeReports.Console/Services/ReportService.cs:38-56 | description, date, installments and recurring are copied; 100 × Amount == AmountCents; each name is that of the first lookup entry with the transaction's id, or null when none has it |
| TransactionMapping.MapTransactions | OrganizzeReports/OrganizzeReports.Console/Services/ReportService.cs:38-56 | exactly one row per transaction, in the same order |
| CategorySummary.CategoryOrder | OrganizzeReports/OrganizzeReports.Console/Services/ReportService.cs:78 | the `OrderBy` key order, with null first, is a strict total order on the nullable category column |
| CategorySummary.CategoriesOf | OrganizzeReports/OrganizzeReports.Console/Services/ReportService.cs:78 | the category column, one value per row, in row order |
| CategorySummary.Distinct | OrganizzeReports/OrganizzeReports.Console/Services/ReportService.cs:78 | `Distinct` returns no duplicates and exactly the values of its input |
| CategorySummary.Insert | OrganizzeReports/OrganizzeReports.Console/Services/ReportService.cs:78 | inserting a new key keeps the sequence strictly ascending and adds only that key |
| CategorySummary.SortCategories | OrganizzeReports/OrganizzeReports.Console/Services/ReportService.cs:78 | `OrderBy` of distinct keys is strictly ascending, with the same length and members |
| CategorySummary.DistinctCategories | OrganizzeReports/OrganizzeReports.Console/Services/ReportService.cs:78 | every category of the rows, null included, appears exactly once, in ascending order, and nothing else appears |
| CategorySummary.SortedListingUnique | OrganizzeReports/OrganizzeReports.Console/Services/ReportService.cs:78 | two strictly ascending listings of the same keys are equal, so the column does not depend on how the sort works |
| CategorySummary.SummaryOf | OrganizzeReports/OrganizzeReports.Console/Services/ReportService.cs:88-93 | row k pairs category k with the sum of `Amount` over exactly the rows of that category |
| CategorySummary.SumsPartition | OrganizzeReports/OrganizzeReports.Console/Services/ReportService.cs:89-93 | when every row's category is listed once, the per-category sums add up to the total of all amounts |
| CategorySummary.SummaryTotal | OrganizzeReports/OrganizzeReports.Console/Services/ReportService.cs:78-93 | the summary's sums add up to the sum of `Amount` over all rows |
| CategorySummary.ExactlyOneSummaryRow | OrganizzeReports/OrganizzeReports.Console/Services/ReportService.cs:78-93 | every row is counted in exactly one summary row, the one of its category |
| CategorySummary.WriteSummary | OrganizzeReports/OrganizzeReports.Console/Services/ReportService.cs:75-93 | the summary sheet holds category k in cell (k, 1) and its sum in cell (k, 2) for k counted from 1, and no other cell |
| CategorySummary.WriteColumns | OrganizzeReports/OrganizzeReports.Console/Services/ReportService.cs:81-93 | the two `foreach` loops over the same ordered categories, each counting rows from 1, fill cells (k, 1) and (k, 2) of the same row k |
| ReportServices.MapRows | OrganizzeReports/OrganizzeReports.Console/Services/ReportService.cs:35-56 | fails with `ArgumentNullException("source")` exactly when the transactions are null, or when they are not empty and a lookup is null; otherwise one mapped row per transaction |
| ReportServices.MappedTotal | OrganizzeReports/OrganizzeReports.Console/Services/ReportService.cs:38-56 | the rows' amounts add up to the transactions' cents |
| ReportServices.ReportTotal | OrganizzeReports/OrganizzeReports.Console/Services/ReportService.cs:38-93 | the summary's sums add up to the month's total in cents |
| ReportServices.GenerateExcel | OrganizzeReports/OrganizzeReports.Console/Services/ReportService.cs:61-97 | the transactions sheet is the table of rows; the summary sheet is as `WriteSummary` states |
| ReportServices.ReportService.constructor | OrganizzeReports/OrganizzeReports.Console/Services/ReportService.cs:12-20 | a new service is not ready and holds no lookups |
| ReportServices.ReportService.Init | OrganizzeReports/OrganizzeReports.Console/Services/ReportService.cs:22-28 | stores the three fetched lookups and marks the service ready |
| ReportServices.ReportService.GetTransactions | OrganizzeReports/OrganizzeReports.Console/Services/ReportService.cs:30-59 | afterwards the service is ready and has fetched the lookups once in all; a ready service keeps its lookups; the result is the mapped rows and summary sheet, or the exception enumerating them throws |
| ReportServices.GenerateTwice | OrganizzeReports/OrganizzeReports.Console/Services/ReportService.cs:16-35 | a second report reuses the first call's lookups, so a lookup that came back null fails every later non-empty month |

## Left out

- HTTP and JSON are not modelled: `HttpClient`, the Basic-auth and User-Agent headers, `GetAsync`, status codes and `JsonSerializer`. What each request returns is a parameter, and a failed request is `None`.
- `async`/`await` is modelled as sequential calls.
- The spreadsheet library is not modelled: the workbook, `InsertTable`, `SaveAs`, the file path from the user profile and the timestamp from `DateTime.Now`. The two sheets are returned as values, with the summary sheet as a map from (row, column) to cell value.
- How the spreadsheet library renders a null category cell is not modelled: the cell holds `TextCell(None)`.
- Whether `InsertTable` accepts an empty table is not modelled; an empty month yields an empty transactions sheet.
- ExcelService.cs, SpreadSheet.cs, InvoiceDTO.cs, TransactionsSummaryViewModel.cs and IOrganizzeAPIAdapter.cs have no behaviour the report uses.
- Program.cs is not part of this model. Its background task, shared flags, busy-wait loop and console output are concurrency and user interface.
- `GenerateCategoryReport`, the two-argument `ReportService` constructor and `OrganizzeAPIAdapter(IConfiguration)` that Program.cs:17-28 calls are not in the files this model follows, so they are not modelled.
- The culture-sensitive string comparison of `OrderBy` is not modelled. It is the parameter `less`, assumed to be a strict total order. A culture comparer that treats two different strings as equal would keep both, in first-seen order; the model does not capture that.
- CategorySummary.DistinctCategories: states the distinct, ascending category column, not `OrderBy`'s stability, which cannot be observed on distinct keys under a strict total order.
- `decimal` overflow and the 32-bit range of `AmountCents` are not modelled; amounts are unbounded integers in hundredths, and sums do not overflow.
- The `long` ids are unbounded integers; they are only compared for equality and rendered in decimal.
- Text.IntToString: writes '-' for a negative id; `long.ToString()` uses the current culture's negative sign, which some cultures write as U+2212, and then the account id would be percent-encoded rather than sent in clear.
- The console message that `GetEndpointData` writes for a failed request (Adapters/OrganizzeAPIAdapter.cs:122) is output only and is not modelled; only its `default` result is.
- `DateTime` is limited to the Gregorian calendar; culture-specific calendars in `ToString("yyyy-MM-dd")` are not modelled.
- The time of day and `DateTimeKind` are carried but play no part.
- UriEscape.Escape: unpaired UTF-16 surrogates, which `Uri.EscapeDataString` rejects, and its input length limit are not modelled. Characters are Unicode scalar values.
- The null-conditional `?.Name` can also yield null when a matched entry's name is null; names are `Option<string>`, so this case is covered. A null `Description` is carried as any other string.
- The DTO files declare `Category`, `Account` and `CreditCard` while the service and adapters use `CategoryDTO`, `AccountDTO` and `CreditCardDTO`; the model uses one record per entity.
- The fields of the DTOs that the report never reads (colours, flags, timestamps, invoices, tags, attachments) are left out.
- The `AmountCents != null` test is always true for a non-nullable `int`, so its `0M` alternative is not modelled.
- ReportServices.ReportService.Init: its exception-free fetch is modelled, while a network exception thrown by the adapter (instead of a null result) is not.
