# Invoices dashboard: data layer, sign-in and invoice deletion

This project models the server-side core of a Next.js invoices dashboard in
Dafny and proves properties of the model:

- **Data access** (`app/lib/data.ts`). Each fetch function is a pure function
  of a database snapshot (`Schema.Conn`: a snapshot of the four tables, or a
  connection on which every statement fails). A successful fetch returns the
  rows the SQL query denotes. A failing one returns that function's fixed
  error message. The SQL pieces are modelled one by one:
  - `ILIKE` with PostgreSQL's `%`, `_` and `\` (module `Text`);
  - `int::text` and text ordering (module `Text`);
  - `WHERE`, `ORDER BY`, `LIMIT`/`OFFSET`, the inner and left joins, and
    `COUNT`/`SUM(CASE …)` (modules `Sql` and `Data`).

  `ORDER BY` leaves ties in no particular order. So a successful result is
  specified as *some* sorted permutation of the matching rows (`IsOrderingOf`),
  and the lemmas hold for every order the database may choose.
- **Route gate** (`auth.config.ts`, module `AuthConfig`): which paths need a
  signed-in user, and the redirect to `/login`.
- **Credentials sign-in** (`auth.ts`, module `Auth`): the user lookup by email
  and the decision `authorize` takes. Three outcomes are modelled: a user,
  `null`, or a raised error.
- **Invoice deletion** (`app/lib/actions.ts`, module `Actions`): a class
  holding the invoices table. Its `DeleteInvoice` method runs the DELETE and
  then records the invalidation of `/dashboard/invoices` in a ghost event log.

Behaviour of the code that the model keeps:

- The search splices the query into `%…%` without escaping it. For a query
  free of `%`, `_` and `\` the match is exactly a case-insensitive substring
  test (`Text.SearchMatchesSubstring`). A query of `%` matches every row, and a
  query of `_` matches every non-empty value
  (`Text.PercentQueryMatchesEverything`, `Text.UnderscoreQueryMatchesAnyNonEmpty`).
- Revenue is ordered by the text of `month`.
- `currentPage` below 1 makes the `OFFSET` negative, and a page past
  1537228672809129302 makes it larger than the largest `bigint`. PostgreSQL
  rejects both, so `fetchFilteredInvoices` raises its error.
- Each page of the invoice search is a separate statement ordered by date
  alone, so pages may break date ties differently (see "## Findings").

## Model

| member | source | states |
|---|---|---|
| Data.FetchRevenue | app/lib/data.ts:34-46 | fails with "Failed to fetch revenue data." exactly when the database fails; otherwise returns a permutation of the revenue rows sorted by month text |
| Data.RevenueOrderIsDetermined | app/lib/data.ts:37-41 | with months unique (primary key), any two orderings the database may return are equal |
| Data.MonthOrderIsPreorder | app/lib/data.ts:40 | ordering by month text is total and transitive |
| Data.Join | app/lib/data.ts:58-59 | a joined row exists exactly for each invoice and customer with `invoices.customer_id = customers.id` |
| Data.JoinOneMultiplicity | app/lib/data.ts:58-59 | one invoice joins each customer with its id as often as that customer occurs, and nothing else |
| Data.JoinMultiplicity | app/lib/data.ts:58-59 | a pair with matching ids occurs in the join as often as its invoice times its customer; no other pair occurs |
| Data.JoinRowsKeyedByInvoiceId | app/lib/data.ts:58-59 | with keys unique, two joined rows with the same invoice id are the same row |
| Data.NewerOrSameIsPreorder | app/lib/data.ts:60 | `ORDER BY invoices.date DESC` is total and transitive |
| Data.FetchLatestInvoices | app/lib/data.ts:48-71 | fails with "Failed to fetch the latest invoices." exactly when the database fails; otherwise returns the first 5 rows of a newest-first ordering of the join, amounts formatted |
| Data.LatestInvoicesAreNewest | app/lib/data.ts:51-66 | the card shows min(5, joined rows) rows, each a real invoice joined to its customer, and no row left out is newer than any row shown |
| Data.StatusCase | app/lib/data.ts:204-205 | `CASE WHEN invoices.status = s THEN invoices.amount ELSE 0 END`, 0 on the NULL row of the `LEFT JOIN` (partner: Data.CustomerWithoutInvoices) |
| Data.CaseTotal | app/lib/data.ts:83-84 | the `SUM` of the CASE values over the rows (partner: Data.CaseTotalIsAmountWithStatus) |
| Data.Coalesce | app/lib/data.ts:92-93 | `x ?? 0`: the default replaces only a NULL (partner: Data.SumOfCaseOrZero) |
| Data.CaseTotalIsAmountWithStatus | app/lib/data.ts:83-84 | summing `CASE WHEN status = s THEN amount ELSE 0 END` gives the total amount of the invoices whose status is s |
| Data.AmountSumConcat | app/lib/data.ts:83-84 | the sum of amounts over two row lists together is the sum of the two sums |
| Data.SumOfCaseOrZero | app/lib/data.ts:83-93 | `SUM(…) ?? 0` equals the total of the invoices with that status, including on an empty table |
| Data.FetchCardData | app/lib/data.ts:73-99 | fails with "Failed to fetch card data." exactly when the database fails; otherwise returns the invoice and customer counts and the formatted paid and pending totals |
| Data.NoContributionIsZero | app/lib/data.ts:83-84 | with no invoice of a status, that status's total is 0 |
| Data.OffsetAcceptedRange | app/lib/data.ts:109-132 | PostgreSQL accepts the OFFSET (not negative, at most 2^63-1) exactly for pages 1 to 1537228672809129302 |
| Data.PageOffset | app/lib/data.ts:109 | the OFFSET is negative exactly when the page is below 1, and is always a whole number of pages |
| Data.RowMatchesSearch | app/lib/data.ts:124-129 | the WHERE clause: name, email, `amount::text`, `date::text` or status ILIKE `%query%` (partner: Data.PlainQueryRowsContainQuery) |
| Data.PageCount | app/lib/data.ts:154 | `Math.ceil(count / 6)`: the fewest pages of 6 that hold all rows; 0 exactly when there are no rows |
| Data.FetchFilteredInvoices | app/lib/data.ts:107-138 | fails with "Failed to fetch invoices." exactly when the database fails, the page is below 1, or the page's OFFSET exceeds the `bigint` range (page above 1537228672809129302); otherwise returns window `(page-1)*6`, length 6, of a newest-first ordering of the rows that match the search |
| Data.FetchInvoicesPages | app/lib/data.ts:140-159 | fails with "Failed to fetch total number of invoices." exactly when the database fails; otherwise returns the ceiling of the matching row count over 6 |
| Data.InvoicesPageProperties | app/lib/data.ts:124-132 | a page has at most 6 rows, every row matches the search, rows are newest first, and the page is non-empty exactly when its number is at most the page count |
| Data.PageRowsMatch | app/lib/data.ts:124-131 | every row of a page satisfies the WHERE clause |
| Data.PageIsNewestFirst | app/lib/data.ts:130-132 | the rows within a page are ordered by date, newest first |
| Data.PageNonEmptyWithinCount | app/lib/data.ts:109-154 | the window for page p is non-empty exactly when p is at most the ceiling of rows/6 |
| Data.PlainQueryRowsContainQuery | app/lib/data.ts:124-129 | for a query without `%`, `_` or `\`, every row shown contains the query, ignoring case, in name, email, amount text, date text or status |
| Data.SearchAgreesWithPageCount | app/lib/data.ts:107-159 | on a reachable database, whenever the search for page p succeeds, the page is non-empty exactly when p is at most the page count for the same query |
| Data.PagesListEveryMatch | app/lib/data.ts:109-154 | for one ordering shared by every page, reading pages 1 to the page count in turn lists every matching row once, in order; separate page statements need not share one ordering (see Data.PagesMayRepeatAndSkip) |
| Data.PagesMayRepeatAndSkip | app/lib/data.ts:130-132 | with seven matching rows of one date, page 1 and page 2 as the statements may return them can share a row while another matching row is on neither page |
| Data.NewerThenByIdIsPreorder | app/lib/data.ts:130 | the tie-free order `date DESC, id` is total and transitive |
| Data.NewerThenByIdIsStrict | app/lib/data.ts:130 | with keys unique, the tie-free order relates no two distinct matching rows both ways |
| Data.FetchFilteredInvoicesById | app/lib/data.ts:107-138 | the search with `ORDER BY invoices.date DESC, invoices.id`: the same error cases, otherwise a window of an ordering under the tie-free order |
| Data.PagesShareOneOrdering | app/lib/data.ts:130-132 | under the tie-free order every page is cut from the one ordering of the matching rows |
| Data.StablePagesListEveryMatch | app/lib/data.ts:107-159 | under the tie-free order, pages 1 to the page count read in turn list every matching row exactly once, in order |
| Data.EmptyQueryMatchesAll | app/lib/data.ts:124-129 | the empty query matches every joined row |
| Data.FormOf | app/lib/data.ts:171 | the form keeps the invoice's id, `customer_id` and status, and its dollar amount times 100 is the stored cents amount |
| Data.FirstWithId | app/lib/data.ts:164-169 | finds a row with the id exactly when one exists |
| Data.FetchInvoiceById | app/lib/data.ts:161-176 | fails with "Failed to fetch invoice." exactly when the database fails; returns null exactly when no invoice has the id; otherwise returns the form of an invoice with that id |
| Data.InvoiceByIdIsThatInvoice | app/lib/data.ts:161-171 | with ids unique, the lookup returns the form of that very invoice |
| Data.NameOrderIsPreorder | app/lib/data.ts:186 | `ORDER BY name ASC` is total and transitive |
| Data.FetchCustomers | app/lib/data.ts:182-192 | fails with "Failed to fetch customers." exactly when the database fails; otherwise returns (id, name) of a name-sorted permutation of the customers |
| Data.CustomerListProperties | app/lib/data.ts:185-187 | the list has one entry per customer, lists every customer, lists nothing else, and is sorted by name |
| Data.LeftJoinGroup | app/lib/data.ts:203-207 | a `LEFT JOIN` group is never empty; its non-NULL rows are exactly the customer's invoices; a customer without invoices gets a single NULL row; `COUNT(invoices.id)` over it is the number of the customer's invoices |
| Data.InvoiceRowsHoldExactly | app/lib/data.ts:206-207 | the joined rows of a customer with invoices hold no NULL row and exactly its invoices |
| Data.CountNonNull | app/lib/data.ts:203 | `COUNT(invoices.id)`: the rows whose invoice side is not NULL (partner: Data.CountNonNullOfInvoiceRows) |
| Data.CountNonNullOfInvoiceRows | app/lib/data.ts:203 | `COUNT(invoices.id)` counts exactly the customer's invoices and not the NULL row |
| Data.Aggregate | app/lib/data.ts:198-211 | a customer's row carries its own columns, its invoice count, and its pending and paid totals over its own invoices |
| Data.CustomerSearchWhere | app/lib/data.ts:208-210 | the WHERE clause: name or email ILIKE `%query%` (partners: Data.EveryMatchingCustomerListed, Data.OnlyMatchingCustomersListed) |
| Data.CustomerWithoutInvoices | app/lib/data.ts:203-207 | a customer with no invoices is listed with count 0 and totals 0 |
| Data.AggregateNameOrderIsPreorder | app/lib/data.ts:212 | ordering customer rows by name is total and transitive |
| Data.FetchFilteredCustomers | app/lib/data.ts:194-223 | fails with "Failed to fetch customer table." exactly when the database fails; otherwise returns a name-sorted permutation of the formatted aggregates of the customers whose name or email matches |
| Data.CustomersTableProperties | app/lib/data.ts:197-218 | one row per matching customer, every matching customer listed with its aggregate, nothing else listed, sorted by name |
| Data.EveryMatchingCustomerListed | app/lib/data.ts:208-218 | every matching customer's formatted aggregate appears in the table |
| Data.OnlyMatchingCustomersListed | app/lib/data.ts:208-218 | every row of the table is the formatted aggregate of some matching customer |
| Text.Like | app/lib/data.ts:125-129 | PostgreSQL LIKE: `%` any run, `_` any character, `\` escapes the next one, anything else itself (partners: Text.LikeLiteralPrefix, Text.LikeSearchPattern) |
| Text.ILike | app/lib/data.ts:125-129 | ILIKE: LIKE after ASCII case folding of both sides (partner: Text.SearchMatchesSubstring) |
| Text.SearchPattern | app/lib/data.ts:125 | the bound parameter `%${query}%`: the query between two `%`, unescaped (partners: Text.PercentQueryMatchesEverything, Text.UnderscoreQueryMatchesAnyNonEmpty) |
| Text.LikeAnyTail | app/lib/data.ts:125 | the pattern `%` matches every string |
| Text.LikeLiteralPrefix | app/lib/data.ts:125 | for a literal text t, `s LIKE t%` holds exactly when t is a prefix of s |
| Text.LikeSearchPattern | app/lib/data.ts:125 | for a literal text t, `s LIKE %t%` holds exactly when s contains t |
| Text.SearchMatchesSubstring | app/lib/data.ts:125-129 | for a query without metacharacters, `ILIKE '%q%'` holds exactly when the value contains q, ignoring case |
| Text.LikeLeadingPercent | app/lib/data.ts:125 | putting `%` before a matching pattern still matches |
| Text.PercentQueryMatchesEverything | app/lib/data.ts:125-129 | the unescaped query `%` matches every value |
| Text.UnderscoreQueryMatchesAnyNonEmpty | app/lib/data.ts:125-129 | the unescaped query `_` matches exactly the values of at least one character |
| Text.UnderscoreQueryIsAWildcard | app/lib/data.ts:125-129 | the unescaped query `_` matches "ab", which does not contain `_` |
| Text.IntText | app/lib/data.ts:127 | `amount::text`: the decimal numeral, with a minus sign when negative (partner: Text.IntTextRoundTrip) |
| Text.Digits | app/lib/data.ts:127 | the numeral is non-empty, all digits and without a leading zero |
| Text.DigitsValueOfDigits | app/lib/data.ts:127 | the numeral reads back to the number |
| Text.IntTextRoundTrip | app/lib/data.ts:127 | `amount::text` reads back to the amount, sign included |
| Text.StrLe | app/lib/data.ts:40 | ORDER BY on text: code-point lexicographic order (partners: Text.StrLeTotal, Text.StrLeTransitive, Text.StrLeAntisymmetric) |
| Text.StrLeTotal | app/lib/data.ts:40 | any two texts are comparable |
| Text.StrLeTransitive | app/lib/data.ts:40 | text order is transitive |
| Text.StrLeAntisymmetric | app/lib/data.ts:40 | texts that sort both ways are equal |
| Sql.IsOrderingOf | app/lib/data.ts:130 | what ORDER BY may return: a sorted permutation of the rows, ties in any order (partner: Sql.SortIsOrdering) |
| Sql.Sort | app/lib/data.ts:40 | the chosen ordering is a permutation of the rows |
| Sql.InsertSorted | app/lib/data.ts:40 | inserting into a sorted list keeps it sorted |
| Sql.SortIsOrdering | app/lib/data.ts:40 | the chosen ordering is sorted and a permutation, so it is an order the database may return |
| Sql.Filter | app/lib/data.ts:124-129 | a WHERE keeps exactly the rows that satisfy it, each at most as often as before |
| Sql.FilterKeepingNone | app/lib/data.ts:124-129 | a WHERE that no row satisfies yields no rows |
| Sql.FilterKeepingAll | app/lib/data.ts:124-129 | a WHERE that every row satisfies yields the table unchanged |
| Sql.Window | app/lib/data.ts:131-132 | `LIMIT l OFFSET o` yields min(l, rows - o) rows, the i-th being row o + i |
| Sql.WindowOfSorted | app/lib/data.ts:130-132 | a window of a sorted list is sorted |
| Sql.PagesArePrefix | app/lib/data.ts:109-132 | pages 1 to k, read in turn, are the first k times limit rows |
| AuthConfig.IsLoggedIn | auth.config.ts:12 | `!!auth?.user`: a session that carries a user (partner: AuthConfig.SessionWithoutUserIsLoggedOut) |
| AuthConfig.IsOnDashboard | auth.config.ts:13 | `pathname.startsWith('/dashboard')`, a text prefix (partner: AuthConfig.PrefixExamples) |
| AuthConfig.Authorized | auth.config.ts:11-24 | refuses exactly the paths starting with `/dashboard` requested without a session user |
| AuthConfig.Gate | auth.config.ts:5-24 | a refused request is sent to `/login`, and only a refused one |
| AuthConfig.AuthorizedIsMonotone | auth.config.ts:11-24 | signing in never turns an allowed path into a refused one |
| AuthConfig.PrefixExamples | auth.config.ts:13 | `/dashboardx` and `/dashboard-foo` are protected too; `/`, `/login` and `/Dashboard` are open |
| AuthConfig.SessionWithoutUserIsLoggedOut | auth.config.ts:12 | a session without a user is treated as no session |
| Auth.FirstWithEmail | auth.ts:14-15 | finds a user whose email equals the given one exactly when such a user exists |
| Auth.GetUser | auth.ts:11-20 | raises "Failed to fetch user." exactly when the database fails; otherwise returns no user exactly when no email matches, or a user with that exact email |
| Auth.GetUserFindsThatUser | auth.ts:11-20 | with emails unique, the lookup returns the one user registered under the email |
| Auth.ParsesAsCredentials | auth.ts:27-29 | the schema: an email `isEmail` accepts and a password of at least 6 characters (partner: Auth.PasswordLengthBoundary) |
| Auth.Authorize | auth.ts:26-52 | malformed credentials give null; the call raises exactly when input is well-formed and the database fails; a returned user has the submitted email and a matching password; an unknown email gives null |
| Auth.MalformedInputNeedsNoLookup | auth.ts:27-51 | malformed input gives null whatever the state of the database |
| Auth.PasswordLengthBoundary | auth.ts:28 | a six-character password passes the schema and a five-character one does not |
| Auth.SignInWithMatchingPassword | auth.ts:31-44 | a registered user with a well-formed email and a matching password is signed in as exactly that user record |
| Auth.UnknownEmailAndWrongPasswordLookAlike | auth.ts:33-51 | a wrong password and an unknown email both give null |
| Actions.Survives | app/lib/actions.ts:12-14 | the rows `WHERE id = $id` does not select; with a NULL id it selects none (partner: Actions.DeleteOfAbsentIdChangesNothing) |
| Actions.DeleteWhereId | app/lib/actions.ts:14 | the DELETE leaves no row with the id, keeps every other row, and adds nothing |
| Actions.DeleteOfAbsentIdChangesNothing | app/lib/actions.ts:12-14 | deleting an id no row has, or with the field missing (NULL), leaves the table as it was |
| Actions.DeleteRemovesOneRow | app/lib/actions.ts:14 | with ids unique, deleting an existing invoice removes exactly one row |
| Actions.DeletedInvoiceIsNotFound | app/lib/actions.ts:14 | after the delete, fetching the invoice by that id returns null |
| Actions.InvoiceStore.DeleteInvoice | app/lib/actions.ts:11-17 | on a reachable database the table becomes the DELETE's result and the log gains the statement and then the invalidation of `/dashboard/invoices`; on failure the action raises and nothing changes or is invalidated |

## Left out

- Connection setup, environment variables and `max`/timeout options: the database is a `Conn` parameter. Each call sees one consistent snapshot, or a failure of every statement.
- The failure case: a failing database is modelled as a whole (`Down`). Faults that hit one statement of several, such as one query inside `Promise.all`, are not distinguished. Their outcome is the same error.
- `Promise.all` concurrency and `noStore()` caching control: these have no effect on the returned values.
- `console.log`/`console.error` logging: it has no effect on the results.
- `formatCurrency`: a parameter `fmt: int -> string`. Its rounding and locale are not modelled.
- The zod email format check: a parameter `isEmail`.
- `bcrypt.compare`: a parameter `passwordsMatch`. Hashing is not modelled.
- Data.FetchCardData: `Number(count)` and JavaScript number precision are not modelled. Integers are unbounded.
- Data.FormOf: the cents-to-dollars division is exact real division. Floating-point rounding is not modelled.
- Data.FetchFilteredInvoices: `currentPage` is an integer and the offset is computed exactly. Fractional or `NaN` page numbers, and the rounding of JavaScript's floating-point product for pages above about 2^53/6, are not modelled.
- Integer width: PostgreSQL's 32-bit `amount` and the wider `SUM` result are not modelled. Integers are unbounded.
- Text.Lower: ILIKE case folding covers ASCII letters only. Other case mappings of the database locale are not modelled.
- Text.StrLe: text is ordered by code point (the "C" collation). A locale collation may order text differently.
- Text.Like: a pattern that ends in a lone `\` is treated as no match. PostgreSQL raises an error for it. The search patterns built here always end in `%`, so they never reach that case.
- Invoice dates: `date` is held as its ISO text, which is what `date::text` yields. Ordering by that text is the same as ordering by date for four-digit years.
- Uuid-typed ids: a malformed id string makes PostgreSQL raise an error. Here it simply matches no row.
- Auth.ParsesAsCredentials: `min(6)` counts UTF-16 code units. The model counts the characters of the string.
- GROUP BY: it is modelled as one group per customer row. This is the same grouping because `customers.id` is the primary key.
- `revalidatePath`: modelled only as a ghost log entry. The cache itself is not modelled.
- The NextAuth framework: the session token (JWT strategy) and the middleware matcher are not modelled. Only the `authorized` decision and the sign-in redirect are.
- The seed and query routes, and the UI components, are not part of this model.
- Data.PagesListEveryMatch: holds only when every page statement uses the same ordering. The program as written does not ensure that; Data.PagesMayRepeatAndSkip shows the gap, and Data.StablePagesListEveryMatch proves the property under a tie-free order.
- Actions.InvoiceStore.DeleteInvoice: the ghost log records only statements the database carried out, so a failed DELETE leaves no entry.

## Findings

| source | as written | input that shows it | evidently intended | confidence | as-written member | corrected member |
|---|---|---|---|---|---|---|
| app/lib/data.ts:130-132 | each page is a separate statement with `ORDER BY invoices.date DESC` alone, so invoices of one date may come in a different order on each page | seven invoices that match the query and share one date: page 1 and page 2 may both show one of them, and another appears on neither | a tie-free order such as `ORDER BY invoices.date DESC, invoices.id`, so that the pages list every matching invoice exactly once | medium: whether ties actually move depends on the query plan; not executed | Data.PagesMayRepeatAndSkip | Data.StablePagesListEveryMatch |

`Data.FetchFilteredInvoices` stays the model of the search as written. The
corrected search is `Data.FetchFilteredInvoicesById`.
