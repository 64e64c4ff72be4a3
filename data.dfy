/** The data layer of the dashboard (app/lib/data.ts): each exported fetch is
    one read-only SQL statement over a snapshot of the tables, followed by a
    mapping of the result rows. A statement that fails (the connection is
    `Down`, or PostgreSQL rejects it) makes the fetch fail with that fetch's
    fixed message. `formatCurrency` is a parameter `fmt`. */
module Data {
  import opened Schema
  import opened Text
  import opened Sql

  /** The page size of the invoices list. */
  const ITEMS_PER_PAGE: nat := 6
  /** The LIMIT of the latest-invoices card. */
  const LATEST_INVOICES: nat := 5

  const REVENUE_ERROR := "Failed to fetch revenue data."
  const LATEST_ERROR := "Failed to fetch the latest invoices."
  const CARD_ERROR := "Failed to fetch card data."
  const INVOICES_ERROR := "Failed to fetch invoices."
  const PAGES_ERROR := "Failed to fetch total number of invoices."
  const INVOICE_ERROR := "Failed to fetch invoice."
  const CUSTOMERS_ERROR := "Failed to fetch customers."
  const CUSTOMER_TABLE_ERROR := "Failed to fetch customer table."

  // ================= fetchRevenue =================

  /** ORDER BY month (ascending, on the month's text). */
  predicate MonthOrder(a: Revenue, b: Revenue) {
    StrLe(a.month, b.month)
  }

  lemma MonthOrderIsPreorder()
    ensures TotalPreorder(MonthOrder)
  {
    forall a: Revenue, b: Revenue ensures MonthOrder(a, b) || MonthOrder(b, a) {
      StrLeTotal(a.month, b.month);
    }
    forall a: Revenue, b: Revenue, c: Revenue | MonthOrder(a, b) && MonthOrder(b, c)
      ensures MonthOrder(a, c)
    {
      StrLeTransitive(a.month, b.month, c.month);
    }
  }

  /** `SELECT month, revenue FROM revenue ORDER BY month` */
  function FetchRevenue(conn: Conn): (r: Result<seq<Revenue>>)
    ensures r.Failure? <==> conn.Down?
    ensures r.Failure? ==> r.error == REVENUE_ERROR
    ensures r.Success? ==> IsOrderingOf(r.value, conn.db.revenue, MonthOrder)
  {
    match conn
    case Down => Failure(REVENUE_ERROR)
    case Up(db) =>
      MonthOrderIsPreorder();
      SortIsOrdering(db.revenue, MonthOrder);
      Success(Sort(db.revenue, MonthOrder))
  }

  lemma SortedTail<T>(s: seq<T>, le: (T, T) -> bool)
    requires s != [] && Sorted(s, le)
    ensures Sorted(s[1..], le)
  {
    forall p, q | 0 <= p < q < |s[1..]| ensures le(s[1..][p], s[1..][q]) {
      assert s[1..][p] == s[p + 1] && s[1..][q] == s[q + 1];
    }
  }

  /** The first rows of two sorted permutations of the same rows agree when
      the order relates no two distinct rows both ways. */
  lemma SortedHeadsAgree<T(!new)>(a: seq<T>, b: seq<T>, le: (T, T) -> bool)
    requires IsOrderingOf(a, b, le) && Sorted(b, le) && a != []
    requires forall x, y :: x in b && y in b && le(x, y) && le(y, x) ==> x == y
    ensures b != [] && a[0] == b[0]
  {
    assert a[0] in multiset(b);
    assert b != [] && b[0] in multiset(a);
    var i :| 0 <= i < |b| && b[i] == a[0];
    var j :| 0 <= j < |a| && a[j] == b[0];
    assert i == 0 || le(b[0], b[i]);
    assert j == 0 || le(a[0], a[j]);
  }

  /** Two sorted permutations of the same rows are equal when the order
      relates no two distinct rows both ways. */
  lemma {:induction false} SortedPermutationsAgree<T(!new)>(a: seq<T>, b: seq<T>, le: (T, T) -> bool)
    requires IsOrderingOf(a, b, le) && Sorted(b, le)
    requires forall x, y :: x in b && y in b && le(x, y) && le(y, x) ==> x == y
    ensures a == b
  {
    if a != [] {
      SortedHeadsAgree(a, b, le);
      assert a == [a[0]] + a[1..];
      assert b == [b[0]] + b[1..];
      assert multiset(a[1..]) == multiset(b[1..]) by {
        assert multiset(a) == multiset{a[0]} + multiset(a[1..]);
        assert multiset(b) == multiset{b[0]} + multiset(b[1..]);
        assert multiset(a[1..]) == multiset(a) - multiset{a[0]};
        assert multiset(b[1..]) == multiset(b) - multiset{b[0]};
      }
      SortedTail(a, le);
      SortedTail(b, le);
      assert forall x :: x in b[1..] ==> x in b;
      SortedPermutationsAgree(a[1..], b[1..], le);
    }
  }

  /** month is the primary key of revenue, so ORDER BY month leaves the
      database no choice: every answer is the same list. */
  lemma RevenueOrderIsDetermined(db: Snapshot, a: seq<Revenue>, b: seq<Revenue>)
    requires KeysUnique(db)
    requires IsOrderingOf(a, db.revenue, MonthOrder) && IsOrderingOf(b, db.revenue, MonthOrder)
    ensures a == b
  {
    forall x, y | x in b && y in b && MonthOrder(x, y) && MonthOrder(y, x) ensures x == y {
      StrLeAntisymmetric(x.month, y.month);
      assert x in multiset(db.revenue) && y in multiset(db.revenue);
      var i :| 0 <= i < |db.revenue| && db.revenue[i] == x;
      var j :| 0 <= j < |db.revenue| && db.revenue[j] == y;
      assert i == j;
    }
    SortedPermutationsAgree(a, b, MonthOrder);
  }

  // ================= invoices JOIN customers =================

  datatype JoinedRow = JoinedRow(invoice: Invoice, customer: Customer)

  /** The join rows one invoice contributes: one per customer with its id. */
  function JoinOne(inv: Invoice, customers: seq<Customer>): (r: seq<JoinedRow>)
    ensures forall row :: row in r <==>
      row.invoice == inv && row.customer in customers && row.customer.id == inv.customerId
  {
    if customers == [] then []
    else
      (if customers[0].id == inv.customerId then [JoinedRow(inv, customers[0])] else [])
      + JoinOne(inv, customers[1..])
  }

  /** `invoices JOIN customers ON invoices.customer_id = customers.id` */
  function Join(invoices: seq<Invoice>, customers: seq<Customer>): (r: seq<JoinedRow>)
    ensures forall row :: row in r <==>
      row.invoice in invoices && row.customer in customers && row.customer.id == row.invoice.customerId
  {
    if invoices == [] then []
    else JoinOne(invoices[0], customers) + Join(invoices[1..], customers)
  }

  /** ORDER BY invoices.date DESC: `a` may come before `b`. */
  predicate NewerOrSame(a: JoinedRow, b: JoinedRow) {
    StrLe(b.invoice.date, a.invoice.date)
  }

  lemma NewerOrSameIsPreorder()
    ensures TotalPreorder(NewerOrSame)
  {
    forall a: JoinedRow, b: JoinedRow ensures NewerOrSame(a, b) || NewerOrSame(b, a) {
      StrLeTotal(a.invoice.date, b.invoice.date);
    }
    forall a: JoinedRow, b: JoinedRow, c: JoinedRow | NewerOrSame(a, b) && NewerOrSame(b, c)
      ensures NewerOrSame(a, c)
    {
      StrLeTransitive(c.invoice.date, b.invoice.date, a.invoice.date);
    }
  }

  /** The join is a bag operation: a pair of an invoice and a customer with
      matching ids comes out as many times as the invoice occurs times the
      customer occurs, and no other pair comes out. */
  lemma {:induction false} JoinOneMultiplicity(inv: Invoice, customers: seq<Customer>, row: JoinedRow)
    ensures multiset(JoinOne(inv, customers))[row] ==
      if row.invoice == inv && row.customer.id == inv.customerId then multiset(customers)[row.customer] else 0
  {
    if customers != [] {
      JoinOneMultiplicity(inv, customers[1..], row);
      assert customers == [customers[0]] + customers[1..];
    }
  }

  lemma {:induction false} JoinMultiplicity(invoices: seq<Invoice>, customers: seq<Customer>, row: JoinedRow)
    ensures multiset(Join(invoices, customers))[row] ==
      if row.customer.id == row.invoice.customerId
      then multiset(invoices)[row.invoice] * multiset(customers)[row.customer]
      else 0
  {
    if invoices != [] {
      var head := JoinOne(invoices[0], customers);
      var tail := Join(invoices[1..], customers);
      JoinOneMultiplicity(invoices[0], customers, row);
      JoinMultiplicity(invoices[1..], customers, row);
      assert Join(invoices, customers) == head + tail;
      assert multiset(head + tail)[row] == multiset(head)[row] + multiset(tail)[row];
      MultisetOfCons(invoices, row.invoice);
      if row.customer.id == row.invoice.customerId {
        Distribute(if invoices[0] == row.invoice then 1 else 0, multiset(invoices[1..])[row.invoice],
                   multiset(customers)[row.customer]);
      }
    }
  }

  lemma MultisetOfCons<T>(s: seq<T>, x: T)
    requires s != []
    ensures multiset(s)[x] == (if s[0] == x then 1 else 0) + multiset(s[1..])[x]
  {
    assert s == [s[0]] + s[1..];
  }

  lemma Distribute(a: int, b: int, c: int)
    ensures (a + b) * c == a * c + b * c
  {
  }

  /** With the keys of both tables unique, a joined row is determined by its
      invoice id. */
  lemma JoinRowsKeyedByInvoiceId(db: Snapshot)
    requires KeysUnique(db)
    ensures forall x, y ::
      (x in Join(db.invoices, db.customers) && y in Join(db.invoices, db.customers) && x.invoice.id == y.invoice.id)
      ==> x == y
  {
    var joined := Join(db.invoices, db.customers);
    forall x, y | x in joined && y in joined && x.invoice.id == y.invoice.id ensures x == y {
      var i :| 0 <= i < |db.invoices| && db.invoices[i] == x.invoice;
      var k :| 0 <= k < |db.invoices| && db.invoices[k] == y.invoice;
      assert i == k;
      var ci :| 0 <= ci < |db.customers| && db.customers[ci] == x.customer;
      var ck :| 0 <= ck < |db.customers| && db.customers[ck] == y.customer;
      assert ci == ck;
    }
  }

  // ================= fetchLatestInvoices =================

  /** A latest-invoices row: the joined columns with `amount` replaced by
      `formatCurrency(amount)`. */
  datatype LatestInvoice = LatestInvoice(id: string, amount: string, name: string, email: string, imageUrl: string)

  function LatestInvoiceOf(j: JoinedRow, fmt: int -> string): LatestInvoice {
    LatestInvoice(j.invoice.id, fmt(j.invoice.amount), j.customer.name, j.customer.email, j.customer.imageUrl)
  }

  function LatestInvoicesOf(js: seq<JoinedRow>, fmt: int -> string): (r: seq<LatestInvoice>)
    ensures |r| == |js|
    ensures forall i :: 0 <= i < |js| ==> r[i] == LatestInvoiceOf(js[i], fmt)
  {
    seq(|js|, i requires 0 <= i < |js| => LatestInvoiceOf(js[i], fmt))
  }

  /** What the statement may return: the first LATEST_INVOICES rows of some
      newest-first ordering of the join, formatted. */
  ghost predicate IsLatestInvoices(rows: seq<LatestInvoice>, db: Snapshot, fmt: int -> string) {
    exists sorted :: IsOrderingOf(sorted, Join(db.invoices, db.customers), NewerOrSame)
      && rows == LatestInvoicesOf(Window(sorted, 0, LATEST_INVOICES), fmt)
  }

  function FetchLatestInvoices(conn: Conn, fmt: int -> string): (r: Result<seq<LatestInvoice>>)
    ensures r.Failure? <==> conn.Down?
    ensures r.Failure? ==> r.error == LATEST_ERROR
    ensures r.Success? ==> IsLatestInvoices(r.value, conn.db, fmt)
  {
    match conn
    case Down => Failure(LATEST_ERROR)
    case Up(db) =>
      var joined := Join(db.invoices, db.customers);
      NewerOrSameIsPreorder();
      SortIsOrdering(joined, NewerOrSame);
      var sorted := Sort(joined, NewerOrSame);
      assert IsOrderingOf(sorted, joined, NewerOrSame);
      Success(LatestInvoicesOf(Window(sorted, 0, LATEST_INVOICES), fmt))
  }

  /** For any newest-first ordering the database picks: the card shows
      min(5, number of joined rows) rows, row i is the i-th newest joined row
      formatted, and no row left out is newer than a row shown. */
  lemma LatestInvoicesAreNewest(db: Snapshot, fmt: int -> string, sorted: seq<JoinedRow>)
    requires IsOrderingOf(sorted, Join(db.invoices, db.customers), NewerOrSame)
    ensures var rows := LatestInvoicesOf(Window(sorted, 0, LATEST_INVOICES), fmt);
      && |rows| == Min(LATEST_INVOICES, |Join(db.invoices, db.customers)|)
      && (forall i :: 0 <= i < |rows| ==>
            rows[i] == LatestInvoiceOf(sorted[i], fmt)
            && sorted[i].invoice in db.invoices && sorted[i].customer in db.customers
            && sorted[i].customer.id == sorted[i].invoice.customerId)
      && (forall i, k :: 0 <= i < |rows| <= k < |sorted| ==>
            StrLe(sorted[k].invoice.date, sorted[i].invoice.date))
  {
    var joined := Join(db.invoices, db.customers);
    assert |sorted| == |multiset(sorted)| == |multiset(joined)| == |joined|;
    var rows := LatestInvoicesOf(Window(sorted, 0, LATEST_INVOICES), fmt);
    forall i | 0 <= i < |rows|
      ensures sorted[i].invoice in db.invoices && sorted[i].customer in db.customers
      ensures sorted[i].customer.id == sorted[i].invoice.customerId
    {
      assert sorted[i] in multiset(joined);
    }
  }

  // ================= fetchCardData =================

  datatype CardData = CardData(
    numberOfInvoices: nat,
    numberOfCustomers: nat,
    totalPaidInvoices: string,
    totalPendingInvoices: string)

  function AmountSum(invoices: seq<Invoice>): int {
    if invoices == [] then 0 else invoices[0].amount + AmountSum(invoices[1..])
  }

  /** `status = s`: a case-sensitive comparison. */
  function StatusIs(status: string): Invoice -> bool {
    (inv: Invoice) => inv.status == status
  }

  /** The reference total: the amounts of the invoices whose status is exactly
      `status`, added up. */
  function AmountWithStatus(invoices: seq<Invoice>, status: string): int {
    AmountSum(Filter(invoices, StatusIs(status)))
  }

  /** `CASE WHEN invoices.status = s THEN invoices.amount ELSE 0 END` on a row
      whose invoice columns may be NULL (the unmatched side of a LEFT JOIN). */
  function StatusCase(inv: Option<Invoice>, status: string): int {
    match inv
    case None => 0
    case Some(i) => if i.status == status then i.amount else 0
  }

  function CaseTotal(rows: seq<Option<Invoice>>, status: string): int {
    if rows == [] then 0 else StatusCase(rows[0], status) + CaseTotal(rows[1..], status)
  }

  /** `SUM(CASE ...)`: NULL over no rows. */
  function SqlSumOfCase(rows: seq<Option<Invoice>>, status: string): (r: Option<int>)
    ensures r.None? <==> rows == []
  {
    if rows == [] then None else Some(CaseTotal(rows, status))
  }

  function InvoiceRows(invoices: seq<Invoice>): (r: seq<Option<Invoice>>)
    ensures |r| == |invoices|
    ensures forall i :: 0 <= i < |invoices| ==> r[i] == Some(invoices[i])
  {
    seq(|invoices|, i requires 0 <= i < |invoices| => Some(invoices[i]))
  }

  /** `x ?? d` */
  function Coalesce(x: Option<int>, d: int): int {
    match x
    case None => d
    case Some(v) => v
  }

  /** The CASE total over a table equals the sum over the rows of that status. */
  lemma {:induction false} CaseTotalIsAmountWithStatus(invoices: seq<Invoice>, status: string)
    ensures CaseTotal(InvoiceRows(invoices), status) == AmountWithStatus(invoices, status)
  {
    if invoices != [] {
      var rows := InvoiceRows(invoices);
      CaseTotalIsAmountWithStatus(invoices[1..], status);
      assert rows[1..] == InvoiceRows(invoices[1..]);
      assert CaseTotal(rows, status) == StatusCase(rows[0], status) + CaseTotal(rows[1..], status);
      var keep := StatusIs(status);
      var head := if keep(invoices[0]) then [invoices[0]] else [];
      assert Filter(invoices, keep) == head + Filter(invoices[1..], keep);
      AmountSumConcat(head, Filter(invoices[1..], keep));
    }
  }

  lemma {:induction false} AmountSumConcat(a: seq<Invoice>, b: seq<Invoice>)
    ensures AmountSum(a + b) == AmountSum(a) + AmountSum(b)
  {
    if a != [] {
      assert (a + b)[0] == a[0];
      assert (a + b)[1..] == a[1..] + b;
      AmountSumConcat(a[1..], b);
    } else {
      assert a + b == b;
    }
  }

  /** `SUM(CASE ...) ?? 0` is the status total, also for an empty table. */
  lemma SumOfCaseOrZero(invoices: seq<Invoice>, status: string)
    ensures Coalesce(SqlSumOfCase(InvoiceRows(invoices), status), 0) == AmountWithStatus(invoices, status)
  {
    CaseTotalIsAmountWithStatus(invoices, status);
  }

  /** COUNT(*) of both tables and the paid/pending totals of one snapshot. */
  function FetchCardData(conn: Conn, fmt: int -> string): (r: Result<CardData>)
    ensures r.Failure? <==> conn.Down?
    ensures r.Failure? ==> r.error == CARD_ERROR
    ensures r.Success? ==>
      && r.value.numberOfInvoices == |conn.db.invoices|
      && r.value.numberOfCustomers == |conn.db.customers|
      && r.value.totalPaidInvoices == fmt(AmountWithStatus(conn.db.invoices, "paid"))
      && r.value.totalPendingInvoices == fmt(AmountWithStatus(conn.db.invoices, "pending"))
  {
    match conn
    case Down => Failure(CARD_ERROR)
    case Up(db) =>
      var rows := InvoiceRows(db.invoices);
      SumOfCaseOrZero(db.invoices, "paid");
      SumOfCaseOrZero(db.invoices, "pending");
      Success(CardData(
        |db.invoices|,
        |db.customers|,
        fmt(Coalesce(SqlSumOfCase(rows, "paid"), 0)),
        fmt(Coalesce(SqlSumOfCase(rows, "pending"), 0))))
  }

  /** A total no invoice contributes to is formatted from 0. */
  lemma {:induction false} NoContributionIsZero(invoices: seq<Invoice>, status: string)
    requires forall inv :: inv in invoices ==> inv.status != status
    ensures AmountWithStatus(invoices, status) == 0
  {
    FilterKeepingNone(invoices, StatusIs(status));
  }

  // ================= fetchFilteredInvoices / fetchInvoicesPages =================

  /** A row of the invoices table view. */
  datatype InvoicesTableRow = InvoicesTableRow(
    id: string, amount: int, date: string, status: string,
    name: string, email: string, imageUrl: string)

  function TableRow(j: JoinedRow): InvoicesTableRow {
    InvoicesTableRow(j.invoice.id, j.invoice.amount, j.invoice.date, j.invoice.status,
                     j.customer.name, j.customer.email, j.customer.imageUrl)
  }

  function TableRows(js: seq<JoinedRow>): (r: seq<InvoicesTableRow>)
    ensures |r| == |js|
    ensures forall i :: 0 <= i < |js| ==> r[i] == TableRow(js[i])
  {
    seq(|js|, i requires 0 <= i < |js| => TableRow(js[i]))
  }

  /** The shared WHERE clause of the search and the count: one of customer
      name, customer email, `amount::text`, `date::text` or status ILIKE
      `%query%`. It reads exactly the columns a table row carries. */
  predicate RowMatchesSearch(row: InvoicesTableRow, query: string) {
    var p := SearchPattern(query);
    || ILike(row.name, p)
    || ILike(row.email, p)
    || ILike(IntText(row.amount), p)
    || ILike(row.date, p)
    || ILike(row.status, p)
  }

  predicate InvoiceSearchWhere(j: JoinedRow, query: string) {
    RowMatchesSearch(TableRow(j), query)
  }

  function SearchingFor(query: string): JoinedRow -> bool {
    (j: JoinedRow) => InvoiceSearchWhere(j, query)
  }

  function MatchingInvoices(db: Snapshot, query: string): seq<JoinedRow> {
    Filter(Join(db.invoices, db.customers), SearchingFor(query))
  }

  /** The largest value of PostgreSQL's `bigint`, the type of OFFSET. */
  const MAX_BIGINT: int := 0x7FFF_FFFF_FFFF_FFFF

  /** `(currentPage - 1) * ITEMS_PER_PAGE`, computed before the statement runs. */
  function PageOffset(currentPage: int): (offset: int)
    ensures offset < 0 <==> currentPage < 1
    ensures offset % ITEMS_PER_PAGE == 0
  {
    (currentPage - 1) * ITEMS_PER_PAGE
  }

  /** `Math.ceil(count / ITEMS_PER_PAGE)` */
  function PageCount(count: nat): (pages: nat)
    ensures pages * ITEMS_PER_PAGE >= count
    ensures count > 0 ==> (pages - 1) * ITEMS_PER_PAGE < count
    ensures pages == 0 <==> count == 0
  {
    (count + ITEMS_PER_PAGE - 1) / ITEMS_PER_PAGE
  }

  /** PostgreSQL runs the statement only when OFFSET is a `bigint` that is
      not negative: a page below 1 or a page whose offset exceeds MAX_BIGINT
      makes the statement raise. */
  predicate OffsetAccepted(currentPage: int) {
    0 <= PageOffset(currentPage) <= MAX_BIGINT
  }

  /** The last page whose OFFSET PostgreSQL accepts. */
  const LAST_ACCEPTED_PAGE: int := MAX_BIGINT / ITEMS_PER_PAGE + 1

  /** The accepted pages are exactly 1 to LAST_ACCEPTED_PAGE. */
  lemma OffsetAcceptedRange(currentPage: int)
    ensures OffsetAccepted(currentPage) <==> 1 <= currentPage <= LAST_ACCEPTED_PAGE
  {
    assert LAST_ACCEPTED_PAGE == 1537228672809129302;
  }

  /** What the search statement may return for page `currentPage`: the rows at
      positions PageOffset(currentPage) .. +ITEMS_PER_PAGE-1 of some
      newest-first ordering of the matching rows. */
  ghost predicate IsInvoicesPage(rows: seq<InvoicesTableRow>, db: Snapshot, query: string, currentPage: int) {
    currentPage >= 1 &&
    exists sorted :: IsOrderingOf(sorted, MatchingInvoices(db, query), NewerOrSame)
      && rows == TableRows(Window(sorted, PageOffset(currentPage), ITEMS_PER_PAGE))
  }

  /** A page below 1 gives a negative OFFSET and a page past
      LAST_ACCEPTED_PAGE one beyond `bigint`; PostgreSQL rejects both. */
  function FetchFilteredInvoices(conn: Conn, query: string, currentPage: int): (r: Result<seq<InvoicesTableRow>>)
    ensures r.Failure? <==> conn.Down? || currentPage < 1 || currentPage > LAST_ACCEPTED_PAGE
    ensures r.Failure? ==> r.error == INVOICES_ERROR
    ensures r.Success? ==> IsInvoicesPage(r.value, conn.db, query, currentPage)
  {
    OffsetAcceptedRange(currentPage);
    if conn.Down? || !OffsetAccepted(currentPage) then Failure(INVOICES_ERROR)
    else
      var matching := MatchingInvoices(conn.db, query);
      NewerOrSameIsPreorder();
      SortIsOrdering(matching, NewerOrSame);
      var sorted := Sort(matching, NewerOrSame);
      assert IsOrderingOf(sorted, matching, NewerOrSame);
      Success(TableRows(Window(sorted, PageOffset(currentPage), ITEMS_PER_PAGE)))
  }

  /** `SELECT COUNT(*)` under the same WHERE clause, turned into a page count. */
  function FetchInvoicesPages(conn: Conn, query: string): (r: Result<nat>)
    ensures r.Failure? <==> conn.Down?
    ensures r.Failure? ==> r.error == PAGES_ERROR
    ensures r.Success? ==>
      var count := |MatchingInvoices(conn.db, query)|;
      && r.value * ITEMS_PER_PAGE >= count
      && (count > 0 ==> (r.value - 1) * ITEMS_PER_PAGE < count)
      && (r.value == 0 <==> count == 0)
  {
    match conn
    case Down => Failure(PAGES_ERROR)
    case Up(db) => Success(PageCount(|MatchingInvoices(db, query)|))
  }

  /** Any page the search may return: at most ITEMS_PER_PAGE rows, each
      satisfying the WHERE clause, newest date first; and the page is
      non-empty exactly when currentPage is within the page count. */
  lemma InvoicesPageProperties(rows: seq<InvoicesTableRow>, db: Snapshot, query: string, currentPage: int)
    requires IsInvoicesPage(rows, db, query, currentPage)
    ensures |rows| <= ITEMS_PER_PAGE
    ensures forall row :: row in rows ==> RowMatchesSearch(row, query)
    ensures forall i, k :: 0 <= i < k < |rows| ==> StrLe(rows[k].date, rows[i].date)
    ensures rows != [] <==> currentPage <= PageCount(|MatchingInvoices(db, query)|)
  {
    var matching := MatchingInvoices(db, query);
    var sorted :| IsOrderingOf(sorted, matching, NewerOrSame)
      && rows == TableRows(Window(sorted, PageOffset(currentPage), ITEMS_PER_PAGE));
    PageRowsMatch(matching, sorted, PageOffset(currentPage), query);
    PageIsNewestFirst(sorted, PageOffset(currentPage));
    assert |sorted| == |multiset(sorted)| == |multiset(matching)| == |matching|;
    PageNonEmptyWithinCount(sorted, currentPage);
  }

  lemma PageRowsMatch(matching: seq<JoinedRow>, sorted: seq<JoinedRow>, offset: nat, query: string)
    requires multiset(sorted) == multiset(matching)
    requires forall j :: j in matching ==> InvoiceSearchWhere(j, query)
    ensures forall row :: row in TableRows(Window(sorted, offset, ITEMS_PER_PAGE)) ==> RowMatchesSearch(row, query)
  {
    var w := Window(sorted, offset, ITEMS_PER_PAGE);
    var rows := TableRows(w);
    forall row | row in rows ensures RowMatchesSearch(row, query) {
      var i :| 0 <= i < |rows| && rows[i] == row;
      assert w[i] == sorted[offset + i];
      assert w[i] in multiset(matching);
      assert InvoiceSearchWhere(w[i], query);
    }
  }

  lemma PageIsNewestFirst(sorted: seq<JoinedRow>, offset: nat)
    requires Sorted(sorted, NewerOrSame)
    ensures var rows := TableRows(Window(sorted, offset, ITEMS_PER_PAGE));
      forall i, k :: 0 <= i < k < |rows| ==> StrLe(rows[k].date, rows[i].date)
  {
    var w := Window(sorted, offset, ITEMS_PER_PAGE);
    WindowOfSorted(sorted, offset, ITEMS_PER_PAGE, NewerOrSame);
    var rows := TableRows(w);
    forall i, k | 0 <= i < k < |rows| ensures StrLe(rows[k].date, rows[i].date) {
      assert NewerOrSame(w[i], w[k]);
    }
  }

  /** The page at OFFSET (currentPage - 1) * 6 is non-empty exactly when
      currentPage <= ceil(count / 6). */
  lemma PageNonEmptyWithinCount<T>(sorted: seq<T>, currentPage: int)
    requires currentPage >= 1
    ensures Window(sorted, PageOffset(currentPage), ITEMS_PER_PAGE) != [] <==> currentPage <= PageCount(|sorted|)
  {
    var n := |sorted|;
    var pages := PageCount(n);
    if currentPage <= pages {
      assert (currentPage - 1) * ITEMS_PER_PAGE <= (pages - 1) * ITEMS_PER_PAGE;
    } else {
      assert pages * ITEMS_PER_PAGE <= (currentPage - 1) * ITEMS_PER_PAGE;
    }
  }

  /** For a query without LIKE metacharacters, every row of a page contains
      the query, ignoring ASCII case, in one of the five searched columns. */
  lemma PlainQueryRowsContainQuery(rows: seq<InvoicesTableRow>, db: Snapshot, query: string, currentPage: int)
    requires IsInvoicesPage(rows, db, query, currentPage)
    requires IsWildcardFree(query)
    ensures forall row :: row in rows ==>
      || ContainsIgnoringCase(row.name, query)
      || ContainsIgnoringCase(row.email, query)
      || ContainsIgnoringCase(IntText(row.amount), query)
      || ContainsIgnoringCase(row.date, query)
      || ContainsIgnoringCase(row.status, query)
  {
    InvoicesPageProperties(rows, db, query, currentPage);
    forall row | row in rows
      ensures || ContainsIgnoringCase(row.name, query)
              || ContainsIgnoringCase(row.email, query)
              || ContainsIgnoringCase(IntText(row.amount), query)
              || ContainsIgnoringCase(row.date, query)
              || ContainsIgnoringCase(row.status, query)
    {
      SearchMatchesSubstring(row.name, query);
      SearchMatchesSubstring(row.email, query);
      SearchMatchesSubstring(IntText(row.amount), query);
      SearchMatchesSubstring(row.date, query);
      SearchMatchesSubstring(row.status, query);
    }
  }

  /** The search and the count share their WHERE clause: for a page of at
      least 1 whose OFFSET PostgreSQL accepts, the page the search returns is
      non-empty exactly when the page number is at most the page count. */
  lemma SearchAgreesWithPageCount(db: Snapshot, query: string, currentPage: int)
    requires currentPage >= 1
    ensures var r := FetchFilteredInvoices(Up(db), query, currentPage);
      r.Success? ==> (r.value != [] <==> currentPage <= FetchInvoicesPages(Up(db), query).value)
  {
    var r := FetchFilteredInvoices(Up(db), query, currentPage);
    if r.Success? {
      InvoicesPageProperties(r.value, db, query, currentPage);
    }
  }

  /** For one ordering shared by every page, pages 1 .. PageCount read one
      after another list every matching row exactly once, in that order. Each
      page is a separate statement, though, and may break date ties its own
      way: see PagesMayRepeatAndSkip. */
  lemma PagesListEveryMatch(db: Snapshot, query: string, sorted: seq<JoinedRow>)
    requires IsOrderingOf(sorted, MatchingInvoices(db, query), NewerOrSame)
    ensures Pages(sorted, PageCount(|MatchingInvoices(db, query)|), ITEMS_PER_PAGE) == sorted
  {
    var n := |MatchingInvoices(db, query)|;
    assert |sorted| == |multiset(sorted)| == n;
    PagesArePrefix(sorted, PageCount(n), ITEMS_PER_PAGE);
  }

  lemma TableRowsConcat(a: seq<JoinedRow>, b: seq<JoinedRow>)
    ensures TableRows(a + b) == TableRows(a) + TableRows(b)
  {
  }

  lemma AllSameDateIsSorted(s: seq<JoinedRow>)
    requires forall i, k :: 0 <= i < |s| && 0 <= k < |s| ==> s[i].invoice.date == s[k].invoice.date
    ensures Sorted(s, NewerOrSame)
  {
    forall i, k | 0 <= i < k < |s| ensures NewerOrSame(s[i], s[k]) {
      StrLeTotal(s[k].invoice.date, s[i].invoice.date);
    }
  }

  /** As written, the search orders by date alone and each page is its own
      statement, so two pages may break date ties differently. With seven
      matching rows of one date, page 2 may repeat a row of page 1 while
      another matching row appears on neither page. */
  lemma PagesMayRepeatAndSkip(db: Snapshot, query: string)
    requires |MatchingInvoices(db, query)| == ITEMS_PER_PAGE + 1
    requires forall i, k :: 0 <= i < |MatchingInvoices(db, query)| && 0 <= k < |MatchingInvoices(db, query)| ==>
      MatchingInvoices(db, query)[i].invoice.date == MatchingInvoices(db, query)[k].invoice.date
    requires forall i, k :: 0 <= i < k < |MatchingInvoices(db, query)| ==>
      TableRow(MatchingInvoices(db, query)[i]) != TableRow(MatchingInvoices(db, query)[k])
    ensures exists page1, page2, missing ::
      && IsInvoicesPage(page1, db, query, 1) && IsInvoicesPage(page2, db, query, 2)
      && page2 != [] && page2[0] in page1
      && missing in TableRows(MatchingInvoices(db, query)) && missing !in page1 && missing !in page2
  {
    var m := MatchingInvoices(db, query);
    var other := SwapFirstAndSeventh(m);
    AllSameDateIsSorted(m);
    var page1 := TableRows(Window(m, PageOffset(1), ITEMS_PER_PAGE));
    var page2 := TableRows(Window(other, PageOffset(2), ITEMS_PER_PAGE));
    assert IsOrderingOf(m, m, NewerOrSame);
    assert IsInvoicesPage(page1, db, query, 1);
    assert IsInvoicesPage(page2, db, query, 2);
    SeventhRowOnNeitherPage(m, other);
  }

  /** Swapping the first and the seventh of seven rows of one date gives
      another ordering ORDER BY date allows, whose page 2 is the first row. */
  lemma SwapFirstAndSeventh(m: seq<JoinedRow>) returns (other: seq<JoinedRow>)
    requires |m| == ITEMS_PER_PAGE + 1
    requires forall i, k :: 0 <= i < |m| && 0 <= k < |m| ==> m[i].invoice.date == m[k].invoice.date
    ensures IsOrderingOf(other, m, NewerOrSame)
    ensures Window(other, PageOffset(2), ITEMS_PER_PAGE) == [m[0]]
  {
    other := [m[6]] + m[1..6] + [m[0]];
    assert m == [m[0]] + m[1..6] + [m[6]];
    assert multiset(other) == multiset(m);
    assert forall i :: 0 <= i < |other| ==> other[i].invoice.date == m[0].invoice.date;
    AllSameDateIsSorted(other);
  }

  lemma SeventhRowOnNeitherPage(m: seq<JoinedRow>, other: seq<JoinedRow>)
    requires |m| == ITEMS_PER_PAGE + 1
    requires forall i, k :: 0 <= i < k < |m| ==> TableRow(m[i]) != TableRow(m[k])
    requires Window(other, PageOffset(2), ITEMS_PER_PAGE) == [m[0]]
    ensures var page1 := TableRows(Window(m, PageOffset(1), ITEMS_PER_PAGE));
      var page2 := TableRows(Window(other, PageOffset(2), ITEMS_PER_PAGE));
      && page2 != [] && page2[0] in page1
      && TableRow(m[6]) in TableRows(m) && TableRow(m[6]) !in page1 && TableRow(m[6]) !in page2
  {
    var page1 := TableRows(Window(m, PageOffset(1), ITEMS_PER_PAGE));
    assert page1[0] == TableRow(m[0]);
    assert TableRows(m)[6] == TableRow(m[6]);
    forall i | 0 <= i < |page1| ensures page1[i] != TableRow(m[6]) {
      assert page1[i] == TableRow(m[i]);
    }
  }

  // ---- A tie-free order: ORDER BY invoices.date DESC, invoices.id ----

  /** Newest first, and among invoices of one date, by id. */
  predicate NewerThenById(a: JoinedRow, b: JoinedRow) {
    && StrLe(b.invoice.date, a.invoice.date)
    && (a.invoice.date == b.invoice.date ==> StrLe(a.invoice.id, b.invoice.id))
  }

  lemma NewerThenByIdIsPreorder()
    ensures TotalPreorder(NewerThenById)
  {
    forall a: JoinedRow, b: JoinedRow ensures NewerThenById(a, b) || NewerThenById(b, a) {
      StrLeTotal(a.invoice.date, b.invoice.date);
      StrLeTotal(a.invoice.id, b.invoice.id);
    }
    forall a: JoinedRow, b: JoinedRow, c: JoinedRow | NewerThenById(a, b) && NewerThenById(b, c)
      ensures NewerThenById(a, c)
    {
      StrLeTransitive(c.invoice.date, b.invoice.date, a.invoice.date);
      if a.invoice.date == c.invoice.date {
        StrLeAntisymmetric(a.invoice.date, b.invoice.date);
        StrLeTransitive(a.invoice.id, b.invoice.id, c.invoice.id);
      }
    }
  }

  /** With keys unique, the tie-free order relates no two distinct matching
      rows both ways. */
  lemma NewerThenByIdIsStrict(db: Snapshot, query: string)
    requires KeysUnique(db)
    ensures forall x, y ::
      (x in MatchingInvoices(db, query) && y in MatchingInvoices(db, query) && NewerThenById(x, y) && NewerThenById(y, x))
      ==> x == y
  {
    JoinRowsKeyedByInvoiceId(db);
    forall x, y | x in MatchingInvoices(db, query) && y in MatchingInvoices(db, query) &&
      NewerThenById(x, y) && NewerThenById(y, x)
      ensures x == y
    {
      StrLeAntisymmetric(x.invoice.date, y.invoice.date);
      StrLeAntisymmetric(x.invoice.id, y.invoice.id);
    }
  }

  /** Page `currentPage` of some ordering of `matching` under the tie-free
      order. */
  ghost predicate IsStablePageOf(rows: seq<InvoicesTableRow>, matching: seq<JoinedRow>, currentPage: int) {
    currentPage >= 1 &&
    exists sorted :: IsOrderingOf(sorted, matching, NewerThenById)
      && rows == TableRows(Window(sorted, PageOffset(currentPage), ITEMS_PER_PAGE))
  }

  /** What the search with the tie-free order may return for a page. */
  ghost predicate IsStableInvoicesPage(rows: seq<InvoicesTableRow>, db: Snapshot, query: string, currentPage: int) {
    IsStablePageOf(rows, MatchingInvoices(db, query), currentPage)
  }

  /** The search ordered by `invoices.date DESC, invoices.id`. */
  function FetchFilteredInvoicesById(conn: Conn, query: string, currentPage: int): (r: Result<seq<InvoicesTableRow>>)
    ensures r.Failure? <==> conn.Down? || currentPage < 1 || currentPage > LAST_ACCEPTED_PAGE
    ensures r.Failure? ==> r.error == INVOICES_ERROR
    ensures r.Success? ==> IsStableInvoicesPage(r.value, conn.db, query, currentPage)
  {
    OffsetAcceptedRange(currentPage);
    if conn.Down? || !OffsetAccepted(currentPage) then Failure(INVOICES_ERROR)
    else
      var matching := MatchingInvoices(conn.db, query);
      NewerThenByIdIsPreorder();
      SortIsOrdering(matching, NewerThenById);
      var sorted := Sort(matching, NewerThenById);
      assert IsOrderingOf(sorted, matching, NewerThenById);
      Success(TableRows(Window(sorted, PageOffset(currentPage), ITEMS_PER_PAGE)))
  }

  lemma {:induction false} ConcatOfPages(sorted: seq<JoinedRow>, pages: seq<seq<InvoicesTableRow>>, n: nat)
    requires n <= |pages|
    requires forall k :: 0 <= k < |pages| ==>
      pages[k] == TableRows(Window(sorted, k * ITEMS_PER_PAGE, ITEMS_PER_PAGE))
    ensures Concat(pages[..n]) == TableRows(Pages(sorted, n, ITEMS_PER_PAGE))
  {
    if n > 0 {
      ConcatOfPages(sorted, pages, n - 1);
      assert pages[..n][..n - 1] == pages[..n - 1];
      TableRowsConcat(Pages(sorted, n - 1, ITEMS_PER_PAGE), Window(sorted, (n - 1) * ITEMS_PER_PAGE, ITEMS_PER_PAGE));
    }
  }

  /** With the tie-free order, every page comes from the same ordering, so
      pages 1 .. PageCount read one after another list every matching row
      exactly once, in order. */
  lemma StablePagesListEveryMatch(db: Snapshot, query: string, pages: seq<seq<InvoicesTableRow>>)
    requires KeysUnique(db)
    requires |pages| == PageCount(|MatchingInvoices(db, query)|)
    requires forall k :: 0 <= k < |pages| ==> IsStableInvoicesPage(pages[k], db, query, k + 1)
    ensures exists sorted ::
      IsOrderingOf(sorted, MatchingInvoices(db, query), NewerThenById) && Concat(pages) == TableRows(sorted)
  {
    var m := MatchingInvoices(db, query);
    NewerThenByIdIsPreorder();
    SortIsOrdering(m, NewerThenById);
    var sorted := Sort(m, NewerThenById);
    NewerThenByIdIsStrict(db, query);
    assert forall k :: 0 <= k < |pages| ==> IsStablePageOf(pages[k], m, k + 1);
    PagesShareOneOrdering(m, sorted, pages);
    assert |sorted| == |multiset(sorted)| == |m|;
    PagesOfOneOrderingListIt(sorted, pages);
  }

  lemma PagesOfOneOrderingListIt(sorted: seq<JoinedRow>, pages: seq<seq<InvoicesTableRow>>)
    requires |pages| * ITEMS_PER_PAGE >= |sorted|
    requires forall k :: 0 <= k < |pages| ==>
      pages[k] == TableRows(Window(sorted, k * ITEMS_PER_PAGE, ITEMS_PER_PAGE))
    ensures Concat(pages) == TableRows(sorted)
  {
    ConcatOfPages(sorted, pages, |pages|);
    assert pages[..|pages|] == pages;
    PagesArePrefix(sorted, |pages|, ITEMS_PER_PAGE);
    assert sorted[..|sorted|] == sorted;
  }

  /** When the order relates no two distinct rows both ways, every page is
      cut from the same ordering. */
  lemma PagesShareOneOrdering(m: seq<JoinedRow>, sorted: seq<JoinedRow>, pages: seq<seq<InvoicesTableRow>>)
    requires TotalPreorder(NewerThenById) && IsOrderingOf(sorted, m, NewerThenById)
    requires forall x, y :: (x in m && y in m && NewerThenById(x, y) && NewerThenById(y, x)) ==> x == y
    requires forall k :: 0 <= k < |pages| ==> IsStablePageOf(pages[k], m, k + 1)
    ensures forall k :: 0 <= k < |pages| ==>
      pages[k] == TableRows(Window(sorted, k * ITEMS_PER_PAGE, ITEMS_PER_PAGE))
  {
    assert forall x :: x in sorted ==> x in m by {
      forall x | x in sorted ensures x in m {
        assert x in multiset(sorted);
      }
    }
    forall k | 0 <= k < |pages|
      ensures pages[k] == TableRows(Window(sorted, k * ITEMS_PER_PAGE, ITEMS_PER_PAGE))
    {
      var mine :| IsOrderingOf(mine, m, NewerThenById)
        && pages[k] == TableRows(Window(mine, PageOffset(k + 1), ITEMS_PER_PAGE));
      SortedPermutationsAgree(mine, sorted, NewerThenById);
    }
  }

  /** The empty query, the default of the invoices page, matches every joined
      row: its pattern `%%` matches any text. */
  lemma EmptyQueryMatchesAll(db: Snapshot)
    ensures MatchingInvoices(db, "") == Join(db.invoices, db.customers)
  {
    var joined := Join(db.invoices, db.customers);
    forall j | j in joined ensures InvoiceSearchWhere(j, "") {
      assert SearchPattern("") == "%%";
      assert Lower("%%") == "%%";
      LikeAnyTail(Lower(j.invoice.status));
      LikeLeadingPercent(Lower(j.invoice.status), "%");
    }
    FilterKeepingAll(joined, SearchingFor(""));
  }

  // ================= fetchInvoiceById =================

  /** The edit form's view of an invoice: `amount` in dollars. */
  datatype InvoiceForm = InvoiceForm(id: string, customerId: string, amount: real, status: string)

  function FormOf(inv: Invoice): (f: InvoiceForm)
    ensures f.id == inv.id && f.customerId == inv.customerId && f.status == inv.status
    ensures f.amount * 100.0 == inv.amount as real
  {
    InvoiceForm(inv.id, inv.customerId, inv.amount as real / 100.0, inv.status)
  }

  /** `data[0]` of `WHERE id = $id`. */
  function FirstWithId(invoices: seq<Invoice>, id: string): (r: Option<Invoice>)
    ensures r.None? <==> forall inv :: inv in invoices ==> inv.id != id
    ensures r.Some? ==> r.value in invoices && r.value.id == id
  {
    if invoices == [] then None
    else if invoices[0].id == id then Some(invoices[0])
    else FirstWithId(invoices[1..], id)
  }

  function FetchInvoiceById(conn: Conn, id: string): (r: Result<Option<InvoiceForm>>)
    ensures r.Failure? <==> conn.Down?
    ensures r.Failure? ==> r.error == INVOICE_ERROR
    ensures r.Success? ==> (r.value.None? <==> forall inv :: inv in conn.db.invoices ==> inv.id != id)
    ensures r.Success? && r.value.Some? ==>
      exists inv :: inv in conn.db.invoices && inv.id == id && r.value.value == FormOf(inv)
  {
    match conn
    case Down => Failure(INVOICE_ERROR)
    case Up(db) =>
      match FirstWithId(db.invoices, id)
      case None => Success(None)
      case Some(inv) => Success(Some(FormOf(inv)))
  }

  /** id is the primary key: looking an invoice up by its id yields that very
      invoice, with the amount converted from cents to dollars. */
  lemma InvoiceByIdIsThatInvoice(db: Snapshot, inv: Invoice)
    requires KeysUnique(db) && inv in db.invoices
    ensures FetchInvoiceById(Up(db), inv.id) == Success(Some(FormOf(inv)))
  {
    var found := FirstWithId(db.invoices, inv.id);
    var i :| 0 <= i < |db.invoices| && db.invoices[i] == found.value;
    var j :| 0 <= j < |db.invoices| && db.invoices[j] == inv;
    assert i == j;
  }

  // ================= fetchCustomers =================

  datatype CustomerField = CustomerField(id: string, name: string)

  /** ORDER BY name ASC */
  predicate NameOrder(a: Customer, b: Customer) {
    StrLe(a.name, b.name)
  }

  lemma NameOrderIsPreorder()
    ensures TotalPreorder(NameOrder)
  {
    forall a: Customer, b: Customer ensures NameOrder(a, b) || NameOrder(b, a) {
      StrLeTotal(a.name, b.name);
    }
    forall a: Customer, b: Customer, c: Customer | NameOrder(a, b) && NameOrder(b, c)
      ensures NameOrder(a, c)
    {
      StrLeTransitive(a.name, b.name, c.name);
    }
  }

  function CustomerFields(cs: seq<Customer>): (r: seq<CustomerField>)
    ensures |r| == |cs|
    ensures forall i :: 0 <= i < |cs| ==> r[i] == CustomerField(cs[i].id, cs[i].name)
  {
    seq(|cs|, i requires 0 <= i < |cs| => CustomerField(cs[i].id, cs[i].name))
  }

  ghost predicate IsCustomerList(rows: seq<CustomerField>, db: Snapshot) {
    exists sorted :: IsOrderingOf(sorted, db.customers, NameOrder) && rows == CustomerFields(sorted)
  }

  /** `SELECT id, name FROM customers ORDER BY name ASC` */
  function FetchCustomers(conn: Conn): (r: Result<seq<CustomerField>>)
    ensures r.Failure? <==> conn.Down?
    ensures r.Failure? ==> r.error == CUSTOMERS_ERROR
    ensures r.Success? ==> IsCustomerList(r.value, conn.db)
  {
    match conn
    case Down => Failure(CUSTOMERS_ERROR)
    case Up(db) =>
      NameOrderIsPreorder();
      SortIsOrdering(db.customers, NameOrder);
      var sorted := Sort(db.customers, NameOrder);
      assert IsOrderingOf(sorted, db.customers, NameOrder);
      Success(CustomerFields(sorted))
  }

  /** Any customer list the statement may return has one entry per customer
      row, holds exactly the customers' ids and names, and is ordered by name. */
  lemma CustomerListProperties(rows: seq<CustomerField>, db: Snapshot)
    requires IsCustomerList(rows, db)
    ensures |rows| == |db.customers|
    ensures forall c :: c in db.customers ==> CustomerField(c.id, c.name) in rows
    ensures forall f :: f in rows ==> exists c :: c in db.customers && f == CustomerField(c.id, c.name)
    ensures forall i, j :: 0 <= i < j < |rows| ==> StrLe(rows[i].name, rows[j].name)
  {
    var sorted :| IsOrderingOf(sorted, db.customers, NameOrder) && rows == CustomerFields(sorted);
    assert |sorted| == |multiset(sorted)| == |multiset(db.customers)| == |db.customers|;
    forall c | c in db.customers ensures CustomerField(c.id, c.name) in rows {
      assert c in multiset(sorted);
      var i :| 0 <= i < |sorted| && sorted[i] == c;
      assert rows[i] == CustomerField(c.id, c.name);
    }
    forall f | f in rows ensures exists c :: c in db.customers && f == CustomerField(c.id, c.name) {
      var i :| 0 <= i < |rows| && rows[i] == f;
      assert sorted[i] in multiset(db.customers);
    }
    forall i, j | 0 <= i < j < |rows| ensures StrLe(rows[i].name, rows[j].name) {
      assert NameOrder(sorted[i], sorted[j]);
    }
  }

  // ================= fetchFilteredCustomers =================

  /** A result row of the grouped statement, before formatting. */
  datatype CustomerAggregate = CustomerAggregate(
    id: string, name: string, email: string, imageUrl: string,
    totalInvoices: nat, totalPending: int, totalPaid: int)

  /** A row of the customers table view: the totals formatted. */
  datatype CustomersTableRow = CustomersTableRow(
    id: string, name: string, email: string, imageUrl: string,
    totalInvoices: nat, totalPending: string, totalPaid: string)

  /** `customers.id = invoices.customer_id` */
  function BelongsTo(c: Customer): Invoice -> bool {
    (inv: Invoice) => inv.customerId == c.id
  }

  function InvoicesOf(c: Customer, invoices: seq<Invoice>): seq<Invoice> {
    Filter(invoices, BelongsTo(c))
  }

  /** The rows `customers LEFT JOIN invoices` gives one customer: one per
      invoice of that customer, or a single row of NULL invoice columns. */
  function LeftJoinGroup(c: Customer, invoices: seq<Invoice>): (r: seq<Option<Invoice>>)
    ensures r != []
    ensures forall inv :: Some(inv) in r <==> inv in invoices && inv.customerId == c.id
    ensures (forall inv :: inv in invoices ==> inv.customerId != c.id) ==> r == [None]
    ensures CountNonNull(r) == |InvoicesOf(c, invoices)|
  {
    var own := InvoicesOf(c, invoices);
    if own == [] then [None]
    else
      CountNonNullOfInvoiceRows(own);
      InvoiceRowsHoldExactly(own);
      InvoiceRows(own)
  }

  lemma InvoiceRowsHoldExactly(invoices: seq<Invoice>)
    ensures None !in InvoiceRows(invoices)
    ensures forall inv :: Some(inv) in InvoiceRows(invoices) <==> inv in invoices
  {
    var rows := InvoiceRows(invoices);
    forall inv | inv in invoices ensures Some(inv) in rows {
      var i :| 0 <= i < |invoices| && invoices[i] == inv;
      assert rows[i] == Some(inv);
    }
  }

  /** `COUNT(invoices.id)`: the rows whose invoice columns are not NULL. */
  function CountNonNull(rows: seq<Option<Invoice>>): nat {
    if rows == [] then 0 else (if rows[0].Some? then 1 else 0) + CountNonNull(rows[1..])
  }

  lemma {:induction false} CountNonNullOfInvoiceRows(invoices: seq<Invoice>)
    ensures CountNonNull(InvoiceRows(invoices)) == |invoices|
  {
    if invoices != [] {
      assert InvoiceRows(invoices)[1..] == InvoiceRows(invoices[1..]);
      CountNonNullOfInvoiceRows(invoices[1..]);
    }
  }

  /** One group of the GROUP BY: the customer's columns, its invoice count and
      its pending and paid totals, all 0 for a customer without invoices. */
  function Aggregate(c: Customer, invoices: seq<Invoice>): (a: CustomerAggregate)
    ensures a.id == c.id && a.name == c.name && a.email == c.email && a.imageUrl == c.imageUrl
    ensures a.totalInvoices == |InvoicesOf(c, invoices)|
    ensures a.totalPending == AmountWithStatus(InvoicesOf(c, invoices), "pending")
    ensures a.totalPaid == AmountWithStatus(InvoicesOf(c, invoices), "paid")
  {
    var group := LeftJoinGroup(c, invoices);
    var own := InvoicesOf(c, invoices);
    CountNonNullOfInvoiceRows(own);
    CaseTotalIsAmountWithStatus(own, "pending");
    CaseTotalIsAmountWithStatus(own, "paid");
    assert own == [] ==> CaseTotal(group, "pending") == 0 && CaseTotal(group, "paid") == 0 && CountNonNull(group) == 0;
    assert own == [] ==> AmountWithStatus(own, "pending") == 0 && AmountWithStatus(own, "paid") == 0;
    var pending := SqlSumOfCase(group, "pending");
    var paid := SqlSumOfCase(group, "paid");
    CustomerAggregate(c.id, c.name, c.email, c.imageUrl, CountNonNull(group), pending.value, paid.value)
  }

  /** A customer without invoices still gets its row, with zero totals. */
  lemma CustomerWithoutInvoices(c: Customer, invoices: seq<Invoice>)
    requires forall inv :: inv in invoices ==> inv.customerId != c.id
    ensures Aggregate(c, invoices).totalInvoices == 0
    ensures Aggregate(c, invoices).totalPending == 0 && Aggregate(c, invoices).totalPaid == 0
  {
    FilterKeepingNone(invoices, BelongsTo(c));
  }

  /** WHERE customers.name ILIKE `%query%` OR customers.email ILIKE `%query%` */
  predicate CustomerSearchWhere(c: Customer, query: string) {
    ILike(c.name, SearchPattern(query)) || ILike(c.email, SearchPattern(query))
  }

  function CustomerSearchingFor(query: string): Customer -> bool {
    (c: Customer) => CustomerSearchWhere(c, query)
  }

  function MatchingCustomers(db: Snapshot, query: string): seq<Customer> {
    Filter(db.customers, CustomerSearchingFor(query))
  }

  function Aggregates(cs: seq<Customer>, invoices: seq<Invoice>): (r: seq<CustomerAggregate>)
    ensures |r| == |cs|
    ensures forall i :: 0 <= i < |cs| ==> r[i] == Aggregate(cs[i], invoices)
  {
    seq(|cs|, i requires 0 <= i < |cs| => Aggregate(cs[i], invoices))
  }

  /** ORDER BY customers.name ASC on the grouped rows. */
  predicate AggregateNameOrder(a: CustomerAggregate, b: CustomerAggregate) {
    StrLe(a.name, b.name)
  }

  lemma AggregateNameOrderIsPreorder()
    ensures TotalPreorder(AggregateNameOrder)
  {
    forall a: CustomerAggregate, b: CustomerAggregate
      ensures AggregateNameOrder(a, b) || AggregateNameOrder(b, a)
    {
      StrLeTotal(a.name, b.name);
    }
    forall a: CustomerAggregate, b: CustomerAggregate, c: CustomerAggregate
      | AggregateNameOrder(a, b) && AggregateNameOrder(b, c)
      ensures AggregateNameOrder(a, c)
    {
      StrLeTransitive(a.name, b.name, c.name);
    }
  }

  function FormatCustomer(a: CustomerAggregate, fmt: int -> string): CustomersTableRow {
    CustomersTableRow(a.id, a.name, a.email, a.imageUrl, a.totalInvoices, fmt(a.totalPending), fmt(a.totalPaid))
  }

  function FormatCustomers(as_: seq<CustomerAggregate>, fmt: int -> string): (r: seq<CustomersTableRow>)
    ensures |r| == |as_|
    ensures forall i :: 0 <= i < |as_| ==> r[i] == FormatCustomer(as_[i], fmt)
  {
    seq(|as_|, i requires 0 <= i < |as_| => FormatCustomer(as_[i], fmt))
  }

  ghost predicate IsCustomersTable(rows: seq<CustomersTableRow>, db: Snapshot, query: string, fmt: int -> string) {
    exists sorted :: IsOrderingOf(sorted, Aggregates(MatchingCustomers(db, query), db.invoices), AggregateNameOrder)
      && rows == FormatCustomers(sorted, fmt)
  }

  function FetchFilteredCustomers(conn: Conn, query: string, fmt: int -> string): (r: Result<seq<CustomersTableRow>>)
    ensures r.Failure? <==> conn.Down?
    ensures r.Failure? ==> r.error == CUSTOMER_TABLE_ERROR
    ensures r.Success? ==> IsCustomersTable(r.value, conn.db, query, fmt)
  {
    match conn
    case Down => Failure(CUSTOMER_TABLE_ERROR)
    case Up(db) =>
      var groups := Aggregates(MatchingCustomers(db, query), db.invoices);
      AggregateNameOrderIsPreorder();
      SortIsOrdering(groups, AggregateNameOrder);
      var sorted := Sort(groups, AggregateNameOrder);
      assert IsOrderingOf(sorted, groups, AggregateNameOrder);
      Success(FormatCustomers(sorted, fmt))
  }

  /** Any customers table the statement may return: one row per customer
      whose name or email matches, each carrying that customer's invoice
      count and formatted totals, and nothing else, ordered by name. */
  lemma CustomersTableProperties(rows: seq<CustomersTableRow>, db: Snapshot, query: string, fmt: int -> string)
    requires IsCustomersTable(rows, db, query, fmt)
    ensures |rows| == |MatchingCustomers(db, query)|
    ensures forall c :: c in db.customers && CustomerSearchWhere(c, query) ==>
      FormatCustomer(Aggregate(c, db.invoices), fmt) in rows
    ensures forall row :: row in rows ==>
      (exists c :: c in db.customers && CustomerSearchWhere(c, query) && row == FormatCustomer(Aggregate(c, db.invoices), fmt))
    ensures forall i, j :: 0 <= i < j < |rows| ==> StrLe(rows[i].name, rows[j].name)
  {
    var matching := MatchingCustomers(db, query);
    var groups := Aggregates(matching, db.invoices);
    var sorted :| IsOrderingOf(sorted, groups, AggregateNameOrder) && rows == FormatCustomers(sorted, fmt);
    assert |sorted| == |multiset(sorted)| == |multiset(groups)| == |groups|;
    EveryMatchingCustomerListed(matching, db.invoices, sorted, fmt);
    OnlyMatchingCustomersListed(matching, db.invoices, sorted, fmt);
    forall i, j | 0 <= i < j < |rows| ensures StrLe(rows[i].name, rows[j].name) {
      assert AggregateNameOrder(sorted[i], sorted[j]);
    }
  }

  lemma EveryMatchingCustomerListed(matching: seq<Customer>, invoices: seq<Invoice>, sorted: seq<CustomerAggregate>, fmt: int -> string)
    requires multiset(sorted) == multiset(Aggregates(matching, invoices))
    ensures forall c :: c in matching ==> FormatCustomer(Aggregate(c, invoices), fmt) in FormatCustomers(sorted, fmt)
  {
    var groups := Aggregates(matching, invoices);
    var rows := FormatCustomers(sorted, fmt);
    forall c | c in matching ensures FormatCustomer(Aggregate(c, invoices), fmt) in rows {
      var k :| 0 <= k < |matching| && matching[k] == c;
      assert groups[k] in multiset(sorted);
      var i :| 0 <= i < |sorted| && sorted[i] == groups[k];
      assert rows[i] == FormatCustomer(Aggregate(c, invoices), fmt);
    }
  }

  lemma OnlyMatchingCustomersListed(matching: seq<Customer>, invoices: seq<Invoice>, sorted: seq<CustomerAggregate>, fmt: int -> string)
    requires multiset(sorted) == multiset(Aggregates(matching, invoices))
    ensures forall row :: row in FormatCustomers(sorted, fmt) ==>
      (exists c :: c in matching && row == FormatCustomer(Aggregate(c, invoices), fmt))
  {
    var groups := Aggregates(matching, invoices);
    var rows := FormatCustomers(sorted, fmt);
    forall row | row in rows
      ensures exists c :: c in matching && row == FormatCustomer(Aggregate(c, invoices), fmt)
    {
      var i :| 0 <= i < |rows| && rows[i] == row;
      assert sorted[i] in multiset(groups);
      var k :| 0 <= k < |groups| && groups[k] == sorted[i];
      assert matching[k] in matching;
    }
  }
}
