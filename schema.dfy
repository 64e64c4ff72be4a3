/** The four tables of the dashboard's database, as an immutable snapshot,
    and the result type every data-access function returns. */
module Schema {

  datatype Option<+T> = None | Some(value: T)

  /** A query either yields rows or raises; every caller turns the raised
      driver error into one fixed message. */
  datatype Result<+T> = Success(value: T) | Failure(error: string)

  /** users(id, name, email unique, password); `password` holds a bcrypt hash. */
  datatype User = User(id: string, name: string, email: string, password: string)

  /** customers(id, name, email, image_url) */
  datatype Customer = Customer(id: string, name: string, email: string, imageUrl: string)

  /** invoices(id, customer_id, amount int, status text, date date).
      `amount` is in cents; `date` is the ISO text of the date ('YYYY-MM-DD'),
      which is what `date::text` yields. */
  datatype Invoice = Invoice(id: string, customerId: string, amount: int, status: string, date: string)

  /** revenue(month text primary key, revenue int) */
  datatype Revenue = Revenue(month: string, revenue: int)

  datatype Snapshot = Snapshot(
    invoices: seq<Invoice>,
    customers: seq<Customer>,
    users: seq<User>,
    revenue: seq<Revenue>)

  /** The database as one request sees it: reachable with a snapshot of its
      tables, or failing every statement. */
  datatype Conn = Up(db: Snapshot) | Down

  /** The key constraints the schema declares: primary keys on invoices,
      customers and revenue, and the unique email of users. */
  ghost predicate KeysUnique(db: Snapshot) {
    && (forall i, j :: 0 <= i < j < |db.invoices| ==> db.invoices[i].id != db.invoices[j].id)
    && (forall i, j :: 0 <= i < j < |db.customers| ==> db.customers[i].id != db.customers[j].id)
    && (forall i, j :: 0 <= i < j < |db.users| ==> db.users[i].email != db.users[j].email)
    && (forall i, j :: 0 <= i < j < |db.revenue| ==> db.revenue[i].month != db.revenue[j].month)
  }
}
