/** The records kept by the bookstore's three stores, and a small Option type. */
module Records {

  datatype Option<T> = None | Some(value: T)

  /** A user account; `privilege` is 1, 3 or 7 for real accounts. */
  datatype Account = Account(userId: string, password: string, username: string, privilege: int)

  /** A catalog entry. `price` is in cents; `keyword` is the `|`-joined keyword string. */
  datatype Book = Book(isbn: string, name: string, author: string, keyword: string, price: nat, quantity: int)

  /** One ledger entry: an amount in cents, income (from buy) or expenditure (from import). */
  datatype Transaction = Transaction(amount: nat, isIncome: bool)

  /** The account seeded on first start. */
  const ROOT_ACCOUNT := Account("root", "sjtu", "root", 7)

  /** The record `select` creates for an unknown ISBN: every text field empty, price and stock zero. */
  function EmptyBook(isbn: string): Book {
    Book(isbn, "", "", "", 0, 0)
  }
}
