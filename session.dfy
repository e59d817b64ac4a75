/**
 * The bookstore as a state machine: the three stores plus the session state
 * (login stack, selected book per user, set of logged-in users), and one step
 * function per command, each giving the new state and what is printed.
 */
module Session {
  import opened Records
  import opened Validators
  import opened Tokenizer
  import opened BookStore
  import opened FinanceStore

  datatype SysState = SysState(
    accounts: map<string, Account>,
    books: map<string, Book>,
    ledger: seq<Transaction>,
    loginStack: seq<string>,
    selected: map<string, string>,
    loggedIn: set<string>)

  /**
   * What a command prints: nothing, `Invalid`, an empty line, the listed books
   * (an empty listing prints an empty line), a purchase total, or the
   * income/expenditure pair; `Exit` ends the program.
   */
  datatype Output =
    | Silent
    | Invalid
    | BlankLine
    | Listing(listed: seq<Book>)
    | Charged(total: nat)
    | Totals(income: nat, expenditure: nat)
    | Exit

  datatype Outcome = Outcome(st: SysState, out: Output)

  /** The state on a first start: only `root`, nothing in the catalog or the ledger, nobody logged in. */
  function FreshStart(): SysState {
    SysState(map["root" := ROOT_ACCOUNT], map[], [], [], map[], {})
  }

  // ---------------------------------------------------------------------------
  // Invariant
  // ---------------------------------------------------------------------------

  /** Accounts are filed under their IDs, have a real privilege and fit the fixed-size record fields. */
  predicate AccountsWellFormed(accounts: map<string, Account>) {
    forall k :: k in accounts ==>
      && accounts[k].userId == k
      && accounts[k].privilege in {1, 3, 7}
      && |accounts[k].userId| <= 30 && |accounts[k].password| <= 30 && |accounts[k].username| <= 30
  }

  /** Books are filed under their ISBNs, never have negative stock and fit the fixed-size record fields. */
  predicate BooksWellFormed(books: map<string, Book>) {
    forall k :: k in books ==>
      && books[k].isbn == k
      && books[k].quantity >= 0
      && |books[k].isbn| <= 20 && |books[k].name| <= 60 && |books[k].author| <= 60 && |books[k].keyword| <= 60
  }

  /** The logged-in set is exactly the set of users on the stack, and every one of them has an account. */
  predicate SessionsWellFormed(st: SysState) {
    && st.loggedIn == (set u | u in st.loginStack)
    && forall i :: 0 <= i < |st.loginStack| ==> st.loginStack[i] in st.accounts
  }

  predicate Inv(st: SysState) {
    AccountsWellFormed(st.accounts) && BooksWellFormed(st.books) && SessionsWellFormed(st)
  }

  // ---------------------------------------------------------------------------
  // The current user
  // ---------------------------------------------------------------------------

  /** 0 with nobody logged in, otherwise the privilege of the top of the stack (-1 if that account is gone). */
  function CurrentPrivilege(st: SysState): (r: int)
    ensures st.loginStack == [] ==> r == 0
    ensures r > 0 ==> st.loginStack != [] && CurrentUser(st) in st.accounts && st.accounts[CurrentUser(st)].privilege == r
  {
    if st.loginStack == [] then 0
    else
      var top := st.loginStack[|st.loginStack| - 1];
      if top in st.accounts then st.accounts[top].privilege else -1
  }

  /** The user ID on top of the stack, "" with nobody logged in. */
  function CurrentUser(st: SysState): (u: string)
    ensures st.loginStack == [] ==> u == ""
    ensures st.loginStack != [] ==> u in st.loginStack && st.loginStack == st.loginStack[..|st.loginStack| - 1] + [u]
  {
    if st.loginStack == [] then "" else st.loginStack[|st.loginStack| - 1]
  }

  function Reject(st: SysState): Outcome {
    Outcome(st, Invalid)
  }

  // ---------------------------------------------------------------------------
  // Account commands
  // ---------------------------------------------------------------------------

  /** `su userID [password]`: without a password only into an account of strictly lower privilege. */
  function Su(st: SysState, args: seq<string>): (r: Outcome)
    ensures r.out == Silent || r == Outcome(st, Invalid)
    ensures r.out == Silent ==>
      && |args| >= 1 && args[0] in st.accounts
      && r.st == st.(loginStack := st.loginStack + [args[0]], loggedIn := st.loggedIn + {args[0]})
  {
    if |args| < 1 || |args| > 2 then Reject(st)
    else
      var userId := args[0];
      var password := if |args| == 2 then args[1] else "";
      if !ValidUserId(userId) || (password != "" && !ValidPassword(password)) then Reject(st)
      else if userId !in st.accounts then Reject(st)
      else if password == "" && CurrentPrivilege(st) <= st.accounts[userId].privilege then Reject(st)
      else if password != "" && st.accounts[userId].password != password then Reject(st)
      else Outcome(st.(loginStack := st.loginStack + [userId], loggedIn := st.loggedIn + {userId}), Silent)
  }

  /** `logout`: pop the top entry, drop that user's selection, and leave the logged-in set if no other entry remains. */
  function Logout(st: SysState): (r: Outcome)
    ensures r.out == Invalid <==> st.loginStack == []
    ensures r.out == Silent || r == Outcome(st, Invalid)
    ensures st.loginStack != [] ==>
      && r.st.loginStack + [CurrentUser(st)] == st.loginStack
      && r.st.selected == st.selected - {CurrentUser(st)}
      && r.st.accounts == st.accounts && r.st.books == st.books && r.st.ledger == st.ledger
  {
    if st.loginStack == [] then Reject(st)
    else
      var user := st.loginStack[|st.loginStack| - 1];
      var rest := st.loginStack[..|st.loginStack| - 1];
      Outcome(st.(loginStack := rest,
                  selected := st.selected - {user},
                  loggedIn := if user in rest then st.loggedIn else st.loggedIn - {user}),
              Silent)
  }

  /** `register userID password username`: a new customer account (privilege 1). */
  function Register(st: SysState, args: seq<string>): (r: Outcome)
    ensures r.out == Silent || r == Outcome(st, Invalid)
    ensures r.out == Silent ==>
      && |args| == 3 && args[0] !in st.accounts
      && r.st == st.(accounts := st.accounts[args[0] := Account(args[0], args[1], args[2], 1)])
  {
    if |args| != 3 then Reject(st)
    else
      var userId, password, username := args[0], args[1], args[2];
      if !ValidUserId(userId) || !ValidPassword(password) || !ValidUsername(username) then Reject(st)
      else if userId in st.accounts then Reject(st)
      else Outcome(st.(accounts := st.accounts[userId := Account(userId, password, username, 1)]), Silent)
  }

  /** `passwd userID [currentPassword] newPassword`: the current password may be left out only by privilege 7. */
  function Passwd(st: SysState, args: seq<string>): (r: Outcome)
    ensures r.out == Silent || r == Outcome(st, Invalid)
    ensures r.out == Silent ==>
      && CurrentPrivilege(st) >= 1 && 2 <= |args| <= 3 && args[0] in st.accounts
      && r.st == st.(accounts := st.accounts[args[0] := st.accounts[args[0]].(password := args[|args| - 1])])
  {
    if CurrentPrivilege(st) < 1 then Reject(st)
    else if |args| < 2 || |args| > 3 then Reject(st)
    else
      var userId := args[0];
      var currentPassword := if |args| == 3 then args[1] else "";
      var newPassword := if |args| == 3 then args[2] else args[1];
      if !ValidUserId(userId) || (currentPassword != "" && !ValidPassword(currentPassword))
         || !ValidPassword(newPassword) then Reject(st)
      else if userId !in st.accounts then Reject(st)
      else if currentPassword == "" && CurrentPrivilege(st) != 7 then Reject(st)
      else if currentPassword != "" && st.accounts[userId].password != currentPassword then Reject(st)
      else Outcome(st.(accounts := st.accounts[userId := st.accounts[userId].(password := newPassword)]), Silent)
  }

  /** `useradd userID password privilege username`: privilege 1, 3 or 7, strictly below the caller's. */
  function Useradd(st: SysState, args: seq<string>): (r: Outcome)
    ensures r.out == Silent || r == Outcome(st, Invalid)
    ensures r.out == Silent ==>
      && |args| == 4 && args[0] !in st.accounts && args[0] in r.st.accounts
      && r.st.accounts[args[0]].privilege < CurrentPrivilege(st)
      && r.st == st.(accounts := st.accounts[args[0] := r.st.accounts[args[0]]])
  {
    if CurrentPrivilege(st) < 3 then Reject(st)
    else if |args| != 4 then Reject(st)
    else
      var userId, password, privilegeStr, username := args[0], args[1], args[2], args[3];
      if !ValidUserId(userId) || !ValidPassword(password) || |privilegeStr| != 1 || !IsDigit(privilegeStr[0])
         || !ValidUsername(username) then Reject(st)
      else
        var privilege := DigitOf(privilegeStr[0]);
        if privilege != 1 && privilege != 3 && privilege != 7 then Reject(st)
        else if privilege >= CurrentPrivilege(st) then Reject(st)
        else if userId in st.accounts then Reject(st)
        else Outcome(st.(accounts := st.accounts[userId := Account(userId, password, username, privilege)]), Silent)
  }

  /** `delete userID`: privilege 7, an existing account that is not logged in anywhere on the stack. */
  function Delete(st: SysState, args: seq<string>): (r: Outcome)
    ensures r.out == Silent || r == Outcome(st, Invalid)
    ensures r.out == Silent ==>
      && CurrentPrivilege(st) >= 7 && |args| == 1 && args[0] in st.accounts && args[0] !in st.loggedIn
      && r.st == st.(accounts := st.accounts - {args[0]})
  {
    if CurrentPrivilege(st) < 7 then Reject(st)
    else if |args| != 1 then Reject(st)
    else
      var userId := args[0];
      if !ValidUserId(userId) then Reject(st)
      else if userId !in st.accounts then Reject(st)
      else if userId in st.loggedIn then Reject(st)
      else Outcome(st.(accounts := st.accounts - {userId}), Silent)
  }

  // ---------------------------------------------------------------------------
  // Argument parsing shared by show and modify
  // ---------------------------------------------------------------------------

  predicate HasPrefix(s: string, p: string) {
    |p| <= |s| && s[..|p|] == p
  }

  /** The text between the quotes of `-xxx="..."`, the key taking `n` characters; at least one character inside. */
  function Unquote(arg: string, n: nat): (r: Option<string>)
    ensures r.Some? ==> |arg| >= n + 3 && arg[n] == '"' && arg[|arg| - 1] == '"' && r.value == arg[n + 1..|arg| - 1]
    ensures r.None? ==> |arg| < n + 3 || arg[n] != '"' || arg[|arg| - 1] != '"'
  {
    if |arg| < n + 3 || arg[n] != '"' || arg[|arg| - 1] != '"' then None
    else Some(arg[n + 1..|arg| - 1])
  }

  datatype Filter = Filter(searchType: string, value: string)

  /** The filter of `show [-ISBN=x | -name="x" | -author="x" | -keyword="x"]`; a keyword filter holds one keyword. */
  function ShowFilter(args: seq<string>): (r: Option<Filter>)
    ensures args == [] ==> r == Some(Filter("", ""))
    ensures r.Some? && args != [] ==>
      var v := r.value.value;
      && |args| == 1
      && r.value.searchType in {"ISBN", "name", "author", "keyword"}
      && (r.value.searchType == "ISBN" ==> args[0] == "-ISBN=" + v && ValidIsbn(v))
      && (r.value.searchType == "name" ==> args[0] == "-name=\"" + v + "\"" && ValidBookName(v))
      && (r.value.searchType == "author" ==> args[0] == "-author=\"" + v + "\"" && ValidBookName(v))
      && (r.value.searchType == "keyword" ==> args[0] == "-keyword=\"" + v + "\"" && ValidBookName(v))
      && (r.value.searchType == "keyword" ==> '|' !in r.value.value)
  {
    if args == [] then Some(Filter("", ""))
    else if |args| != 1 then None
    else
      var arg := args[0];
      if HasPrefix(arg, "-ISBN=") then
        var v := arg[6..];
        if v == "" || !ValidIsbn(v) then None else Some(Filter("ISBN", v))
      else if HasPrefix(arg, "-name=") then
        match Unquote(arg, 6)
        case None => None
        case Some(v) => if v == "" || !ValidBookName(v) then None else Some(Filter("name", v))
      else if HasPrefix(arg, "-author=") then
        match Unquote(arg, 8)
        case None => None
        case Some(v) => if v == "" || !ValidBookName(v) then None else Some(Filter("author", v))
      else if HasPrefix(arg, "-keyword=") then
        match Unquote(arg, 9)
        case None => None
        case Some(v) => if v == "" || !ValidBookName(v) || '|' in v then None else Some(Filter("keyword", v))
      else None
  }

  // ---------------------------------------------------------------------------
  // Book commands
  // ---------------------------------------------------------------------------

  /** `show [filter]`: the matching books in ascending ISBN order. */
  ghost function Show(st: SysState, args: seq<string>): (r: Outcome)
    ensures r.st == st
    ensures r.out == Invalid || r.out.Listing?
    ensures r.out.Listing? ==> CurrentPrivilege(st) >= 1 && ShowFilter(args).Some?
  {
    if CurrentPrivilege(st) < 1 then Reject(st)
    else
      match ShowFilter(args)
      case None => Reject(st)
      case Some(f) => Outcome(st, Listing(SearchSpec(st.books, f.searchType, f.value)))
  }

  /** `buy ISBN quantity`: stock down by the quantity, one income entry of price times quantity. */
  function Buy(st: SysState, args: seq<string>): (r: Outcome)
    ensures r.out.Charged? || r == Outcome(st, Invalid)
    ensures r.out.Charged? ==>
      && CurrentPrivilege(st) >= 1 && |args| == 2 && args[0] in st.books
      && r.st.books.Keys == st.books.Keys
      && r.st.ledger == st.ledger + [Transaction(r.out.total, true)]
      && r.st == st.(books := r.st.books, ledger := r.st.ledger)
  {
    if CurrentPrivilege(st) < 1 then Reject(st)
    else if |args| != 2 then Reject(st)
    else
      var isbn, quantityStr := args[0], args[1];
      if !ValidIsbn(isbn) || !ValidQuantity(quantityStr) then Reject(st)
      else
        var quantity := DigitsValue(quantityStr);
        if quantity <= 0 then Reject(st)
        else if isbn !in st.books then Reject(st)
        else if st.books[isbn].quantity < quantity then Reject(st)
        else
          var total := st.books[isbn].price * quantity;
          Outcome(st.(books := AdjustStock(st.books, isbn, -(quantity as int)),
                      ledger := st.ledger + [Transaction(total, true)]),
                  Charged(total))
  }

  /** `select ISBN`: creates an empty record for an unknown ISBN and makes it the current user's selection. */
  function Select(st: SysState, args: seq<string>): (r: Outcome)
    ensures r.out == Silent || r == Outcome(st, Invalid)
    ensures r.out == Silent ==>
      && CurrentPrivilege(st) >= 3 && |args| == 1 && args[0] in r.st.books
      && r.st.selected == st.selected[CurrentUser(st) := args[0]]
      && r.st.books.Keys == st.books.Keys + {args[0]}
      && (forall k :: k in st.books ==> r.st.books[k] == st.books[k])
      && r.st == st.(books := r.st.books, selected := r.st.selected)
  {
    if CurrentPrivilege(st) < 3 then Reject(st)
    else if |args| != 1 then Reject(st)
    else
      var isbn := args[0];
      if !ValidIsbn(isbn) then Reject(st)
      else
        Outcome(st.(books := if isbn in st.books then st.books else st.books[isbn := EmptyBook(isbn)],
                    selected := st.selected[CurrentUser(st) := isbn]),
                Silent)
  }

  datatype Field = IsbnField | NameField | AuthorField | KeywordField | PriceField

  /** The edits collected from `modify`'s arguments so far; empty strings and price -1 stand for "unchanged". */
  datatype Pending = Pending(used: set<Field>, newIsbn: string, name: string, author: string, keyword: string, price: int)

  const NO_EDITS := Pending({}, "", "", "", "", -1)

  /** The field an argument of `modify` sets, judged by its key alone. */
  function FieldOf(arg: string): Option<Field> {
    if HasPrefix(arg, "-ISBN=") then Some(IsbnField)
    else if HasPrefix(arg, "-name=") then Some(NameField)
    else if HasPrefix(arg, "-author=") then Some(AuthorField)
    else if HasPrefix(arg, "-keyword=") then Some(KeywordField)
    else if HasPrefix(arg, "-price=") then Some(PriceField)
    else None
  }

  /**
   * One argument of `modify`: each field at most once; a new ISBN must be valid,
   * differ from the selected one and not be in the catalog.
   */
  function ModifyArg(p: Pending, arg: string, current: string, books: map<string, Book>): (r: Option<Pending>)
    ensures r.Some? ==> FieldOf(arg).Some? && FieldOf(arg).value !in p.used && r.value.used == p.used + {FieldOf(arg).value}
    ensures r.Some? && r.value.newIsbn != p.newIsbn ==>
      FieldOf(arg) == Some(IsbnField) && ValidIsbn(r.value.newIsbn) && r.value.newIsbn != current && r.value.newIsbn !in books
  {
    if HasPrefix(arg, "-ISBN=") then
      if IsbnField in p.used then None
      else
        var v := arg[6..];
        if v == "" || !ValidIsbn(v) then None
        else if v == current then None
        else if v in books then None
        else Some(p.(used := p.used + {IsbnField}, newIsbn := v))
    else if HasPrefix(arg, "-name=") then
      if NameField in p.used then None
      else
        match Unquote(arg, 6)
        case None => None
        case Some(v) => if v == "" || !ValidBookName(v) then None else Some(p.(used := p.used + {NameField}, name := v))
    else if HasPrefix(arg, "-author=") then
      if AuthorField in p.used then None
      else
        match Unquote(arg, 8)
        case None => None
        case Some(v) => if v == "" || !ValidBookName(v) then None else Some(p.(used := p.used + {AuthorField}, author := v))
    else if HasPrefix(arg, "-keyword=") then
      if KeywordField in p.used then None
      else
        match Unquote(arg, 9)
        case None => None
        case Some(v) => if v == "" || !ValidKeyword(v) then None else Some(p.(used := p.used + {KeywordField}, keyword := v))
    else if HasPrefix(arg, "-price=") then
      if PriceField in p.used then None
      else
        var v := arg[7..];
        if v == "" || !ValidPrice(v) then None else Some(p.(used := p.used + {PriceField}, price := PriceCents(v)))
    else None
  }

  /** All arguments of `modify`, left to right, stopping at the first one rejected. */
  function ScanModify(p: Pending, args: seq<string>, current: string, books: map<string, Book>): (r: Option<Pending>)
    ensures r.Some? ==> p.used <= r.value.used && |r.value.used| == |p.used| + |args|
    ensures r.Some? && r.value.newIsbn != p.newIsbn ==>
      ValidIsbn(r.value.newIsbn) && r.value.newIsbn != current && r.value.newIsbn !in books
    decreases |args|
  {
    if args == [] then Some(p)
    else
      match ModifyArg(p, args[0], current, books)
      case None => None
      case Some(q) => ScanModify(q, args[1..], current, books)
  }

  /** `modify -field=value ...`: every argument is checked before the selected book is changed. */
  function Modify(st: SysState, args: seq<string>): (r: Outcome)
    ensures r.out == Silent || r == Outcome(st, Invalid)
    ensures r.out == Silent ==>
      && CurrentPrivilege(st) >= 3 && CurrentUser(st) in st.selected && args != []
      && r.st == st.(books := r.st.books, selected := r.st.selected)
  {
    if CurrentPrivilege(st) < 3 then Reject(st)
    else
      var user := CurrentUser(st);
      if user !in st.selected then Reject(st)
      else
        var current := st.selected[user];
        if args == [] then Reject(st)
        else
          match ScanModify(NO_EDITS, args, current, st.books)
          case None => Reject(st)
          case Some(p) =>
            Outcome(st.(books := ModifiedBooks(st.books, current, p.newIsbn, p.name, p.author, p.keyword, p.price),
                        selected := if p.newIsbn != "" then st.selected[user := p.newIsbn] else st.selected),
                    Silent)
  }

  /** A restocking order that passed the checks of `import`: the selected ISBN, the quantity and the cost in cents. */
  datatype ImportOrder = ImportOrder(isbn: string, quantity: nat, cost: nat)

  /** The checks of `import quantity totalCost`, in the source's order. */
  function ImportChecks(st: SysState, args: seq<string>): (r: Option<ImportOrder>)
    ensures r.Some? ==> r.value.quantity > 0 && r.value.cost > 0
  {
    if CurrentPrivilege(st) < 3 then None
    else
      var user := CurrentUser(st);
      if user !in st.selected then None
      else if |args| != 2 then None
      else if !ValidQuantity(args[0]) || !ValidPrice(args[1]) then None
      else
        var quantity := DigitsValue(args[0]);
        var cost := PriceCents(args[1]);
        if quantity <= 0 || cost <= 0 then None
        else Some(ImportOrder(st.selected[user], quantity, cost))
  }

  /**
   * `import quantity totalCost`: stock of the selected book up by the quantity, one
   * expenditure entry of the cost. A selection whose record has since been renamed
   * away still records the expenditure.
   */
  function Import(st: SysState, args: seq<string>): (r: Outcome)
    ensures r.out == Silent || r == Outcome(st, Invalid)
    ensures r.out == Silent <==> ImportChecks(st, args).Some?
    ensures r.out == Silent ==>
      && r.st.books.Keys == st.books.Keys
      && r.st.ledger == st.ledger + [Transaction(ImportChecks(st, args).value.cost, false)]
      && r.st == st.(books := r.st.books, ledger := r.st.ledger)
  {
    match ImportChecks(st, args)
    case None => Reject(st)
    case Some(o) =>
      Outcome(st.(books := AdjustStock(st.books, o.isbn, o.quantity),
                  ledger := st.ledger + [Transaction(o.cost, false)]),
              Silent)
  }

  /** The signed 32-bit value a wider integer is converted to (two's complement wrap-around). */
  function Int32Of(x: int): (r: int)
    ensures -0x8000_0000 <= r < 0x8000_0000
    ensures (r - x) % 0x1_0000_0000 == 0
  {
    (x + 0x8000_0000) % 0x1_0000_0000 - 0x8000_0000
  }

  /** `import` as the source passes the quantity on: converted to a 32-bit `int` first. */
  function ImportAsWritten(st: SysState, args: seq<string>): (r: Outcome)
    ensures r.out == Silent || r == Outcome(st, Invalid)
    ensures r.out == Silent <==> ImportChecks(st, args).Some?
    ensures r.out == Silent ==>
      && r.st.books.Keys == st.books.Keys
      && r.st.ledger == st.ledger + [Transaction(ImportChecks(st, args).value.cost, false)]
      && r.st == st.(books := r.st.books, ledger := r.st.ledger)
  {
    match ImportChecks(st, args)
    case None => Reject(st)
    case Some(o) =>
      Outcome(st.(books := AdjustStock(st.books, o.isbn, Int32Of(o.quantity)),
                  ledger := st.ledger + [Transaction(o.cost, false)]),
              Silent)
  }

  /** `show finance [count]`: totals over the last `count` entries (all without a count); 0 prints an empty line. */
  function ShowFinance(st: SysState, args: seq<string>): (r: Outcome)
    ensures r.st == st
    ensures r.out == Invalid || r.out == BlankLine || r.out.Totals?
    ensures r.out != Invalid ==> CurrentPrivilege(st) >= 7
  {
    if CurrentPrivilege(st) < 7 then Reject(st)
    else if args == [] then
      Outcome(st, Totals(Income(Window(st.ledger, -1)), Expenditure(Window(st.ledger, -1))))
    else if |args| != 1 then Reject(st)
    else if !ValidQuantity(args[0]) then Reject(st)
    else
      var count := DigitsValue(args[0]);
      if count == 0 then Outcome(st, BlankLine)
      else if count > |st.ledger| then Reject(st)
      else Outcome(st, Totals(Income(Window(st.ledger, count)), Expenditure(Window(st.ledger, count))))
  }

  /** `log`, `report finance`, `report employee`: privilege 7, an empty line, nothing changes. */
  function Placeholder(st: SysState): (r: Outcome)
    ensures r.st == st
    ensures r.out == BlankLine <==> CurrentPrivilege(st) >= 7
    ensures r.out == Invalid <==> CurrentPrivilege(st) < 7
  {
    if CurrentPrivilege(st) < 7 then Reject(st) else Outcome(st, BlankLine)
  }

  // ---------------------------------------------------------------------------
  // Dispatch
  // ---------------------------------------------------------------------------

  /** One input line: trim, split into words, dispatch on the first word. */
  ghost function Process(st: SysState, line: string): (r: Outcome)
    ensures r.out == Invalid ==> r.st == st
    ensures Trimmed(line) == "" ==> r == Outcome(st, Silent)
    ensures r.out == Exit ==> r.st == st
  {
    var trimmed := Trimmed(line);
    if trimmed == "" then Outcome(st, Silent)
    else
      var parts := Tokens(trimmed);
      if parts == [] then Outcome(st, Silent)
      else
        var cmd := parts[0];
        var args := parts[1..];
        if cmd == "quit" || cmd == "exit" then Outcome(st, Exit)
        else if cmd == "su" then Su(st, args)
        else if cmd == "logout" then Logout(st)
        else if cmd == "register" then Register(st, args)
        else if cmd == "passwd" then Passwd(st, args)
        else if cmd == "useradd" then Useradd(st, args)
        else if cmd == "delete" then Delete(st, args)
        else if cmd == "show" then
          if args != [] && args[0] == "finance" then ShowFinance(st, args[1..]) else Show(st, args)
        else if cmd == "buy" then Buy(st, args)
        else if cmd == "select" then Select(st, args)
        else if cmd == "modify" then Modify(st, args)
        else if cmd == "import" then Import(st, args)
        else if cmd == "log" then Placeholder(st)
        else if cmd == "report" then
          if |args| == 1 && (args[0] == "finance" || args[0] == "employee") then Placeholder(st) else Reject(st)
        else Reject(st)
  }
}
