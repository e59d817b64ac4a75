/**
 * The bookstore object: the three stores and the session state it updates in
 * place. Every command handler is proved to do what the matching step function
 * of `Session` says, so the properties proved there hold of the object.
 */
module Bookstore {
  import opened Records
  import opened Validators
  import opened Tokenizer
  import opened AccountStore
  import opened BookStore
  import opened FinanceStore
  import opened Session
  import opened SessionProperties

  class BookstoreSystem {
    const accountMgr: AccountManager
    const bookMgr: BookManager
    const financeMgr: FinanceManager

    var loginStack: seq<string>
    var selectedBooks: map<string, string>
    var loggedInUsers: set<string>

    /** The whole state as a value. */
    ghost function Abs(): SysState
      reads this, accountMgr, bookMgr, financeMgr
    {
      SysState(accountMgr.accounts, bookMgr.books, financeMgr.transactions, loginStack, selectedBooks, loggedInUsers)
    }

    ghost predicate Valid()
      reads this, accountMgr, bookMgr, financeMgr
    {
      Inv(Abs())
    }

    /**
     * Starts from what the three files held (all empty on a first start), with
     * `root` added when missing and nobody logged in.
     */
    constructor (accounts: map<string, Account>, books: map<string, Book>, ledger: seq<Transaction>)
      requires AccountsWellFormed(accounts) && BooksWellFormed(books)
      ensures Valid()
      ensures Abs() == SysState(if "root" in accounts then accounts else accounts["root" := ROOT_ACCOUNT],
                               books, ledger, [], map[], {})
      ensures accounts == map[] && books == map[] && ledger == [] ==> Abs() == FreshStart()
    {
      accountMgr := new AccountManager(accounts);
      bookMgr := new BookManager(books);
      financeMgr := new FinanceManager(ledger);
      loginStack := [];
      selectedBooks := map[];
      loggedInUsers := {};
      new;
      assert (set u | u in loginStack) == {};
    }

    function CurrentPrivilege(): (p: int)
      reads this, accountMgr, bookMgr, financeMgr
      ensures p == Session.CurrentPrivilege(Abs())
    {
      if loginStack == [] then 0 else accountMgr.GetPrivilege(loginStack[|loginStack| - 1])
    }

    function CurrentUser(): (u: string)
      reads this, accountMgr, bookMgr, financeMgr
      ensures u == Session.CurrentUser(Abs())
    {
      if loginStack == [] then "" else loginStack[|loginStack| - 1]
    }

    // -------------------------------------------------------------------------
    // Account commands
    // -------------------------------------------------------------------------

    method Su(args: seq<string>) returns (out: Output)
      requires Valid()
      modifies this
      ensures Valid()
      ensures Outcome(Abs(), out) == Session.Su(old(Abs()), args)
    {
      SuKeepsInv(Abs(), args);
      if |args| < 1 || |args| > 2 {
        return Invalid;
      }
      var userId := args[0];
      var password := if |args| == 2 then args[1] else "";
      var idOk := IsValidUserId(userId);
      var passwordOk := true;
      if password != "" {
        passwordOk := IsValidPassword(password);
      }
      if !idOk || !passwordOk {
        return Invalid;
      }
      if !accountMgr.Exists(userId) {
        return Invalid;
      }
      var targetPrivilege := accountMgr.GetPrivilege(userId);
      var currentPrivilege := CurrentPrivilege();
      if password == "" {
        if currentPrivilege <= targetPrivilege {
          return Invalid;
        }
      } else if !accountMgr.CheckPassword(userId, password) {
        return Invalid;
      }
      loginStack := loginStack + [userId];
      loggedInUsers := loggedInUsers + {userId};
      out := Silent;
    }

    method Logout() returns (out: Output)
      requires Valid()
      modifies this
      ensures Valid()
      ensures Outcome(Abs(), out) == Session.Logout(old(Abs()))
    {
      LogoutKeepsInv(Abs());
      if loginStack == [] {
        return Invalid;
      }
      var user := loginStack[|loginStack| - 1];
      loginStack := loginStack[..|loginStack| - 1];
      selectedBooks := selectedBooks - {user};
      var stillLoggedIn := false;
      var i := 0;
      while i < |loginStack| && !stillLoggedIn
        invariant 0 <= i <= |loginStack|
        invariant stillLoggedIn ==> user in loginStack
        invariant !stillLoggedIn ==> user !in loginStack[..i]
      {
        if loginStack[i] == user {
          stillLoggedIn := true;
        }
        assert loginStack[..i + 1] == loginStack[..i] + [loginStack[i]];
        i := i + 1;
      }
      if !stillLoggedIn {
        assert loginStack[..i] == loginStack;
        loggedInUsers := loggedInUsers - {user};
      }
      out := Silent;
    }

    method Register(args: seq<string>) returns (out: Output)
      requires Valid()
      modifies accountMgr
      ensures Valid()
      ensures Outcome(Abs(), out) == Session.Register(old(Abs()), args)
    {
      RegisterKeepsInv(Abs(), args);
      if |args| != 3 {
        return Invalid;
      }
      var userId, password, username := args[0], args[1], args[2];
      var idOk := IsValidUserId(userId);
      var passwordOk := IsValidPassword(password);
      var nameOk := IsValidUsername(username);
      if !idOk || !passwordOk || !nameOk {
        return Invalid;
      }
      var added := accountMgr.AddAccount(userId, password, 1, username);
      out := if added then Silent else Invalid;
    }

    method Passwd(args: seq<string>) returns (out: Output)
      requires Valid()
      modifies accountMgr
      ensures Valid()
      ensures Outcome(Abs(), out) == Session.Passwd(old(Abs()), args)
    {
      PasswdKeepsInv(Abs(), args);
      if CurrentPrivilege() < 1 {
        return Invalid;
      }
      if |args| < 2 || |args| > 3 {
        return Invalid;
      }
      var userId := args[0];
      var currentPassword := if |args| == 3 then args[1] else "";
      var newPassword := if |args| == 3 then args[2] else args[1];
      var idOk := IsValidUserId(userId);
      var currentOk := true;
      if currentPassword != "" {
        currentOk := IsValidPassword(currentPassword);
      }
      var newOk := IsValidPassword(newPassword);
      if !idOk || !currentOk || !newOk {
        return Invalid;
      }
      if !accountMgr.Exists(userId) {
        return Invalid;
      }
      if currentPassword == "" {
        if CurrentPrivilege() != 7 {
          return Invalid;
        }
      } else if !accountMgr.CheckPassword(userId, currentPassword) {
        return Invalid;
      }
      var changed := accountMgr.ChangePassword(userId, newPassword);
      out := Silent;
    }

    method Useradd(args: seq<string>) returns (out: Output)
      requires Valid()
      modifies accountMgr
      ensures Valid()
      ensures Outcome(Abs(), out) == Session.Useradd(old(Abs()), args)
    {
      UseraddKeepsInv(Abs(), args);
      if CurrentPrivilege() < 3 {
        return Invalid;
      }
      if |args| != 4 {
        return Invalid;
      }
      var userId, password, privilegeStr, username := args[0], args[1], args[2], args[3];
      var idOk := IsValidUserId(userId);
      var passwordOk := IsValidPassword(password);
      var nameOk := IsValidUsername(username);
      if !idOk || !passwordOk || |privilegeStr| != 1 || !IsDigit(privilegeStr[0]) || !nameOk {
        return Invalid;
      }
      var privilege := DigitOf(privilegeStr[0]);
      if privilege != 1 && privilege != 3 && privilege != 7 {
        return Invalid;
      }
      if privilege >= CurrentPrivilege() {
        return Invalid;
      }
      var added := accountMgr.AddAccount(userId, password, privilege, username);
      out := if added then Silent else Invalid;
    }

    method Delete(args: seq<string>) returns (out: Output)
      requires Valid()
      modifies accountMgr
      ensures Valid()
      ensures Outcome(Abs(), out) == Session.Delete(old(Abs()), args)
    {
      DeleteKeepsInv(Abs(), args);
      if CurrentPrivilege() < 7 {
        return Invalid;
      }
      if |args| != 1 {
        return Invalid;
      }
      var userId := args[0];
      var idOk := IsValidUserId(userId);
      if !idOk {
        return Invalid;
      }
      if !accountMgr.Exists(userId) {
        return Invalid;
      }
      if userId in loggedInUsers {
        return Invalid;
      }
      var deleted := accountMgr.DeleteAccount(userId);
      out := Silent;
    }

    // -------------------------------------------------------------------------
    // Book commands
    // -------------------------------------------------------------------------

    /** The argument checks of `show`, calling the validators. */
    static method ParseShowArgs(args: seq<string>) returns (f: Option<Filter>)
      ensures f == ShowFilter(args)
    {
      if args == [] {
        return Some(Filter("", ""));
      }
      if |args| != 1 {
        return None;
      }
      var arg := args[0];
      if HasPrefix(arg, "-ISBN=") {
        var v := arg[6..];
        var ok := IsValidIsbn(v);
        f := if v == "" || !ok then None else Some(Filter("ISBN", v));
      } else if HasPrefix(arg, "-name=") {
        f := ParseQuoted(arg, 6, "name", false);
      } else if HasPrefix(arg, "-author=") {
        f := ParseQuoted(arg, 8, "author", false);
      } else if HasPrefix(arg, "-keyword=") {
        f := ParseQuoted(arg, 9, "keyword", true);
      } else {
        f := None;
      }
    }

    /** A quoted filter value: a valid book-name string, and without `|` when `single` is set. */
    static method ParseQuoted(arg: string, n: nat, searchType: string, single: bool) returns (f: Option<Filter>)
      ensures f == match Unquote(arg, n)
        case None => None
        case Some(v) => if v == "" || !ValidBookName(v) || (single && '|' in v) then None else Some(Filter(searchType, v))
    {
      var u := Unquote(arg, n);
      if u.None? {
        return None;
      }
      var v := u.value;
      var ok := IsValidBookName(v);
      f := if v == "" || !ok || (single && '|' in v) then None else Some(Filter(searchType, v));
    }

    method Show(args: seq<string>) returns (out: Output)
      requires Valid()
      ensures Outcome(Abs(), out) == Session.Show(Abs(), args)
    {
      if CurrentPrivilege() < 1 {
        return Invalid;
      }
      var f := ParseShowArgs(args);
      if f.None? {
        return Invalid;
      }
      var listed := bookMgr.SearchBooks(f.value.searchType, f.value.value);
      out := Listing(listed);
    }

    method Buy(args: seq<string>) returns (out: Output)
      requires Valid()
      modifies bookMgr, financeMgr
      ensures Valid()
      ensures Outcome(Abs(), out) == Session.Buy(old(Abs()), args)
    {
      BuyKeepsInv(Abs(), args);
      ghost var before := Abs();
      if CurrentPrivilege() < 1 {
        return Invalid;
      }
      if |args| != 2 {
        return Invalid;
      }
      var isbn, quantityStr := args[0], args[1];
      var isbnOk := IsValidIsbn(isbn);
      var quantityOk := IsValidQuantity(quantityStr);
      if !isbnOk || !quantityOk {
        return Invalid;
      }
      var quantity := DigitsValue(quantityStr);
      if quantity <= 0 {
        return Invalid;
      }
      var book := bookMgr.GetBook(isbn);
      if book.None? {
        return Invalid;
      }
      if book.value.quantity < quantity {
        return Invalid;
      }
      var total := book.value.price * quantity;
      var sold := bookMgr.BuyBook(isbn, quantity);
      assert bookMgr.books == AdjustStock(before.books, isbn, -(quantity as int));
      financeMgr.AddTransaction(total, true);
      assert financeMgr.transactions == before.ledger + [Transaction(total, true)];
      out := Charged(total);
      assert Outcome(Abs(), out) == Session.Buy(before, args);
    }

    method Select(args: seq<string>) returns (out: Output)
      requires Valid()
      modifies this, bookMgr
      ensures Valid()
      ensures Outcome(Abs(), out) == Session.Select(old(Abs()), args)
    {
      SelectKeepsInv(Abs(), args);
      if CurrentPrivilege() < 3 {
        return Invalid;
      }
      if |args| != 1 {
        return Invalid;
      }
      var isbn := args[0];
      var isbnOk := IsValidIsbn(isbn);
      if !isbnOk {
        return Invalid;
      }
      var user := CurrentUser();
      if !bookMgr.Exists(isbn) {
        var added := bookMgr.AddBook(isbn);
      }
      selectedBooks := selectedBooks[user := isbn];
      out := Silent;
    }

    /** One argument of `modify`, checked against the catalog as it stands. */
    method ModifyArgument(p: Pending, arg: string, current: string) returns (next: Option<Pending>)
      ensures next == ModifyArg(p, arg, current, bookMgr.books)
    {
      if HasPrefix(arg, "-ISBN=") {
        if IsbnField in p.used {
          return None;
        }
        var v := arg[6..];
        var ok := IsValidIsbn(v);
        if v == "" || !ok || v == current || bookMgr.Exists(v) {
          return None;
        }
        next := Some(p.(used := p.used + {IsbnField}, newIsbn := v));
      } else if HasPrefix(arg, "-name=") {
        if NameField in p.used {
          return None;
        }
        var u := Unquote(arg, 6);
        if u.None? {
          return None;
        }
        var ok := IsValidBookName(u.value);
        next := if u.value == "" || !ok then None else Some(p.(used := p.used + {NameField}, name := u.value));
      } else if HasPrefix(arg, "-author=") {
        if AuthorField in p.used {
          return None;
        }
        var u := Unquote(arg, 8);
        if u.None? {
          return None;
        }
        var ok := IsValidBookName(u.value);
        next := if u.value == "" || !ok then None else Some(p.(used := p.used + {AuthorField}, author := u.value));
      } else if HasPrefix(arg, "-keyword=") {
        if KeywordField in p.used {
          return None;
        }
        var u := Unquote(arg, 9);
        if u.None? {
          return None;
        }
        var ok := IsValidKeyword(u.value);
        next := if u.value == "" || !ok then None else Some(p.(used := p.used + {KeywordField}, keyword := u.value));
      } else if HasPrefix(arg, "-price=") {
        if PriceField in p.used {
          return None;
        }
        var v := arg[7..];
        var ok := IsValidPrice(v);
        next := if v == "" || !ok then None else Some(p.(used := p.used + {PriceField}, price := PriceCents(v)));
      } else {
        next := None;
      }
    }

    method Modify(args: seq<string>) returns (out: Output)
      requires Valid()
      modifies this, bookMgr
      ensures Valid()
      ensures Outcome(Abs(), out) == Session.Modify(old(Abs()), args)
    {
      ModifyKeepsInv(Abs(), args);
      if CurrentPrivilege() < 3 {
        return Invalid;
      }
      var user := CurrentUser();
      if user !in selectedBooks {
        return Invalid;
      }
      var current := selectedBooks[user];
      if args == [] {
        return Invalid;
      }
      var pending := NO_EDITS;
      var i := 0;
      while i < |args|
        invariant 0 <= i <= |args|
        invariant Abs() == old(Abs())
        invariant ScanModify(pending, args[i..], current, bookMgr.books) == ScanModify(NO_EDITS, args, current, bookMgr.books)
      {
        var next := ModifyArgument(pending, args[i], current);
        assert args[i..][0] == args[i] && args[i..][1..] == args[i + 1..];
        if next.None? {
          return Invalid;
        }
        pending := next.value;
        i := i + 1;
      }
      assert args[i..] == [];
      bookMgr.ModifyBook(current, pending.newIsbn, pending.name, pending.author, pending.keyword, pending.price);
      if pending.newIsbn != "" {
        selectedBooks := selectedBooks[user := pending.newIsbn];
      }
      out := Silent;
    }

    method Import(args: seq<string>) returns (out: Output)
      requires Valid()
      modifies bookMgr, financeMgr
      ensures Valid()
      ensures Outcome(Abs(), out) == Session.Import(old(Abs()), args)
    {
      ImportKeepsInv(Abs(), args);
      if CurrentPrivilege() < 3 {
        return Invalid;
      }
      var user := CurrentUser();
      if user !in selectedBooks {
        return Invalid;
      }
      if |args| != 2 {
        return Invalid;
      }
      var quantityStr, totalCostStr := args[0], args[1];
      var quantityOk := IsValidQuantity(quantityStr);
      var costOk := IsValidPrice(totalCostStr);
      if !quantityOk || !costOk {
        return Invalid;
      }
      var quantity := DigitsValue(quantityStr);
      var totalCost := PriceCents(totalCostStr);
      if quantity <= 0 || totalCost <= 0 {
        return Invalid;
      }
      var isbn := selectedBooks[user];
      bookMgr.ImportBook(isbn, quantity);
      financeMgr.AddTransaction(totalCost, false);
      out := Silent;
    }

    method ShowFinance(args: seq<string>) returns (out: Output)
      requires Valid()
      ensures Outcome(Abs(), out) == Session.ShowFinance(Abs(), args)
    {
      if CurrentPrivilege() < 7 {
        return Invalid;
      }
      var count := -1;
      if args != [] {
        if |args| != 1 {
          return Invalid;
        }
        var countOk := IsValidQuantity(args[0]);
        if !countOk {
          return Invalid;
        }
        count := DigitsValue(args[0]);
        if count == 0 {
          return BlankLine;
        }
        if count > financeMgr.TransactionCount() {
          return Invalid;
        }
      }
      var income, expenditure := financeMgr.GetFinance(count);
      out := Totals(income, expenditure);
    }

    /** `log` and the two `report` commands. */
    method Placeholder() returns (out: Output)
      requires Valid()
      ensures Outcome(Abs(), out) == Session.Placeholder(Abs())
    {
      out := if CurrentPrivilege() < 7 then Invalid else BlankLine;
    }

    // -------------------------------------------------------------------------
    // Dispatch
    // -------------------------------------------------------------------------

    method ProcessCommand(line: string) returns (out: Output)
      requires Valid()
      modifies this, accountMgr, bookMgr, financeMgr
      ensures Valid()
      ensures Outcome(Abs(), out) == Process(old(Abs()), line)
    {
      var trimmed := Trim(line);
      if trimmed == "" {
        return Silent;
      }
      var parts := Split(trimmed);
      if parts == [] {
        return Silent;
      }
      var cmd := parts[0];
      var args := parts[1..];
      if cmd == "quit" || cmd == "exit" {
        out := Exit;
      } else if cmd == "su" {
        out := Su(args);
      } else if cmd == "logout" {
        out := Logout();
      } else if cmd == "register" {
        out := Register(args);
      } else if cmd == "passwd" {
        out := Passwd(args);
      } else if cmd == "useradd" {
        out := Useradd(args);
      } else if cmd == "delete" {
        out := Delete(args);
      } else if cmd == "show" {
        if args != [] && args[0] == "finance" {
          out := ShowFinance(args[1..]);
        } else {
          out := Show(args);
        }
      } else if cmd == "buy" {
        out := Buy(args);
      } else if cmd == "select" {
        out := Select(args);
      } else if cmd == "modify" {
        out := Modify(args);
      } else if cmd == "import" {
        out := Import(args);
      } else if cmd == "log" {
        out := Placeholder();
      } else if cmd == "report" {
        if |args| == 1 && (args[0] == "finance" || args[0] == "employee") {
          out := Placeholder();
        } else {
          out := Invalid;
        }
      } else {
        out := Invalid;
      }
    }
  }
}
